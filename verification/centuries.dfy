/** The department scene's data: records grouped by century of their begin
    date, sorted by century, then thinned by the noise threshold. */
module Centuries {
  import opened Seqs
  import opened Sorting
  import opened Grouping
  import opened Records

  /** Buckets with at most this many records are always dropped. */
  const MinAbsolute: nat := 5
  /** A bucket must also hold more than 1/RatioInverse (0.5%) of the largest one. */
  const RatioInverse: nat := 200

  /** The century a year belongs to: the year divided by 100, rounded down,
      times 100. Dafny's division by a positive divisor rounds down, so BCE
      years fall into the more negative century, as the source's floor does. */
  function Century(year: int): (c: int)
    ensures c % 100 == 0
    ensures c <= year < c + 100
  {
    (year / 100) * 100
  }

  /** A century key is the only multiple of 100 in `(year - 100, year]`. */
  lemma {:induction false} CenturyUnique(year: int, c: int)
    requires c % 100 == 0
    requires c <= year < c + 100
    ensures Century(year) == c
  {
    var d := Century(year);
    assert d % 100 == 0 && d <= year < d + 100;
    assert (c - d) % 100 == 0;
    assert -100 < c - d < 100;
  }

  lemma {:induction false} CenturyExamples()
    ensures Century(1847) == 1800
    ensures Century(1800) == 1800
    ensures Century(-150) == -200
    ensures Century(-100) == -100
    ensures Century(-1) == -100
  {
  }

  function CenturyOf(rec: Record): int { Century(rec.beginDate) }

  function CenturyKeys(recs: seq<Record>): seq<int>
  {
    Map(recs, CenturyOf)
  }

  function BucketKey(b: Bucket<int>): int { b.key }

  /** Buckets in strictly increasing key order. */
  predicate Ascending(rows: seq<Bucket<int>>)
  {
    StrictlyIncreasing(rows, BucketKey)
  }

  /** Records per century, ascending by century: every century that some
      record falls into appears once, with its exact number of records. */
  function CenturyCounts(recs: seq<Record>): (rows: seq<Bucket<int>>)
    ensures Ascending(rows)
    ensures forall i :: 0 <= i < |rows| ==>
      rows[i].count >= 1 && rows[i].count == Count(CenturyKeys(recs), rows[i].key)
    ensures forall c :: c in CenturyKeys(recs) <==> c in KeysOf(rows)
    ensures Total(rows) == |recs|
  {
    var grouped := Rollup(CenturyKeys(recs));
    var rows := SortBy(grouped, BucketKey);
    TotalPermutation(rows, grouped);
    KeysOfSameElements(rows, grouped);
    KeysOfSameElements(grouped, rows);
    forall i | 0 <= i < |rows|
      ensures rows[i].count >= 1 && rows[i].count == Count(CenturyKeys(recs), rows[i].key)
    {
      assert rows[i] in grouped;
    }
    rows
  }

  /** The largest count of the buckets; 0 stands for the undefined maximum of
      an empty list. */
  function MaxCount(rows: seq<Bucket<int>>): (m: nat)
    ensures forall i :: 0 <= i < |rows| ==> rows[i].count <= m
    ensures rows == [] ==> m == 0
    ensures rows != [] ==> exists i :: 0 <= i < |rows| && rows[i].count == m
  {
    if rows == [] then 0
    else
      var rest := MaxCount(rows[1..]);
      if rows[0].count >= rest then rows[0].count else rest
  }

  /** A bucket clears the noise threshold when its count exceeds both five and
      half a percent of the largest count, stated over the integers. */
  predicate Survives(count: nat, maxCount: nat)
  {
    count > MinAbsolute && RatioInverse * count > maxCount
  }

  function RealMax(a: real, b: real): real { if a >= b then a else b }

  /** The integer form of the threshold agrees with the threshold computed
      exactly over the reals. */
  lemma {:induction false} SurvivesIsAboveThreshold(count: nat, maxCount: nat)
    ensures Survives(count, maxCount) <==> count as real > RealMax(maxCount as real * 0.005, 5.0)
  {
  }

  /** The noise filter: keeps exactly the buckets that clear the threshold,
      in their original order. */
  function Threshold(rows: seq<Bucket<int>>): (kept: seq<Bucket<int>>)
    ensures forall b :: b in kept <==> b in rows && Survives(b.count, MaxCount(rows))
    ensures forall b :: Count(kept, b) == if Survives(b.count, MaxCount(rows)) then Count(rows, b) else 0
    ensures Subsequence(kept, rows)
    ensures forall i :: 0 <= i < |rows| && rows[i].count == MaxCount(rows) ==>
      (rows[i] in kept <==> MaxCount(rows) > MinAbsolute)
    ensures Ascending(rows) ==> Ascending(kept)
  {
    var m := MaxCount(rows);
    var kept := Filter(rows, (b: Bucket<int>) => Survives(b.count, m));
    if Ascending(rows) then
      SubsequenceAscending(kept, rows);
      kept
    else kept
  }

  lemma {:induction false} SubsequenceAscending(r: seq<Bucket<int>>, s: seq<Bucket<int>>)
    requires Subsequence(r, s)
    requires Ascending(s)
    ensures Ascending(r)
    decreases |s|
  {
    if r != [] {
      if r[0] == s[0] && Subsequence(r[1..], s[1..]) {
        SubsequenceAscending(r[1..], s[1..]);
        SubsequenceMembers(r[1..], s[1..]);
        forall i, j | 0 <= i < j < |r|
          ensures BucketKey(r[i]) < BucketKey(r[j])
        {
          if i > 0 {
            assert r[i] == r[1..][i - 1] && r[j] == r[1..][j - 1];
          } else {
            assert r[j] == r[1..][j - 1];
            assert r[j] in s[1..];
            var k :| 0 <= k < |s[1..]| && s[1..][k] == r[j];
            assert s[k + 1] == r[j];
          }
        }
      } else {
        SubsequenceAscending(r, s[1..]);
      }
    }
  }

  /** The bars of the department scene: the department's centuries that clear
      the noise threshold, ascending, each with its exact record count. */
  function CenturyBars(data: seq<Record>, department: string): (bars: seq<Bucket<int>>)
    ensures Ascending(bars)
    ensures forall i :: 0 <= i < |bars| ==> bars[i].count > MinAbsolute
    ensures forall i :: 0 <= i < |bars| ==>
      bars[i].count == Count(CenturyKeys(DepartmentRecords(data, department)), bars[i].key)
    ensures forall b :: b in bars <==>
      b in CenturyCounts(DepartmentRecords(data, department)) &&
      Survives(b.count, MaxCount(CenturyCounts(DepartmentRecords(data, department))))
  {
    var recs := DepartmentRecords(data, department);
    var rows := CenturyCounts(recs);
    var bars := Threshold(rows);
    forall i | 0 <= i < |bars|
      ensures bars[i].count > MinAbsolute
      ensures bars[i].count == Count(CenturyKeys(recs), bars[i].key)
    {
      assert bars[i] in bars;
      assert bars[i] in rows;
    }
    bars
  }
}
