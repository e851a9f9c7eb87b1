/** The period scene's data: the department's records of one century, its ten
    most frequent mediums, and one row per year with every other medium folded
    into "Other". */
module Mediums {
  import opened Seqs
  import opened Sorting
  import opened Grouping
  import opened Records
  import opened Centuries

  /** How many mediums keep their own layer. */
  const TopCount: nat := 10
  /** The key every other medium is folded into. */
  const OtherKey: string := "Other"

  /** The records whose begin date lies in `[year, year + 100)`. */
  function PeriodRecords(recs: seq<Record>, year: int): (period: seq<Record>)
    ensures forall i :: 0 <= i < |period| ==> year <= period[i].beginDate < year + 100
    ensures forall x :: Count(period, x) == if year <= x.beginDate < year + 100 then Count(recs, x) else 0
    ensures Subsequence(period, recs)
  {
    Filter(recs, (rec: Record) => year <= rec.beginDate < year + 100)
  }

  /** For a century key, lying in the period is the same as belonging to
      that century. */
  lemma {:induction false} InPeriodIffCentury(year: int, date: int)
    requires year % 100 == 0
    ensures year <= date < year + 100 <==> Century(date) == year
  {
    if year <= date < year + 100 {
      CenturyUnique(date, year);
    }
  }

  /** For a century key, the period holds exactly as many records as fall
      into that century, which is the height of the bar that was clicked. */
  lemma {:induction false} PeriodSize(recs: seq<Record>, year: int)
    requires year % 100 == 0
    ensures |PeriodRecords(recs, year)| == Count(CenturyKeys(recs), year)
  {
    if recs != [] {
      PeriodSize(recs[1..], year);
      InPeriodIffCentury(year, recs[0].beginDate);
      var cs := CenturyKeys(recs);
      assert cs[0] == Century(recs[0].beginDate);
      assert cs[1..] == CenturyKeys(recs[1..]);
    }
  }

  /** Records per medium, in first-seen order. */
  function MediumCounts(period: seq<Record>): (counts: seq<Bucket<string>>)
    ensures DistinctKeys(counts)
    ensures forall i :: 0 <= i < |counts| ==>
      counts[i].count >= 1 && counts[i].count == Count(Map(period, MediumOf), counts[i].key)
    ensures forall m :: m in Map(period, MediumOf) <==> m in KeysOf(counts)
    ensures Total(counts) == |period|
  {
    Rollup(Map(period, MediumOf))
  }

  /** A medium bucket with its position in the first-seen medium list. */
  datatype Ranked = Ranked(pos: nat, bucket: Bucket<string>)

  /** The order of a stable sort by descending count: a larger count first,
      and for equal counts the earlier position first. */
  predicate Precedes(a: Ranked, b: Ranked)
  {
    a.bucket.count > b.bucket.count || (a.bucket.count == b.bucket.count && a.pos < b.pos)
  }

  predicate RankOrdered(s: seq<Ranked>)
  {
    forall i, j :: 0 <= i < j < |s| ==> Precedes(s[i], s[j])
  }

  function InsertRanked(x: Ranked, s: seq<Ranked>): (r: seq<Ranked>)
    requires RankOrdered(s)
    requires forall i :: 0 <= i < |s| ==> s[i].pos != x.pos
    ensures RankOrdered(r)
    ensures multiset(r) == multiset(s) + multiset{x}
    ensures forall y :: y in r <==> y == x || y in s
  {
    if s == [] || Precedes(x, s[0]) then [x] + s
    else
      var rest := InsertRanked(x, s[1..]);
      assert forall j :: 0 <= j < |rest| ==> Precedes(s[0], rest[j]) by {
        forall j | 0 <= j < |rest|
          ensures Precedes(s[0], rest[j])
        {
          assert rest[j] in rest;
          if rest[j] != x {
            var k :| 0 <= k < |s[1..]| && s[1..][k] == rest[j];
            assert s[k + 1] == rest[j];
          }
        }
      }
      assert s == [s[0]] + s[1..];
      [s[0]] + rest
  }

  function SortRanked(s: seq<Ranked>): (r: seq<Ranked>)
    requires forall i, j :: 0 <= i < j < |s| ==> s[i].pos != s[j].pos
    ensures RankOrdered(r)
    ensures multiset(r) == multiset(s)
    ensures |r| == |s|
    ensures forall y :: y in r <==> y in s
  {
    if s == [] then []
    else
      var rest := SortRanked(s[1..]);
      HeadPosFresh(s, rest);
      assert s == [s[0]] + s[1..];
      assert multiset(s) == multiset{s[0]} + multiset(s[1..]);
      InsertRanked(s[0], rest)
  }

  /** A rearrangement of the tail holds no position equal to the head's. */
  lemma {:induction false} HeadPosFresh(s: seq<Ranked>, rest: seq<Ranked>)
    requires s != []
    requires forall i, j :: 0 <= i < j < |s| ==> s[i].pos != s[j].pos
    requires forall y :: y in rest <==> y in s[1..]
    ensures forall i :: 0 <= i < |rest| ==> rest[i].pos != s[0].pos
  {
    forall i | 0 <= i < |rest|
      ensures rest[i].pos != s[0].pos
    {
      assert rest[i] in rest;
      var k :| 0 <= k < |s[1..]| && s[1..][k] == rest[i];
      assert s[k + 1] == rest[i];
    }
  }

  /** The medium buckets ranked by count, largest first. JavaScript's sort is
      stable, so equal counts keep their first-seen order. Every position
      occurs exactly once. */
  function RankMediums(counts: seq<Bucket<string>>): (ranked: seq<Ranked>)
    ensures |ranked| == |counts|
    ensures forall i :: 0 <= i < |ranked| ==>
      ranked[i].pos < |counts| && counts[ranked[i].pos] == ranked[i].bucket
    ensures forall p :: 0 <= p < |counts| ==> Ranked(p, counts[p]) in ranked
    ensures RankOrdered(ranked)
  {
    var indexed := seq(|counts|, i requires 0 <= i < |counts| => Ranked(i, counts[i]));
    var ranked := SortRanked(indexed);
    assert forall i :: 0 <= i < |ranked| ==> ranked[i] in indexed by {
      forall i | 0 <= i < |ranked|
        ensures ranked[i] in indexed
      {
        assert ranked[i] in ranked;
      }
    }
    forall p | 0 <= p < |counts|
      ensures Ranked(p, counts[p]) in ranked
    {
      assert indexed[p] in indexed;
    }
    ranked
  }

  /** Medium `i` comes before medium `j` in the ranking. */
  predicate RankBefore(counts: seq<Bucket<string>>, i: nat, j: nat)
    requires i < |counts| && j < |counts|
  {
    counts[i].count > counts[j].count || (counts[i].count == counts[j].count && i < j)
  }

  /** Position of a medium name among the medium buckets. */
  function PosOf(counts: seq<Bucket<string>>, m: string): (p: nat)
    requires m in KeysOf(counts)
    ensures p < |counts| && counts[p].key == m
  {
    IndexOf(KeysOf(counts), m)
  }

  lemma {:induction false} PosOfKey(counts: seq<Bucket<string>>, p: nat)
    requires DistinctKeys(counts)
    requires p < |counts|
    ensures counts[p].key in KeysOf(counts)
    ensures PosOf(counts, counts[p].key) == p
  {
    assert KeysOf(counts)[p] == counts[p].key;
  }

  /** `ranked` is a ranking of `counts`: what `RankMediums` promises. */
  ghost predicate IsRanking(counts: seq<Bucket<string>>, ranked: seq<Ranked>)
  {
    && |ranked| == |counts|
    && (forall i :: 0 <= i < |ranked| ==> ranked[i].pos < |counts| && counts[ranked[i].pos] == ranked[i].bucket)
    && (forall p :: 0 <= p < |counts| ==> Ranked(p, counts[p]) in ranked)
    && RankOrdered(ranked)
  }

  function RankedKey(r: Ranked): string { r.bucket.key }

  /** `top` lists the names of the first `n` entries of `ranked`. */
  ghost predicate IsTopOf(ranked: seq<Ranked>, n: nat, top: seq<string>)
  {
    n <= |ranked| && |top| == n && forall a :: 0 <= a < n ==> top[a] == RankedKey(ranked[a])
  }

  /** The name at rank `a` is a medium at position `ranked[a].pos`. */
  lemma {:induction false} TopNamesArePositions(counts: seq<Bucket<string>>, ranked: seq<Ranked>, n: nat, top: seq<string>)
    requires DistinctKeys(counts)
    requires IsRanking(counts, ranked)
    requires IsTopOf(ranked, n, top)
    ensures forall a :: 0 <= a < n ==> top[a] in KeysOf(counts) && PosOf(counts, top[a]) == ranked[a].pos
  {
    forall a | 0 <= a < n
      ensures top[a] in KeysOf(counts) && PosOf(counts, top[a]) == ranked[a].pos
    {
      PosOfKey(counts, ranked[a].pos);
    }
  }

  /** A medium is among the top names exactly when its rank is below `n`. */
  lemma {:induction false} TopMembership(counts: seq<Bucket<string>>, ranked: seq<Ranked>, n: nat, top: seq<string>, i: nat)
    requires DistinctKeys(counts)
    requires IsRanking(counts, ranked)
    requires IsTopOf(ranked, n, top)
    requires i < |counts|
    ensures counts[i].key in top <==> exists a :: 0 <= a < n && ranked[a].pos == i
  {
    if counts[i].key in top {
      var a :| 0 <= a < n && top[a] == counts[i].key;
      PosOfKey(counts, i);
      PosOfKey(counts, ranked[a].pos);
      assert ranked[a].pos == i;
    }
    if exists a :: 0 <= a < n && ranked[a].pos == i {
      var a :| 0 <= a < n && ranked[a].pos == i;
      assert top[a] == counts[i].key;
    }
  }

  lemma {:induction false} TopDistinct(counts: seq<Bucket<string>>, ranked: seq<Ranked>, n: nat, top: seq<string>)
    requires DistinctKeys(counts)
    requires IsRanking(counts, ranked)
    requires IsTopOf(ranked, n, top)
    ensures Distinct(top)
  {
    forall a, b | 0 <= a < b < n
      ensures top[a] != top[b]
    {
      assert Precedes(ranked[a], ranked[b]);
      assert ranked[a].pos != ranked[b].pos;
      assert counts[ranked[a].pos].key != counts[ranked[b].pos].key;
    }
  }

  /** Every medium kept ranks before every medium left out. */
  lemma {:induction false} TopBeatsRest(counts: seq<Bucket<string>>, ranked: seq<Ranked>, n: nat, top: seq<string>, i: nat, j: nat)
    requires DistinctKeys(counts)
    requires IsRanking(counts, ranked)
    requires IsTopOf(ranked, n, top)
    requires i < |counts| && j < |counts|
    requires counts[i].key in top && counts[j].key !in top
    ensures RankBefore(counts, i, j)
  {
    TopMembership(counts, ranked, n, top, i);
    var a :| 0 <= a < n && ranked[a].pos == i;
    var t :| 0 <= t < |ranked| && ranked[t] == Ranked(j, counts[j]);
    assert Precedes(ranked[a], ranked[t]);
  }

  /** When the cut keeps every entry, every medium is kept. */
  lemma {:induction false} TopComplete(counts: seq<Bucket<string>>, ranked: seq<Ranked>, top: seq<string>, i: nat)
    requires IsRanking(counts, ranked)
    requires IsTopOf(ranked, |counts|, top)
    requires i < |counts|
    ensures counts[i].key in top
  {
    var t :| 0 <= t < |ranked| && ranked[t] == Ranked(i, counts[i]);
    assert top[t] == counts[i].key;
  }

  /** Everything `TopMediums` promises, for the first `n` names of a ranking. */
  lemma {:induction false} TopFacts(counts: seq<Bucket<string>>, ranked: seq<Ranked>, n: nat, top: seq<string>)
    requires DistinctKeys(counts)
    requires IsRanking(counts, ranked)
    requires IsTopOf(ranked, n, top)
    ensures Distinct(top)
    ensures forall m :: m in top ==> m in KeysOf(counts)
    ensures forall a, b :: 0 <= a < b < |top| ==>
      RankBefore(counts, PosOf(counts, top[a]), PosOf(counts, top[b]))
    ensures forall i, j :: 0 <= i < |counts| && 0 <= j < |counts| ==>
      (counts[i].key in top && counts[j].key !in top ==> RankBefore(counts, i, j))
    ensures n == |counts| ==> forall i :: 0 <= i < |counts| ==> counts[i].key in top
  {
    TopNamesArePositions(counts, ranked, n, top);
    TopDistinct(counts, ranked, n, top);
    forall i, j | 0 <= i < |counts| && 0 <= j < |counts| && counts[i].key in top && counts[j].key !in top
      ensures RankBefore(counts, i, j)
    {
      TopBeatsRest(counts, ranked, n, top, i, j);
    }
    if n == |counts| {
      forall i | 0 <= i < |counts|
        ensures counts[i].key in top
      {
        TopComplete(counts, ranked, top, i);
      }
    }
  }

  /** `topMediums`: the names of the first ten ranked mediums. They are
      distinct, ranked, and every medium left out ranks below every medium
      kept; with ten or fewer mediums, all are kept. */
  function TopMediums(counts: seq<Bucket<string>>): (top: seq<string>)
    requires DistinctKeys(counts)
    ensures |top| == Min(TopCount, |counts|)
    ensures Distinct(top)
    ensures forall m :: m in top ==> m in KeysOf(counts)
    ensures forall a, b :: 0 <= a < b < |top| ==>
      RankBefore(counts, PosOf(counts, top[a]), PosOf(counts, top[b]))
    ensures forall i, j :: 0 <= i < |counts| && 0 <= j < |counts| ==>
      (counts[i].key in top && counts[j].key !in top ==> RankBefore(counts, i, j))
    ensures |counts| <= TopCount ==> forall i :: 0 <= i < |counts| ==> counts[i].key in top
  {
    var ranked := RankMediums(counts);
    var n := Min(TopCount, |counts|);
    var top := Map(ranked[..n], RankedKey);
    assert IsTopOf(ranked, n, top);
    TopFacts(counts, ranked, n, top);
    top
  }

  /** The stacking key a medium is counted under: itself when it is a top
      medium, "Other" otherwise. */
  function Fold(top: seq<string>, medium: string): (key: string)
    ensures key in top || key == OtherKey
    ensures medium in top ==> key == medium
    ensures medium !in top ==> key == OtherKey
  {
    if medium in top then medium else OtherKey
  }

  /** The stacking keys: the top mediums in rank order, then "Other". */
  function StackKeys(top: seq<string>): (keys: seq<string>)
    ensures |keys| == |top| + 1
    ensures keys[..|top|] == top && keys[|top|] == OtherKey
  {
    top + [OtherKey]
  }

  /** One entry of `dataForStacking`: a year and one value per stacking key. */
  datatype Row = Row(year: int, values: seq<nat>)

  function RowYear(row: Row): int { row.year }

  /** Reference count: the period's records of `year` whose folded medium is
      `key`. */
  function FoldedCount(period: seq<Record>, top: seq<string>, year: int, key: string): nat
  {
    if period == [] then 0
    else
      var here: nat := if period[0].beginDate == year && Fold(top, period[0].medium) == key then 1 else 0;
      here + FoldedCount(period[1..], top, year, key)
  }

  function RecordsOfYear(period: seq<Record>, year: int): seq<Record>
  {
    Filter(period, (rec: Record) => rec.beginDate == year)
  }

  function FoldedMediums(recs: seq<Record>, top: seq<string>): seq<string>
  {
    Map(recs, (rec: Record) => Fold(top, rec.medium))
  }

  /** The inner rollup of one year counts exactly the reference count. */
  lemma {:induction false} FoldedCountOfYear(period: seq<Record>, top: seq<string>, year: int, key: string)
    ensures Count(FoldedMediums(RecordsOfYear(period, year), top), key) == FoldedCount(period, top, year, key)
  {
    if period != [] {
      FoldedCountOfYear(period[1..], top, year, key);
      if period[0].beginDate == year {
        assert RecordsOfYear(period, year) == [period[0]] + RecordsOfYear(period[1..], year);
        assert FoldedMediums(RecordsOfYear(period, year), top)
          == [Fold(top, period[0].medium)] + FoldedMediums(RecordsOfYear(period[1..], year), top);
      } else {
        assert RecordsOfYear(period, year) == RecordsOfYear(period[1..], year);
      }
    }
  }

  /** The row of one year, as the two-level rollup builds it, with 0 for a
      key the year has no records of. */
  function YearRow(period: seq<Record>, top: seq<string>, year: int): (row: Row)
    ensures row.year == year
    ensures |row.values| == |StackKeys(top)|
    ensures forall k :: 0 <= k < |StackKeys(top)| ==>
      row.values[k] == FoldedCount(period, top, year, StackKeys(top)[k])
  {
    var keys := StackKeys(top);
    var inner := Rollup(FoldedMediums(RecordsOfYear(period, year), top));
    var values := seq(|keys|, k requires 0 <= k < |keys| => Lookup(inner, keys[k]));
    assert forall k :: 0 <= k < |keys| ==> values[k] == FoldedCount(period, top, year, keys[k]) by {
      forall k | 0 <= k < |keys|
        ensures values[k] == FoldedCount(period, top, year, keys[k])
      {
        LookupRollup(FoldedMediums(RecordsOfYear(period, year), top), keys[k]);
        FoldedCountOfYear(period, top, year, keys[k]);
      }
    }
    Row(year, values)
  }

  function Years(period: seq<Record>): seq<int>
  {
    Map(period, BeginDateOf)
  }

  /** `dataForStacking`: one row per distinct year of the period, ascending,
      holding for each stacking key the number of that year's records whose
      folded medium is that key (0 when there are none). */
  function YearRows(period: seq<Record>, top: seq<string>): (rows: seq<Row>)
    ensures StrictlyIncreasing(rows, RowYear)
    ensures forall y :: y in Years(period) <==> y in Map(rows, RowYear)
    ensures forall i :: 0 <= i < |rows| ==> |rows[i].values| == |StackKeys(top)|
    ensures forall i, k :: 0 <= i < |rows| && 0 <= k < |StackKeys(top)| ==>
      rows[i].values[k] == FoldedCount(period, top, rows[i].year, StackKeys(top)[k])
  {
    var years := Rollup(Years(period));
    var unsorted := RowsOfYears(period, top, years);
    var rows := SortBy(unsorted, RowYear);
    SortedRowValues(period, top, unsorted, rows);
    SortedRowYears(period, years, unsorted, rows);
    rows
  }

  /** The rows of the given years, in their order. */
  function RowsOfYears(period: seq<Record>, top: seq<string>, years: seq<Bucket<int>>): (rows: seq<Row>)
    requires DistinctKeys(years)
    ensures |rows| == |years|
    ensures forall i :: 0 <= i < |years| ==> rows[i].year == years[i].key
    ensures forall r :: r in rows ==> RowMatches(period, top, r)
    ensures DistinctBy(rows, RowYear)
  {
    var rows := seq(|years|, i requires 0 <= i < |years| => YearRow(period, top, years[i].key));
    assert forall i :: 0 <= i < |rows| ==> RowMatches(period, top, rows[i]);
    rows
  }

  /** `row` holds, for each stacking key, the reference count of its year. */
  ghost predicate RowMatches(period: seq<Record>, top: seq<string>, row: Row)
  {
    && |row.values| == |StackKeys(top)|
    && forall k :: 0 <= k < |StackKeys(top)| ==>
         row.values[k] == FoldedCount(period, top, row.year, StackKeys(top)[k])
  }

  lemma {:induction false} SortedRowValues(period: seq<Record>, top: seq<string>, unsorted: seq<Row>, rows: seq<Row>)
    requires forall r :: r in unsorted ==> RowMatches(period, top, r)
    requires forall r :: r in rows ==> r in unsorted
    ensures forall i :: 0 <= i < |rows| ==> RowMatches(period, top, rows[i])
  {
    forall i | 0 <= i < |rows|
      ensures RowMatches(period, top, rows[i])
    {
      assert rows[i] in rows;
    }
  }

  /** Sorting the rows keeps the set of years. */
  lemma {:induction false} SortedRowYears(period: seq<Record>, years: seq<Bucket<int>>, unsorted: seq<Row>, rows: seq<Row>)
    requires forall y :: y in Years(period) <==> y in KeysOf(years)
    requires |unsorted| == |years|
    requires forall i :: 0 <= i < |years| ==> unsorted[i].year == years[i].key
    requires forall r :: r in rows <==> r in unsorted
    ensures forall y :: y in Years(period) <==> y in Map(rows, RowYear)
  {
    forall y
      ensures y in Years(period) <==> y in Map(rows, RowYear)
    {
      SortedRowYear(period, years, unsorted, rows, y);
    }
  }

  lemma {:induction false} SortedRowYear(period: seq<Record>, years: seq<Bucket<int>>, unsorted: seq<Row>, rows: seq<Row>, y: int)
    requires forall y :: y in Years(period) <==> y in KeysOf(years)
    requires |unsorted| == |years|
    requires forall i :: 0 <= i < |years| ==> unsorted[i].year == years[i].key
    requires forall r :: r in rows <==> r in unsorted
    ensures y in Years(period) <==> y in Map(rows, RowYear)
  {
    if y in Years(period) {
      var i :| 0 <= i < |years| && KeysOf(years)[i] == y;
      assert unsorted[i] in unsorted;
      var j :| 0 <= j < |rows| && rows[j] == unsorted[i];
      assert Map(rows, RowYear)[j] == y;
    }
    if y in Map(rows, RowYear) {
      var j :| 0 <= j < |rows| && Map(rows, RowYear)[j] == y;
      assert rows[j] in rows;
      var i :| 0 <= i < |unsorted| && unsorted[i] == rows[j];
      assert KeysOf(years)[i] == y;
    }
  }

  /** The reference counts of one year, key by key. */
  function FoldedCounts(period: seq<Record>, top: seq<string>, year: int, keys: seq<string>): (vs: seq<nat>)
    ensures |vs| == |keys|
    ensures forall k :: 0 <= k < |keys| ==> vs[k] == FoldedCount(period, top, year, keys[k])
  {
    if keys == [] then [] else [FoldedCount(period, top, year, keys[0])] + FoldedCounts(period, top, year, keys[1..])
  }

  /** Dropping the first record removes its contribution from exactly the
      keys equal to its folded medium. */
  lemma {:induction false} FoldedCountsTail(period: seq<Record>, top: seq<string>, year: int, keys: seq<string>)
    requires period != []
    ensures Sum(FoldedCounts(period, top, year, keys)) ==
      Sum(FoldedCounts(period[1..], top, year, keys)) +
      (if period[0].beginDate == year then Count(keys, Fold(top, period[0].medium)) else 0)
  {
    if keys != [] {
      FoldedCountsTail(period, top, year, keys[1..]);
    }
  }

  /** With no medium literally named "Other" among the top mediums, every
      record of a year lands in exactly one stacking key, so a row adds up to
      the number of the period's records of that year. */
  lemma {:induction false} FoldedCountsSum(period: seq<Record>, top: seq<string>, year: int)
    requires Distinct(top)
    requires OtherKey !in top
    ensures Sum(FoldedCounts(period, top, year, StackKeys(top))) == Count(Years(period), year)
  {
    var keys := StackKeys(top);
    if period == [] {
      FoldedCountsZero(period, top, year, keys);
    } else {
      FoldedCountsSum(period[1..], top, year);
      FoldedCountsTail(period, top, year, keys);
      assert Years(period) == [period[0].beginDate] + Years(period[1..]);
      if period[0].beginDate == year {
        assert Distinct(keys) by {
          assert forall i :: 0 <= i < |top| ==> keys[i] == top[i] && top[i] in top;
        }
        assert Fold(top, period[0].medium) in keys;
        CountDistinct(keys, Fold(top, period[0].medium));
      }
    }
  }

  lemma {:induction false} FoldedCountsZero(period: seq<Record>, top: seq<string>, year: int, keys: seq<string>)
    requires period == []
    ensures Sum(FoldedCounts(period, top, year, keys)) == 0
  {
    if keys != [] {
      FoldedCountsZero(period, top, year, keys[1..]);
    }
  }

  /** Each row of `dataForStacking` adds up to the number of records of its
      year, provided no top medium is literally named "Other". */
  lemma {:induction false} RowTotals(period: seq<Record>, top: seq<string>)
    requires Distinct(top)
    requires OtherKey !in top
    ensures forall i :: 0 <= i < |YearRows(period, top)| ==>
      Sum(YearRows(period, top)[i].values) == Count(Years(period), YearRows(period, top)[i].year)
  {
    var rows := YearRows(period, top);
    forall i | 0 <= i < |rows|
      ensures Sum(rows[i].values) == Count(Years(period), rows[i].year)
    {
      assert rows[i].values == FoldedCounts(period, top, rows[i].year, StackKeys(top));
      FoldedCountsSum(period, top, rows[i].year);
    }
  }
}
