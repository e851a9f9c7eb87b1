/** Grouping and counting: d3's rollup with the group's length as its value.
    A rollup is an association list of buckets in first-seen key order (d3's
    InternMap keeps insertion order, and `Array.from` walks it in that order). */
module Grouping {
  import opened Seqs

  /** One group of a rollup: its key and the number of records in it. */
  datatype Bucket<K> = Bucket(key: K, count: nat)

  function KeysOf<K>(r: seq<Bucket<K>>): (ks: seq<K>)
    ensures |ks| == |r|
    ensures forall i :: 0 <= i < |r| ==> ks[i] == r[i].key
  {
    if r == [] then [] else [r[0].key] + KeysOf(r[1..])
  }

  predicate DistinctKeys<K(==)>(r: seq<Bucket<K>>)
  {
    forall i, j :: 0 <= i < j < |r| ==> r[i].key != r[j].key
  }

  /** Bucket lists with the same elements have the same keys. */
  lemma {:induction false} KeysOfSameElements<K(!new)>(a: seq<Bucket<K>>, b: seq<Bucket<K>>)
    requires forall x :: x in a ==> x in b
    ensures forall k :: k in KeysOf(a) ==> k in KeysOf(b)
  {
    forall k | k in KeysOf(a)
      ensures k in KeysOf(b)
    {
      var i :| 0 <= i < |a| && KeysOf(a)[i] == k;
      assert a[i] in b;
      var j :| 0 <= j < |b| && b[j] == a[i];
      assert KeysOf(b)[j] == k;
    }
  }

  /** Sum of the counts of all buckets. */
  function Total<K>(r: seq<Bucket<K>>): nat
  {
    if r == [] then 0 else r[0].count + Total(r[1..])
  }

  lemma {:induction false} TotalConcat<K>(a: seq<Bucket<K>>, b: seq<Bucket<K>>)
    ensures Total(a + b) == Total(a) + Total(b)
  {
    if a == [] {
      assert a + b == b;
    } else {
      assert (a + b)[1..] == a[1..] + b;
      TotalConcat(a[1..], b);
    }
  }

  /** Rearranging buckets does not change their total. */
  lemma {:induction false} TotalPermutation<K>(a: seq<Bucket<K>>, b: seq<Bucket<K>>)
    requires multiset(a) == multiset(b)
    ensures Total(a) == Total(b)
  {
    if a != [] {
      assert a[0] in multiset(b);
      var j :| 0 <= j < |b| && b[j] == a[0];
      MultisetRemove(a, b, j);
      TotalPermutation(a[1..], b[..j] + b[j + 1..]);
      TotalRemove(b, j);
    }
  }

  lemma {:induction false} MultisetRemove<T>(a: seq<T>, b: seq<T>, j: nat)
    requires multiset(a) == multiset(b)
    requires a != [] && j < |b| && b[j] == a[0]
    ensures multiset(a[1..]) == multiset(b[..j] + b[j + 1..])
  {
    assert b == b[..j] + [b[j]] + b[j + 1..];
    assert a == [a[0]] + a[1..];
    assert multiset(b[..j] + b[j + 1..]) == multiset(b) - multiset{b[j]};
    assert multiset(a[1..]) == multiset(a) - multiset{a[0]};
  }

  lemma {:induction false} TotalRemove<K>(b: seq<Bucket<K>>, j: nat)
    requires j < |b|
    ensures Total(b) == b[j].count + Total(b[..j] + b[j + 1..])
  {
    var pre, post := b[..j], b[j + 1..];
    assert b == (pre + [b[j]]) + post;
    TotalConcat(pre + [b[j]], post);
    TotalConcat(pre, [b[j]]);
    TotalConcat(pre, post);
    assert Total([b[j]]) == b[j].count;
  }

  /** Replacing the count of one bucket changes the total by the difference. */
  lemma {:induction false} TotalUpdate<K>(r: seq<Bucket<K>>, j: nat, c: nat)
    requires j < |r|
    ensures Total(r[j := Bucket(r[j].key, c)]) + r[j].count == Total(r) + c
  {
    var r' := r[j := Bucket(r[j].key, c)];
    assert r == r[..j] + [r[j]] + r[j + 1..];
    assert r' == r[..j] + [r'[j]] + r[j + 1..];
    TotalConcat(r[..j] + [r[j]], r[j + 1..]);
    TotalConcat(r[..j], [r[j]]);
    TotalConcat(r[..j] + [r'[j]], r[j + 1..]);
    TotalConcat(r[..j], [r'[j]]);
  }

  lemma {:induction false} KeysOfUpdate<K>(r: seq<Bucket<K>>, j: nat, c: nat)
    requires j < |r|
    ensures KeysOf(r[j := Bucket(r[j].key, c)]) == KeysOf(r)
  {
  }

  lemma {:induction false} KeysOfAppend<K>(r: seq<Bucket<K>>, b: Bucket<K>)
    ensures KeysOf(r + [b]) == KeysOf(r) + [b.key]
  {
  }

  /** Counting one more record under key `k`: the bucket of `k` grows by one,
      or a new bucket is appended when `k` has not been seen yet. */
  function Tally<K(==)>(r: seq<Bucket<K>>, k: K): (r': seq<Bucket<K>>)
    requires DistinctKeys(r)
    ensures DistinctKeys(r')
    ensures Total(r') == Total(r) + 1
    ensures k in KeysOf(r) ==> KeysOf(r') == KeysOf(r)
    ensures k !in KeysOf(r) ==> KeysOf(r') == KeysOf(r) + [k]
    ensures forall i :: 0 <= i < |r'| ==>
      r'[i].count == (if i < |r| then r[i].count else 0) + (if r'[i].key == k then 1 else 0)
  {
    if k in KeysOf(r) then
      var j := IndexOf(KeysOf(r), k);
      TotalUpdate(r, j, r[j].count + 1);
      KeysOfUpdate(r, j, r[j].count + 1);
      r[j := Bucket(r[j].key, r[j].count + 1)]
    else
      TotalConcat(r, [Bucket(k, 1)]);
      KeysOfAppend(r, Bucket(k, 1));
      r + [Bucket(k, 1)]
  }

  /** The count rollup over the sequence `ks` of the records' keys: one
      bucket per distinct key, in first-seen order. */
  function Rollup<K(==,!new)>(ks: seq<K>): (r: seq<Bucket<K>>)
    ensures DistinctKeys(r)
    ensures forall i :: 0 <= i < |r| ==> r[i].count == Count(ks, r[i].key)
    ensures forall i :: 0 <= i < |r| ==> r[i].count >= 1
    ensures forall k :: k in ks <==> k in KeysOf(r)
    ensures Total(r) == |ks|
  {
    if ks == [] then []
    else
      var init := ks[..|ks| - 1];
      var k := ks[|ks| - 1];
      var prev := Rollup(init);
      assert ks == init + [k];
      assert forall x :: Count(ks, x) == Count(init, x) + (if x == k then 1 else 0) by {
        forall x
          ensures Count(ks, x) == Count(init, x) + (if x == k then 1 else 0)
        {
          CountConcat(init, [k], x);
        }
      }
      CountPositive(init, k);
      Tally(prev, k)
  }

  /** The count stored under `k`, or 0 when the rollup has no such key. */
  function Lookup<K(==,!new)>(r: seq<Bucket<K>>, k: K): (c: nat)
    ensures k !in KeysOf(r) ==> c == 0
    ensures DistinctKeys(r) ==> forall i :: 0 <= i < |r| && r[i].key == k ==> c == r[i].count
  {
    if r == [] then 0
    else if r[0].key == k then r[0].count
    else
      assert forall x :: x in KeysOf(r[1..]) ==> x in KeysOf(r) by {
        assert KeysOf(r) == [r[0].key] + KeysOf(r[1..]);
      }
      Lookup(r[1..], k)
  }

  /** Looking a key up in a rollup gives its number of occurrences. */
  lemma {:induction false} LookupRollup<K(!new)>(ks: seq<K>, k: K)
    ensures Lookup(Rollup(ks), k) == Count(ks, k)
  {
    CountPositive(ks, k);
  }

  /** The buckets of a rollup appear in the order in which their keys were
      first met in the input. */
  lemma {:induction false} RollupFirstSeen<K(!new)>(ks: seq<K>)
    ensures forall i, j :: 0 <= i < j < |Rollup(ks)| ==>
      IndexOf(ks, Rollup(ks)[i].key) < IndexOf(ks, Rollup(ks)[j].key)
  {
    if ks != [] {
      var init := ks[..|ks| - 1];
      var k := ks[|ks| - 1];
      RollupFirstSeen(init);
      var prev := Rollup(init);
      var r := Rollup(ks);
      assert ks == init + [k];
      forall x | x in init
        ensures IndexOf(ks, x) == IndexOf(init, x)
      {
        IndexOfPrefix(init, [k], x);
      }
      if k !in KeysOf(prev) {
        assert KeysOf(r) == KeysOf(prev) + [k];
        assert IndexOf(ks, k) == |init| by {
          assert ks[|init|] == k;
          assert k !in init;
        }
      } else {
        assert KeysOf(r) == KeysOf(prev);
      }
      forall i, j | 0 <= i < j < |r|
        ensures IndexOf(ks, r[i].key) < IndexOf(ks, r[j].key)
      {
        assert r[i].key == KeysOf(r)[i] == KeysOf(prev)[i] == prev[i].key;
        assert prev[i].key in init;
        if j < |prev| {
          assert r[j].key == KeysOf(r)[j] == KeysOf(prev)[j] == prev[j].key;
          assert prev[j].key in init;
        } else {
          assert r[j].key == KeysOf(r)[j] == k;
        }
      }
    }
  }

  lemma {:induction false} IndexOfPrefix<T>(a: seq<T>, b: seq<T>, x: T)
    requires x in a
    ensures IndexOf(a + b, x) == IndexOf(a, x)
  {
    if a[0] != x {
      assert (a + b)[1..] == a[1..] + b;
      IndexOfPrefix(a[1..], b, x);
    }
  }
}
