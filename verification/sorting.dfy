/** Insertion sort on an integer sort key, for sequences whose keys are
    pairwise different (the grouped rows of a rollup). With distinct keys the
    ascending order is unique, so any correct sort, stable or not, yields it. */
module Sorting {

  predicate StrictlyIncreasing<T>(s: seq<T>, key: T -> int)
  {
    forall i, j :: 0 <= i < j < |s| ==> key(s[i]) < key(s[j])
  }

  predicate DistinctBy<T>(s: seq<T>, key: T -> int)
  {
    forall i, j :: 0 <= i < j < |s| ==> key(s[i]) != key(s[j])
  }

  /** Putting a key below all others in front keeps the order strict. */
  lemma {:induction false} ConsIncreasing<T>(h: T, t: seq<T>, key: T -> int)
    requires StrictlyIncreasing(t, key)
    requires forall j :: 0 <= j < |t| ==> key(h) < key(t[j])
    ensures StrictlyIncreasing([h] + t, key)
  {
    var r := [h] + t;
    forall i, j | 0 <= i < j < |r|
      ensures key(r[i]) < key(r[j])
    {
      assert r[j] == t[j - 1];
      if i > 0 {
        assert r[i] == t[i - 1];
      }
    }
  }

  /** `x` inserted into an ascending sequence at its place. */
  function Insert<T(!new)>(x: T, s: seq<T>, key: T -> int): (r: seq<T>)
    requires StrictlyIncreasing(s, key)
    requires forall i :: 0 <= i < |s| ==> key(s[i]) != key(x)
    ensures StrictlyIncreasing(r, key)
    ensures multiset(r) == multiset(s) + multiset{x}
    ensures forall y :: y in r <==> y == x || y in s
  {
    if s == [] || key(x) < key(s[0]) then
      ConsIncreasing(x, s, key);
      [x] + s
    else
      var rest := Insert(x, s[1..], key);
      InsertAbove(x, s, key, rest);
      assert s == [s[0]] + s[1..];
      [s[0]] + rest
  }

  lemma {:induction false} InsertAbove<T>(x: T, s: seq<T>, key: T -> int, rest: seq<T>)
    requires s != [] && StrictlyIncreasing(s, key)
    requires key(s[0]) < key(x)
    requires StrictlyIncreasing(rest, key)
    requires forall y :: y in rest ==> y == x || y in s[1..]
    ensures StrictlyIncreasing([s[0]] + rest, key)
  {
    forall j | 0 <= j < |rest|
      ensures key(s[0]) < key(rest[j])
    {
      assert rest[j] in rest;
      if rest[j] != x {
        var k :| 0 <= k < |s[1..]| && s[1..][k] == rest[j];
        assert s[k + 1] == rest[j];
      }
    }
    ConsIncreasing(s[0], rest, key);
  }

  /** `s` rearranged into ascending key order. */
  function SortBy<T(!new)>(s: seq<T>, key: T -> int): (r: seq<T>)
    requires DistinctBy(s, key)
    ensures StrictlyIncreasing(r, key)
    ensures multiset(r) == multiset(s)
    ensures |r| == |s|
    ensures forall y :: y in r <==> y in s
  {
    if s == [] then []
    else
      var rest := SortBy(s[1..], key);
      assert forall i :: 0 <= i < |rest| ==> key(rest[i]) != key(s[0]) by {
        forall i | 0 <= i < |rest|
          ensures key(rest[i]) != key(s[0])
        {
          assert rest[i] in rest;
          var k :| 0 <= k < |s[1..]| && s[1..][k] == rest[i];
          assert s[k + 1] == rest[i];
        }
      }
      assert s == [s[0]] + s[1..];
      assert multiset(s) == multiset{s[0]} + multiset(s[1..]);
      Insert(s[0], rest, key)
  }
}
