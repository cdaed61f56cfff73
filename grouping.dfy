/**
 * The reduce both catalogs use to merge records with the same key: look the
 * key up with `findIndex`, then `push` the record when it is new or
 * overwrite the earlier record with the two joined.
 */
module Grouping {
  import opened Wrappers
  import opened Seqs

  /** `acc.findIndex(item => key(item) === k)`. */
  function FindKey<T, K(==)>(acc: seq<T>, key: T -> K, k: K): (r: Option<nat>)
    ensures r.Some? ==> r.value < |acc| && key(acc[r.value]) == k && forall j :: 0 <= j < r.value ==> key(acc[j]) != k
    ensures r.None? ==> forall j :: 0 <= j < |acc| ==> key(acc[j]) != k
  {
    var p := (j: nat) => j < |acc| && key(acc[j]) == k;
    var r := FirstIndex(0, |acc|, p);
    assert forall j: nat :: p(j) == (j < |acc| && key(acc[j]) == k);
    r
  }

  /** One step of the reduce: x joined into the element with its key, or appended. */
  function AddByKey<T, K(==)>(acc: seq<T>, x: T, key: T -> K, join: (T, T) -> T): seq<T>
  {
    match FindKey(acc, key, key(x))
    case None => acc + [x]
    case Some(i) => acc[i := join(acc[i], x)]
  }

  /** The reduce over all of s, from the empty list. */
  function GroupByKey<T, K(==)>(s: seq<T>, key: T -> K, join: (T, T) -> T): seq<T>
    decreases |s|
  {
    if s == [] then [] else AddByKey(GroupByKey(s[..|s| - 1], key, join), s[|s| - 1], key, join)
  }

  /** The reduce over s + [x] is one more step after the reduce over s. */
  lemma GroupByKeySnoc<T, K>(s: seq<T>, x: T, key: T -> K, join: (T, T) -> T)
    ensures GroupByKey(s + [x], key, join) == AddByKey(GroupByKey(s, key, join), x, key, join)
  {
    assert (s + [x])[..|s|] == s;
  }

  /** A non-empty run of records joined from the left. */
  function JoinAll<T>(s: seq<T>, join: (T, T) -> T): T
    requires |s| > 0
    decreases |s|
  {
    if |s| == 1 then s[0] else join(JoinAll(s[..|s| - 1], join), s[|s| - 1])
  }

  function KeysOf<T, K>(s: seq<T>, key: T -> K): seq<K>
  {
    seq(|s|, i requires 0 <= i < |s| => key(s[i]))
  }

  /** The merged list holds one record per key, in the order the keys first appear. */
  lemma {:induction false} GroupByKeyKeys<T, K>(s: seq<T>, key: T -> K, join: (T, T) -> T)
    requires forall a, b :: key(join(a, b)) == key(a)
    ensures KeysOf(GroupByKey(s, key, join), key) == KeysInOrder(s, key)
    decreases |s|
  {
    if s == [] {
      return;
    }
    var init, x := s[..|s| - 1], s[|s| - 1];
    GroupByKeyKeys(init, key, join);
    var g0 := GroupByKey(init, key, join);
    var ks := KeysInOrder(init, key);
    match FindKey(g0, key, key(x))
    case None =>
      assert key(x) !in ks;
      assert KeysOf(g0 + [x], key) == KeysOf(g0, key) + [key(x)];
    case Some(i) =>
      assert KeysOf(g0, key)[i] == key(x);
      assert KeysOf(g0[i := join(g0[i], x)], key) == KeysOf(g0, key);
  }

  /** No two records of the merged list share a key. */
  lemma GroupByKeyDistinct<T, K>(s: seq<T>, key: T -> K, join: (T, T) -> T)
    requires forall a, b :: key(join(a, b)) == key(a)
    ensures var g := GroupByKey(s, key, join);
      forall i, j :: 0 <= i < j < |g| ==> key(g[i]) != key(g[j])
  {
    var g := GroupByKey(s, key, join);
    GroupByKeyKeys(s, key, join);
    forall i, j | 0 <= i < j < |g|
      ensures key(g[i]) != key(g[j])
    {
      assert KeysOf(g, key)[i] == key(g[i]) && KeysOf(g, key)[j] == key(g[j]);
    }
  }

  /** The record for a key is all the records with that key, joined in input order. */
  lemma {:induction false} GroupByKeyRecords<T, K>(s: seq<T>, key: T -> K, join: (T, T) -> T)
    requires forall a, b :: key(join(a, b)) == key(a)
    ensures forall i :: 0 <= i < |GroupByKey(s, key, join)| ==>
      var g := GroupByKey(s, key, join);
      |Occurrences(s, key, key(g[i]))| > 0 && g[i] == JoinAll(Occurrences(s, key, key(g[i])), join)
    decreases |s|
  {
    if s == [] {
      return;
    }
    var init, x := s[..|s| - 1], s[|s| - 1];
    assert s == init + [x];
    GroupByKeyRecords(init, key, join);
    GroupByKeyKeys(init, key, join);
    var g0 := GroupByKey(init, key, join);
    var g := GroupByKey(s, key, join);
    assert KeysOf(g0, key) == KeysInOrder(init, key);
    match FindKey(g0, key, key(x))
    case None =>
      forall j | 0 <= j < |g|
        ensures |Occurrences(s, key, key(g[j]))| > 0 && g[j] == JoinAll(Occurrences(s, key, key(g[j])), join)
      {
        if j == |g0| {
          OccurrencesNonEmpty(init, key, key(x));
          RecordStarted(init, x, key, join);
        } else {
          RecordUntouched(init, x, key, join, g0[j]);
        }
      }
    case Some(i) =>
      forall j | 0 <= j < |g|
        ensures |Occurrences(s, key, key(g[j]))| > 0 && g[j] == JoinAll(Occurrences(s, key, key(g[j])), join)
      {
        if j == i {
          RecordJoined(init, x, key, join, g0[i]);
        } else {
          assert KeysOf(g0, key)[j] != KeysOf(g0, key)[i];
          RecordUntouched(init, x, key, join, g0[j]);
        }
      }
  }

  lemma RecordStarted<T, K>(init: seq<T>, x: T, key: T -> K, join: (T, T) -> T)
    requires Occurrences(init, key, key(x)) == []
    ensures Occurrences(init + [x], key, key(x)) == [x]
    ensures x == JoinAll(Occurrences(init + [x], key, key(x)), join)
  {
    assert (init + [x])[..|init|] == init;
  }

  lemma RecordUntouched<T, K>(init: seq<T>, x: T, key: T -> K, join: (T, T) -> T, r: T)
    requires key(r) != key(x)
    requires |Occurrences(init, key, key(r))| > 0 && r == JoinAll(Occurrences(init, key, key(r)), join)
    ensures Occurrences(init + [x], key, key(r)) == Occurrences(init, key, key(r))
    ensures |Occurrences(init + [x], key, key(r))| > 0 && r == JoinAll(Occurrences(init + [x], key, key(r)), join)
  {
    assert (init + [x])[..|init|] == init;
  }

  lemma RecordJoined<T, K>(init: seq<T>, x: T, key: T -> K, join: (T, T) -> T, r: T)
    requires forall a, b :: key(join(a, b)) == key(a)
    requires key(r) == key(x)
    requires |Occurrences(init, key, key(r))| > 0 && r == JoinAll(Occurrences(init, key, key(r)), join)
    ensures |Occurrences(init + [x], key, key(join(r, x)))| > 0
    ensures join(r, x) == JoinAll(Occurrences(init + [x], key, key(join(r, x))), join)
  {
    var o := Occurrences(init, key, key(x));
    assert (init + [x])[..|init|] == init;
    assert Occurrences(init + [x], key, key(x)) == o + [x];
    assert (o + [x])[..|o|] == o;
  }

  /** A weight additive under join is kept in total by the reduce. */
  lemma {:induction false} GroupByKeySum<T, K>(s: seq<T>, key: T -> K, join: (T, T) -> T, w: T -> nat)
    requires forall a, b :: w(join(a, b)) == w(a) + w(b)
    ensures SumOf(GroupByKey(s, key, join), w) == SumOf(s, w)
    decreases |s|
  {
    if s != [] {
      var init, x := s[..|s| - 1], s[|s| - 1];
      GroupByKeySum(init, key, join, w);
      var g0 := GroupByKey(init, key, join);
      match FindKey(g0, key, key(x))
      case None =>
        assert (g0 + [x])[..|g0|] == g0;
      case Some(i) =>
        SumOfUpdate(g0, i, join(g0[i], x), w);
    }
  }
}
