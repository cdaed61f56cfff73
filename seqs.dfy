/** Sequence operations behind JavaScript's `reduce`, `filter` and `findIndex`. */
module Seqs {
  import opened Wrappers

  /** `s.reduce(f, init)`: a left fold. */
  function FoldLeft<A, T>(f: (A, T) -> A, init: A, s: seq<T>): A
    decreases |s|
  {
    if s == [] then init else f(FoldLeft(f, init, s[..|s| - 1]), s[|s| - 1])
  }

  /** Folding over a concatenation folds over the first part, then goes on over the second. */
  lemma {:induction false} FoldLeftConcat<A, T>(f: (A, T) -> A, init: A, a: seq<T>, b: seq<T>)
    ensures FoldLeft(f, init, a + b) == FoldLeft(f, FoldLeft(f, init, a), b)
    decreases |b|
  {
    if b == [] {
      assert a + b == a;
    } else {
      assert (a + b)[..|a + b| - 1] == a + b[..|b| - 1];
      FoldLeftConcat(f, init, a, b[..|b| - 1]);
    }
  }

  /** r can be obtained from s by deleting elements, the rest keeping their order. */
  ghost predicate Subsequence<T>(r: seq<T>, s: seq<T>)
    decreases |s|
  {
    if r == [] then true
    else if s == [] then false
    else if r[|r| - 1] == s[|s| - 1] then Subsequence(r[..|r| - 1], s[..|s| - 1])
    else Subsequence(r, s[..|s| - 1])
  }

  /** `s.filter(p)`. */
  function Filter<T>(s: seq<T>, p: T -> bool): (r: seq<T>)
    ensures |r| <= |s|
    ensures forall i :: 0 <= i < |r| ==> r[i] in s && p(r[i])
    ensures forall i :: 0 <= i < |s| && p(s[i]) ==> s[i] in r
    ensures Subsequence(r, s)
    decreases |s|
  {
    if s == [] then []
    else
      var s0, x := s[..|s| - 1], s[|s| - 1];
      var init := Filter(s0, p);
      assert s == s0 + [x];
      assert forall i :: 0 <= i < |s0| ==> s0[i] == s[i];
      assert init != [] ==> init[|init| - 1] in init;
      if p(x) then
        assert (init + [x])[..|init|] == init;
        init + [x]
      else init
  }

  /** Filtering one more element appends it when p accepts it. */
  lemma FilterSnoc<T>(s: seq<T>, x: T, p: T -> bool)
    ensures Filter(s + [x], p) == Filter(s, p) + (if p(x) then [x] else [])
  {
    assert (s + [x])[..|s|] == s;
  }

  /** The filter keeps every occurrence of an element p accepts and none of one it rejects. */
  lemma {:induction false} FilterCount<T>(s: seq<T>, p: T -> bool)
    ensures forall x :: x in s ==> multiset(Filter(s, p))[x] == if p(x) then multiset(s)[x] else 0
    decreases |s|
  {
    if s != [] {
      var s0, x := s[..|s| - 1], s[|s| - 1];
      assert s == s0 + [x];
      FilterCount(s0, p);
      FilterCountStep(s0, x, Filter(s0, p), p);
    }
  }

  /** The count of every element is kept by one more step of the filter. */
  lemma FilterCountStep<T>(s0: seq<T>, x: T, r0: seq<T>, p: T -> bool)
    requires forall i :: 0 <= i < |r0| ==> r0[i] in s0
    requires forall y :: y in s0 ==> multiset(r0)[y] == if p(y) then multiset(s0)[y] else 0
    ensures forall y :: y in s0 + [x] ==>
      multiset(if p(x) then r0 + [x] else r0)[y] == if p(y) then multiset(s0 + [x])[y] else 0
  {
    var r := if p(x) then r0 + [x] else r0;
    forall y | y in s0 + [x]
      ensures multiset(r)[y] == if p(y) then multiset(s0 + [x])[y] else 0
    {
      assert multiset(s0 + [x]) == multiset(s0) + multiset{x};
      assert p(x) ==> multiset(r) == multiset(r0) + multiset{x};
      if y !in s0 {
        assert y !in r0;
        assert multiset(r0)[y] == 0 && multiset(s0)[y] == 0;
      }
    }
  }

  /** The elements of s whose key is k, in their order in s. */
  function Occurrences<T, K(==)>(s: seq<T>, key: T -> K, k: K): (r: seq<T>)
    ensures |r| <= |s|
    decreases |s|
  {
    if s == [] then []
    else Occurrences(s[..|s| - 1], key, k) + (if key(s[|s| - 1]) == k then [s[|s| - 1]] else [])
  }

  lemma {:induction false} OccurrencesConcat<T, K>(a: seq<T>, b: seq<T>, key: T -> K, k: K)
    ensures Occurrences(a + b, key, k) == Occurrences(a, key, k) + Occurrences(b, key, k)
    decreases |b|
  {
    if b == [] {
      assert a + b == a;
    } else {
      assert (a + b)[..|a + b| - 1] == a + b[..|b| - 1];
      OccurrencesConcat(a, b[..|b| - 1], key, k);
    }
  }

  /** Every element picked for key k has key k. */
  lemma {:induction false} OccurrencesHaveKey<T, K>(s: seq<T>, key: T -> K, k: K)
    ensures forall i :: 0 <= i < |Occurrences(s, key, k)| ==> key(Occurrences(s, key, k)[i]) == k
    decreases |s|
  {
    if s != [] {
      OccurrencesHaveKey(s[..|s| - 1], key, k);
    }
  }

  /** The occurrences of k are elements of s, and every element of s with key k is among them. */
  lemma {:induction false} OccurrencesMembers<T, K>(s: seq<T>, key: T -> K, k: K)
    ensures forall m :: 0 <= m < |Occurrences(s, key, k)| ==> Occurrences(s, key, k)[m] in s
    ensures forall i :: 0 <= i < |s| && key(s[i]) == k ==> s[i] in Occurrences(s, key, k)
    decreases |s|
  {
    if s != [] {
      var init := s[..|s| - 1];
      OccurrencesMembers(init, key, k);
      assert forall i :: 0 <= i < |init| ==> init[i] == s[i];
      assert forall x :: x in init ==> x in s;
    }
  }

  /** With pairwise distinct keys, the keys in order of first occurrence are the keys of s in order. */
  lemma {:induction false} KeysInOrderDistinct<T, K>(s: seq<T>, key: T -> K)
    requires forall i, j :: 0 <= i < j < |s| ==> key(s[i]) != key(s[j])
    ensures |KeysInOrder(s, key)| == |s|
    ensures forall i :: 0 <= i < |s| ==> KeysInOrder(s, key)[i] == key(s[i])
    decreases |s|
  {
    if s != [] {
      DistinctPrefix(s, key);
      KeysInOrderDistinct(s[..|s| - 1], key);
      LastKeyNew(s, key);
      KeysInOrderDistinctStep(s, key);
    }
  }

  /** The inductive step: the last key is new, so it is appended. */
  lemma KeysInOrderDistinctStep<T, K>(s: seq<T>, key: T -> K)
    requires s != []
    requires |KeysInOrder(s[..|s| - 1], key)| == |s| - 1
    requires forall i :: 0 <= i < |s| - 1 ==> KeysInOrder(s[..|s| - 1], key)[i] == key(s[i])
    requires key(s[|s| - 1]) !in KeysInOrder(s[..|s| - 1], key)
    ensures |KeysInOrder(s, key)| == |s|
    ensures forall i :: 0 <= i < |s| ==> KeysInOrder(s, key)[i] == key(s[i])
  {
    KeysInOrderLastNew(s, key);
    AppendKey(s, KeysInOrder(s[..|s| - 1], key), KeysInOrder(s, key), key);
  }

  /** Keys of a prefix followed by the last element's key are the keys of the whole. */
  lemma AppendKey<T, K>(s: seq<T>, ks: seq<K>, r: seq<K>, key: T -> K)
    requires s != [] && |ks| == |s| - 1
    requires forall i :: 0 <= i < |ks| ==> ks[i] == key(s[i])
    requires r == ks + [key(s[|s| - 1])]
    ensures |r| == |s| && forall i :: 0 <= i < |s| ==> r[i] == key(s[i])
  {
  }

  lemma KeysInOrderLastNew<T, K>(s: seq<T>, key: T -> K)
    requires s != [] && key(s[|s| - 1]) !in KeysInOrder(s[..|s| - 1], key)
    ensures KeysInOrder(s, key) == KeysInOrder(s[..|s| - 1], key) + [key(s[|s| - 1])]
  {
  }

  lemma DistinctPrefix<T, K>(s: seq<T>, key: T -> K)
    requires s != [] && forall i, j :: 0 <= i < j < |s| ==> key(s[i]) != key(s[j])
    ensures var init := s[..|s| - 1]; forall i, j :: 0 <= i < j < |init| ==> key(init[i]) != key(init[j])
  {
  }

  lemma LastKeyNew<T, K>(s: seq<T>, key: T -> K)
    requires s != [] && forall i, j :: 0 <= i < j < |s| ==> key(s[i]) != key(s[j])
    ensures key(s[|s| - 1]) !in KeysInOrder(s[..|s| - 1], key)
  {
  }

  /** Some element has key k exactly when k occurs. */
  lemma {:induction false} OccurrencesNonEmpty<T, K>(s: seq<T>, key: T -> K, k: K)
    ensures |Occurrences(s, key, k)| > 0 <==> exists i :: 0 <= i < |s| && key(s[i]) == k
    decreases |s|
  {
    if s != [] {
      var init := s[..|s| - 1];
      OccurrencesNonEmpty(init, key, k);
      if exists i :: 0 <= i < |init| && key(init[i]) == k {
        var i :| 0 <= i < |init| && key(init[i]) == k;
        assert key(s[i]) == k;
      }
      if exists i :: 0 <= i < |s| && key(s[i]) == k {
        var i :| 0 <= i < |s| && key(s[i]) == k;
        if i < |s| - 1 {
          assert key(init[i]) == k;
        }
      }
    }
  }

  /** With pairwise distinct keys, a key occurs at most once. */
  lemma {:induction false} OccurrencesDistinct<T, K>(s: seq<T>, key: T -> K, k: K)
    requires forall i, j :: 0 <= i < j < |s| ==> key(s[i]) != key(s[j])
    ensures |Occurrences(s, key, k)| <= 1
    decreases |s|
  {
    if s != [] {
      var init := s[..|s| - 1];
      OccurrencesDistinct(init, key, k);
      if key(s[|s| - 1]) == k {
        OccurrencesNonEmpty(init, key, k);
      }
    }
  }

  /** Two elements with the same key make it occur at least twice. */
  lemma {:induction false} OccurrencesTwice<T, K>(s: seq<T>, key: T -> K, i: nat, j: nat)
    requires i < j < |s| && key(s[i]) == key(s[j])
    ensures |Occurrences(s, key, key(s[i]))| >= 2
    decreases |s|
  {
    var init := s[..|s| - 1];
    if j < |s| - 1 {
      assert init[i] == s[i] && init[j] == s[j];
      OccurrencesTwice(init, key, i, j);
    } else {
      assert key(init[i]) == key(s[i]);
      OccurrencesNonEmpty(init, key, key(s[i]));
    }
  }

  /** The least index i with from <= i < to and p(i), if there is one. */
  function FirstIndex(from: nat, to: nat, p: nat -> bool): (r: Option<nat>)
    ensures r.Some? ==> from <= r.value < to && p(r.value)
    ensures r.Some? ==> (forall j :: from <= j < r.value ==> !p(j))
    ensures r.None? ==> (forall j :: from <= j < to ==> !p(j))
    decreases if from < to then to - from else 0
  {
    if from >= to then None
    else if p(from) then Some(from)
    else FirstIndex(from + 1, to, p)
  }

  /** The distinct keys of s, in the order of their first occurrence. */
  function KeysInOrder<T, K(==)>(s: seq<T>, key: T -> K): (r: seq<K>)
    ensures forall i :: 0 <= i < |s| ==> key(s[i]) in r
    ensures forall j :: 0 <= j < |r| ==> exists i :: 0 <= i < |s| && key(s[i]) == r[j]
    ensures forall i, j :: 0 <= i < j < |r| ==> r[i] != r[j]
    decreases |s|
  {
    if s == [] then []
    else
      var init := KeysInOrder(s[..|s| - 1], key);
      assert forall i :: 0 <= i < |s| - 1 ==> s[..|s| - 1][i] == s[i];
      if key(s[|s| - 1]) in init then init else init + [key(s[|s| - 1])]
  }

  /** `flattenOnce(ss)`: the sequences of ss joined one level deep, in order. */
  function Flatten<T>(ss: seq<seq<T>>): seq<T>
    decreases |ss|
  {
    if ss == [] then [] else Flatten(ss[..|ss| - 1]) + ss[|ss| - 1]
  }

  /** Flattening distributes over concatenation. */
  lemma {:induction false} FlattenConcat<T>(a: seq<seq<T>>, b: seq<seq<T>>)
    ensures Flatten(a + b) == Flatten(a) + Flatten(b)
    decreases |b|
  {
    if b == [] {
      assert a + b == a;
    } else {
      assert (a + b)[..|a + b| - 1] == a + b[..|b| - 1];
      FlattenConcat(a, b[..|b| - 1]);
    }
  }

  /** `s.map(f)` where f may throw: TypeError as soon as one element fails. */
  function TryAll<A, B>(s: seq<A>, f: A -> Result<B>): (r: Result<seq<B>>)
    ensures r.Ok? <==> forall i :: 0 <= i < |s| ==> f(s[i]).Ok?
    ensures r.Ok? ==> |r.value| == |s| && forall i :: 0 <= i < |s| ==> r.value[i] == f(s[i]).value
    decreases |s|
  {
    if s == [] then Ok([])
    else
      match TryAll(s[..|s| - 1], f)
      case TypeError => TypeError
      case Ok(init) =>
        match f(s[|s| - 1])
        case TypeError => TypeError
        case Ok(last) => Ok(init + [last])
  }

  /** The sum of w over the elements of s. */
  function SumOf<T>(s: seq<T>, w: T -> nat): nat
    decreases |s|
  {
    if s == [] then 0 else SumOf(s[..|s| - 1], w) + w(s[|s| - 1])
  }

  lemma {:induction false} SumOfConcat<T>(a: seq<T>, b: seq<T>, w: T -> nat)
    ensures SumOf(a + b, w) == SumOf(a, w) + SumOf(b, w)
    decreases |b|
  {
    if b == [] {
      assert a + b == a;
    } else {
      assert (a + b)[..|a + b| - 1] == a + b[..|b| - 1];
      SumOfConcat(a, b[..|b| - 1], w);
    }
  }

  /** Replacing one element changes the sum by the difference of the weights. */
  lemma {:induction false} SumOfUpdate<T>(s: seq<T>, i: nat, v: T, w: T -> nat)
    requires i < |s|
    ensures SumOf(s[i := v], w) == SumOf(s, w) - w(s[i]) + w(v)
  {
    assert s == s[..i] + [s[i]] + s[i + 1..];
    assert s[i := v] == s[..i] + [v] + s[i + 1..];
    SumOfConcat(s[..i] + [s[i]], s[i + 1..], w);
    SumOfConcat(s[..i] + [v], s[i + 1..], w);
    SumOfConcat(s[..i], [s[i]], w);
    SumOfConcat(s[..i], [v], w);
  }
}
