/**
 * Stable sorting by a key under a strict total order on keys: what
 * `Array.prototype.sort` (stable since ECMAScript 2019) does when its
 * comparator orders elements by such a key and returns 0 on equal keys.
 */
module Sorting {
  import opened Seqs

  ghost predicate Irreflexive<K(!new)>(less: (K, K) -> bool)
  {
    forall x :: !less(x, x)
  }

  ghost predicate StrictTotalOrder<K(!new)>(less: (K, K) -> bool)
  {
    && Irreflexive(less)
    && (forall x, y, z :: less(x, y) && less(y, z) ==> less(x, z))
    && (forall x, y :: x != y ==> less(x, y) || less(y, x))
  }

  /** No element has a key smaller than the key of an element before it. */
  ghost predicate SortedBy<T, K>(s: seq<T>, key: T -> K, less: (K, K) -> bool)
  {
    forall i, j :: 0 <= i < j < |s| ==> !less(key(s[j]), key(s[i]))
  }

  /** Inserts x after the last element whose key is not greater than the key of x. */
  function Insert<T, K>(s: seq<T>, x: T, key: T -> K, less: (K, K) -> bool): (r: seq<T>)
    ensures |r| == |s| + 1
    decreases |s|
  {
    if s == [] then [x]
    else
      assert s == s[..|s| - 1] + [s[|s| - 1]];
      if less(key(x), key(s[|s| - 1])) then Insert(s[..|s| - 1], x, key, less) + [s[|s| - 1]]
      else s + [x]
  }

  /** Insertion sort: every element goes after the earlier elements whose keys are not greater. */
  function SortBy<T, K>(s: seq<T>, key: T -> K, less: (K, K) -> bool): (r: seq<T>)
    ensures |r| == |s|
    decreases |s|
  {
    if s == [] then []
    else
      assert s == s[..|s| - 1] + [s[|s| - 1]];
      Insert(SortBy(s[..|s| - 1], key, less), s[|s| - 1], key, less)
  }

  lemma {:induction false} InsertPermutes<T, K>(s: seq<T>, x: T, key: T -> K, less: (K, K) -> bool)
    ensures multiset(Insert(s, x, key, less)) == multiset(s) + multiset{x}
    decreases |s|
  {
    if s != [] {
      var init, last := s[..|s| - 1], s[|s| - 1];
      assert s == init + [last];
      if less(key(x), key(last)) {
        InsertPermutes(init, x, key, less);
      }
    }
  }

  /** SortBy only rearranges its input. */
  lemma {:induction false} SortByPermutes<T, K>(s: seq<T>, key: T -> K, less: (K, K) -> bool)
    ensures multiset(SortBy(s, key, less)) == multiset(s)
    decreases |s|
  {
    if s != [] {
      var init, last := s[..|s| - 1], s[|s| - 1];
      assert s == init + [last];
      SortByPermutes(init, key, less);
      InsertPermutes(SortBy(init, key, less), last, key, less);
    }
  }

  /** Sorting keeps the total of any weight. */
  lemma {:induction false} SortBySum<T, K>(s: seq<T>, key: T -> K, less: (K, K) -> bool, w: T -> nat)
    ensures SumOf(SortBy(s, key, less), w) == SumOf(s, w)
    decreases |s|
  {
    if s != [] {
      var init, last := s[..|s| - 1], s[|s| - 1];
      SortBySum(init, key, less, w);
      InsertSum(SortBy(init, key, less), last, key, less, w);
    }
  }

  lemma {:induction false} InsertSum<T, K>(s: seq<T>, x: T, key: T -> K, less: (K, K) -> bool, w: T -> nat)
    ensures SumOf(Insert(s, x, key, less), w) == SumOf(s, w) + w(x)
    decreases |s|
  {
    if s != [] {
      var init, last := s[..|s| - 1], s[|s| - 1];
      if less(key(x), key(last)) {
        InsertSum(init, x, key, less, w);
        var ins := Insert(init, x, key, less);
        assert (ins + [last])[..|ins|] == ins;
      } else {
        assert (s + [x])[..|s|] == s;
      }
    }
  }

  lemma {:induction false} InsertSorted<T, K(!new)>(s: seq<T>, x: T, key: T -> K, less: (K, K) -> bool)
    requires StrictTotalOrder(less)
    requires SortedBy(s, key, less)
    ensures SortedBy(Insert(s, x, key, less), key, less)
    decreases |s|
  {
    if s == [] {
      return;
    }
    var init, last := s[..|s| - 1], s[|s| - 1];
    if less(key(x), key(last)) {
      InsertSorted(init, x, key, less);
      var ins := Insert(init, x, key, less);
      InsertPermutes(init, x, key, less);
      forall e | e in ins
        ensures !less(key(last), key(e))
      {
        assert e in multiset(ins);
        if e != x {
          assert e in multiset(init);
          var i :| 0 <= i < |init| && init[i] == e;
          assert s[i] == e;
        }
      }
      var r := ins + [last];
      forall i, j | 0 <= i < j < |r|
        ensures !less(key(r[j]), key(r[i]))
      {
        if j == |ins| {
          assert r[i] in ins;
        }
      }
    } else {
      var r := s + [x];
      forall i, j | 0 <= i < j < |r|
        ensures !less(key(r[j]), key(r[i]))
      {
        if j == |s| && i < |s| - 1 {
          assert !less(key(last), key(s[i]));
        }
      }
    }
  }

  lemma {:induction false} InsertOccurrences<T, K(!new)>(s: seq<T>, x: T, key: T -> K, less: (K, K) -> bool, k: K)
    requires Irreflexive(less)
    ensures Occurrences(Insert(s, x, key, less), key, k) == Occurrences(s, key, k) + Occurrences([x], key, k)
    decreases |s|
  {
    if s == [] {
      return;
    }
    var init, last := s[..|s| - 1], s[|s| - 1];
    if less(key(x), key(last)) {
      InsertOccurrences(init, x, key, less, k);
      var ins := Insert(init, x, key, less);
      assert (ins + [last])[..|ins|] == ins;
      assert key(x) == k ==> key(last) != k;
      assert s == init + [last];
      OccurrencesConcat(init, [last], key, k);
      OccurrencesConcat(ins, [last], key, k);
    } else {
      OccurrencesConcat(s, [x], key, k);
    }
  }

  /** The insertion sort is sorted, and elements with equal keys keep their relative order. */
  lemma {:induction false} SortByCorrect<T, K(!new)>(s: seq<T>, key: T -> K, less: (K, K) -> bool)
    requires StrictTotalOrder(less)
    ensures SortedBy(SortBy(s, key, less), key, less)
    ensures forall k :: Occurrences(SortBy(s, key, less), key, k) == Occurrences(s, key, k)
    decreases |s|
  {
    if s == [] {
      return;
    }
    var init, last := s[..|s| - 1], s[|s| - 1];
    SortByCorrect(init, key, less);
    InsertSorted(SortBy(init, key, less), last, key, less);
    forall k
      ensures Occurrences(SortBy(s, key, less), key, k) == Occurrences(s, key, k)
    {
      InsertOccurrences(SortBy(init, key, less), last, key, less, k);
    }
  }

  /**
   * A sorted rearrangement that keeps every key's elements in their input
   * order is unique: any stable sort by the same key gives SortBy's result.
   */
  lemma {:induction false} StableSortUnique<T, K(!new)>(r: seq<T>, s: seq<T>, key: T -> K, less: (K, K) -> bool)
    requires StrictTotalOrder(less)
    requires multiset(r) == multiset(s)
    requires SortedBy(r, key, less)
    requires forall k :: Occurrences(r, key, k) == Occurrences(s, key, k)
    ensures r == SortBy(s, key, less)
  {
    SortByCorrect(s, key, less);
    SortByPermutes(s, key, less);
    SortedSameOccurrencesEqual(r, SortBy(s, key, less), key, less);
  }

  lemma {:induction false} SortedSameOccurrencesEqual<T, K(!new)>(a: seq<T>, b: seq<T>, key: T -> K, less: (K, K) -> bool)
    requires StrictTotalOrder(less)
    requires multiset(a) == multiset(b)
    requires SortedBy(a, key, less) && SortedBy(b, key, less)
    requires forall k :: Occurrences(a, key, k) == Occurrences(b, key, k)
    ensures a == b
    decreases |a|
  {
    assert |a| == |multiset(a)| == |multiset(b)| == |b|;
    if a == [] {
      return;
    }
    var n := |a|;
    var a', b' := a[..n - 1], b[..n - 1];
    assert a == a' + [a[n - 1]];
    assert b == b' + [b[n - 1]];
    SameLastKey(a, b, key, less);
    var ka := key(a[n - 1]);
    OccurrencesConcat(a', [a[n - 1]], key, ka);
    OccurrencesConcat(b', [b[n - 1]], key, ka);
    assert a[n - 1] == b[n - 1] by {
      var oa := Occurrences(a, key, ka);
      assert oa == Occurrences(b, key, ka);
      assert oa[|oa| - 1] == a[n - 1];
    }
    forall k
      ensures Occurrences(a', key, k) == Occurrences(b', key, k)
    {
      OccurrencesConcat(a', [a[n - 1]], key, k);
      OccurrencesConcat(b', [b[n - 1]], key, k);
      var oa, ob := Occurrences(a', key, k), Occurrences(b', key, k);
      var tail := Occurrences([a[n - 1]], key, k);
      assert oa + tail == ob + tail;
      assert oa == (oa + tail)[..|oa|];
      assert ob == (ob + tail)[..|ob|];
    }
    calc {
      multiset(a');
      multiset(a) - multiset{a[n - 1]};
      multiset(b) - multiset{b[n - 1]};
      multiset(b');
    }
    SortedPrefix(a, n - 1, key, less);
    SortedPrefix(b, n - 1, key, less);
    SortedSameOccurrencesEqual(a', b', key, less);
  }

  lemma SortedPrefix<T, K>(s: seq<T>, m: nat, key: T -> K, less: (K, K) -> bool)
    requires m <= |s| && SortedBy(s, key, less)
    ensures SortedBy(s[..m], key, less)
  {
    forall i, j | 0 <= i < j < m
      ensures !less(key(s[..m][j]), key(s[..m][i]))
    {
      assert s[..m][j] == s[j] && s[..m][i] == s[i];
    }
  }

  /** Two sorted sequences with the same elements end with elements of equal keys. */
  lemma SameLastKey<T, K(!new)>(a: seq<T>, b: seq<T>, key: T -> K, less: (K, K) -> bool)
    requires StrictTotalOrder(less)
    requires multiset(a) == multiset(b) && a != []
    requires SortedBy(a, key, less) && SortedBy(b, key, less)
    ensures |b| == |a| && key(a[|a| - 1]) == key(b[|b| - 1])
  {
    assert |a| == |multiset(a)| == |multiset(b)| == |b|;
    var n := |a|;
    var ka, kb := key(a[n - 1]), key(b[n - 1]);
    assert a[n - 1] in multiset(b);
    var i :| 0 <= i < n && b[i] == a[n - 1];
    assert !less(kb, ka) by {
      if i < n - 1 {
        assert !less(key(b[n - 1]), key(b[i]));
      }
    }
    assert b[n - 1] in multiset(a);
    var j :| 0 <= j < n && a[j] == b[n - 1];
    assert !less(ka, kb) by {
      if j < n - 1 {
        assert !less(key(a[n - 1]), key(a[j]));
      }
    }
  }

  /** `a.sort(compare)` with a comparator ordering by key: insertion sort in place. */
  method SortInPlace<T, K>(a: array<T>, key: T -> K, less: (K, K) -> bool)
    modifies a
    ensures a[..] == SortBy(old(a[..]), key, less)
  {
    ghost var input := a[..];
    var i := 0;
    while i < a.Length
      invariant 0 <= i <= a.Length
      invariant a[..i] == SortBy(input[..i], key, less)
      invariant a[i..] == input[i..]
    {
      assert input[..i + 1][..i] == input[..i];
      assert a[i] == input[i];
      InsertInPlace(a, i, key, less);
      i := i + 1;
    }
    assert input[..a.Length] == input;
  }

  /** Moves a[i] left past the larger keys of the sorted prefix a[..i]. */
  method InsertInPlace<T, K>(a: array<T>, i: nat, key: T -> K, less: (K, K) -> bool)
    requires i < a.Length
    modifies a
    ensures a[..i + 1] == Insert(old(a[..i]), old(a[i]), key, less)
    ensures a[i + 1..] == old(a[i + 1..])
  {
    ghost var sorted := a[..i];
    var x := a[i];
    var j := i;
    while j > 0 && less(key(x), key(a[j - 1]))
      invariant 0 <= j <= i
      invariant a[..j] == sorted[..j]
      invariant a[j + 1..i + 1] == sorted[j..]
      invariant a[i + 1..] == old(a[i + 1..])
      invariant Insert(sorted, x, key, less) == Insert(sorted[..j], x, key, less) + sorted[j..]
    {
      assert a[j - 1] == sorted[j - 1];
      InsertPastLast(sorted, j, x, key, less);
      a[j] := a[j - 1];
      j := j - 1;
    }
    a[j] := x;
    assert a[..i + 1] == a[..j] + [a[j]] + a[j + 1..i + 1];
    assert Insert(sorted[..j], x, key, less) == sorted[..j] + [x];
  }

  /** One step of InsertInPlace: x moves before sorted[j - 1]. */
  lemma {:induction false} InsertPastLast<T, K>(sorted: seq<T>, j: nat, x: T, key: T -> K, less: (K, K) -> bool)
    requires 0 < j <= |sorted| && less(key(x), key(sorted[j - 1]))
    requires Insert(sorted, x, key, less) == Insert(sorted[..j], x, key, less) + sorted[j..]
    ensures Insert(sorted, x, key, less) == Insert(sorted[..j - 1], x, key, less) + sorted[j - 1..]
  {
    var pre := sorted[..j];
    assert pre[..j - 1] == sorted[..j - 1] && pre[j - 1] == sorted[j - 1];
    var ins := Insert(sorted[..j - 1], x, key, less);
    assert Insert(pre, x, key, less) == ins + [sorted[j - 1]];
    assert sorted[j - 1..] == [sorted[j - 1]] + sorted[j..];
    assert ins + [sorted[j - 1]] + sorted[j..] == ins + sorted[j - 1..];
  }
}
