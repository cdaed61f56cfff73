/**
 * The reduce the combine functions run through concatReduceToMap: records
 * are stored under their key in an accumulator object, a record whose key
 * is already there being merged into the stored one. A merge may throw, and
 * the first failure ends the reduce.
 */
module KeyedMaps {
  import opened Wrappers
  import opened Seqs
  import opened Helpers

  /** One step of the reduce: `map[key(x)] = map[key(x)] ? merge(map[key(x)], x) : x`. */
  function Absorb<T>(acc: Result<map<string, T>>, x: T, key: T -> string, merge: (T, T) -> Result<T>): Result<map<string, T>>
  {
    match acc
    case TypeError => TypeError
    case Ok(m) =>
      if key(x) in m then
        match merge(m[key(x)], x)
        case TypeError => TypeError
        case Ok(v) => Ok(m[key(x) := v])
      else Ok(m[key(x) := x])
  }

  /** The reducer handed to concatReduceToMap. */
  function Step<T>(key: T -> string, merge: (T, T) -> Result<T>): (Result<map<string, T>>, T) -> Result<map<string, T>>
  {
    (acc: Result<map<string, T>>, x: T) => Absorb(acc, x, key, merge)
  }

  /** The reduce over s from the empty object. */
  function Collect<T>(s: seq<T>, key: T -> string, merge: (T, T) -> Result<T>): Result<map<string, T>>
  {
    FoldLeft(Step(key, merge), Ok(map[]), s)
  }

  /**
   * The records of a run merged from the left; a run with no record has
   * nothing to merge and gives TypeError.
   */
  function MergeAll<T>(s: seq<T>, merge: (T, T) -> Result<T>): Result<T>
    decreases |s|
  {
    if |s| == 0 then TypeError
    else if |s| == 1 then Ok(s[0])
    else
      match MergeAll(s[..|s| - 1], merge)
      case TypeError => TypeError
      case Ok(v) => merge(v, s[|s| - 1])
  }

  /** A merge chain that has failed stays failed when one more record comes. */
  lemma MergeAllSnoc<T>(o: seq<T>, x: T, merge: (T, T) -> Result<T>)
    ensures o == [] ==> MergeAll(o + [x], merge) == Ok(x)
    ensures o != [] && MergeAll(o, merge).TypeError? ==> MergeAll(o + [x], merge).TypeError?
    ensures o != [] && MergeAll(o, merge).Ok? ==> MergeAll(o + [x], merge) == merge(MergeAll(o, merge).value, x)
  {
    assert (o + [x])[..|o|] == o;
  }

  /** A merge that keeps the key of the stored record keeps it along a whole chain. */
  lemma {:induction false} MergeAllKeepsKey<T, K>(o: seq<T>, merge: (T, T) -> Result<T>, key: T -> K)
    requires |o| > 0 && MergeAll(o, merge).Ok?
    requires forall a, b :: merge(a, b).Ok? ==> key(merge(a, b).value) == key(a)
    ensures key(MergeAll(o, merge).value) == key(o[0])
    decreases |o|
  {
    if |o| > 1 {
      MergeAllKeepsKey(o[..|o| - 1], merge, key);
    }
  }

  /** What every successful merge establishes holds of a chain of two or more records. */
  lemma MergeAllEstablishes<T>(o: seq<T>, merge: (T, T) -> Result<T>, p: T -> bool)
    requires |o| > 1 && MergeAll(o, merge).Ok?
    requires forall a, b :: merge(a, b).Ok? ==> p(merge(a, b).value)
    ensures p(MergeAll(o, merge).value)
  {
  }

  /**
   * A merge that succeeds exactly on two records satisfying p, and then
   * gives one satisfying p, succeeds along a chain exactly when the chain
   * is a single record or all its records satisfy p.
   */
  lemma {:induction false} MergeAllDefined<T>(o: seq<T>, merge: (T, T) -> Result<T>, p: T -> bool)
    requires |o| > 0
    requires forall a, b :: merge(a, b).Ok? <==> p(a) && p(b)
    requires forall a, b :: merge(a, b).Ok? ==> p(merge(a, b).value)
    ensures MergeAll(o, merge).Ok? <==> |o| == 1 || forall i :: 0 <= i < |o| ==> p(o[i])
    ensures MergeAll(o, merge).Ok? && |o| > 1 ==> p(MergeAll(o, merge).value)
    decreases |o|
  {
    if |o| > 1 {
      var init := o[..|o| - 1];
      MergeAllDefined(init, merge, p);
      assert forall i :: 0 <= i < |init| ==> init[i] == o[i];
    }
  }

  /** r is what the reduce over s must give: failure exactly when some key's merge chain fails, else one merged entry per key. */
  ghost predicate Describes<T>(s: seq<T>, key: T -> string, merge: (T, T) -> Result<T>, r: Result<map<string, T>>)
  {
    && (r.Ok? <==> forall k :: MergeAll(Occurrences(s, key, k), merge).Ok? || Occurrences(s, key, k) == [])
    && (r.Ok? ==> forall k :: k in r.value <==> Occurrences(s, key, k) != [])
    && (r.Ok? ==> forall k :: k in r.value ==> MergeAll(Occurrences(s, key, k), merge) == Ok(r.value[k]))
  }

  lemma OccurrencesSnoc<T>(s: seq<T>, x: T, key: T -> string, k: string)
    ensures Occurrences(s + [x], key, k) == Occurrences(s, key, k) + (if key(x) == k then [x] else [])
  {
    assert (s + [x])[..|s|] == s;
  }

  /**
   * The reduce keeps, for every key met so far, the merge of that key's
   * records in input order, and fails exactly when one of those merges fails.
   */
  lemma {:induction false} CollectCorrect<T>(s: seq<T>, key: T -> string, merge: (T, T) -> Result<T>)
    ensures Describes(s, key, merge, Collect(s, key, merge))
    decreases |s|
  {
    if s == [] {
      assert forall k :: Occurrences(s, key, k) == [];
    } else {
      var init, x := s[..|s| - 1], s[|s| - 1];
      assert s == init + [x];
      CollectCorrect(init, key, merge);
      assert Collect(s, key, merge) == Absorb(Collect(init, key, merge), x, key, merge);
      CollectStep(init, x, key, merge, Collect(init, key, merge));
    }
  }

  lemma CollectStep<T>(s: seq<T>, x: T, key: T -> string, merge: (T, T) -> Result<T>, r: Result<map<string, T>>)
    requires Describes(s, key, merge, r)
    ensures Describes(s + [x], key, merge, Absorb(r, x, key, merge))
  {
    var r' := Absorb(r, x, key, merge);
    forall k
      ensures Occurrences(s + [x], key, k) == Occurrences(s, key, k) + (if key(x) == k then [x] else [])
    {
      OccurrencesSnoc(s, x, key, k);
    }
    var o := Occurrences(s, key, key(x));
    MergeAllSnoc(o, x, merge);
    if r.TypeError? {
      var k :| !(MergeAll(Occurrences(s, key, k), merge).Ok? || Occurrences(s, key, k) == []);
      if k == key(x) {
        assert !MergeAll(Occurrences(s + [x], key, k), merge).Ok?;
      } else {
        assert Occurrences(s + [x], key, k) == Occurrences(s, key, k);
      }
    } else if key(x) in r.value && merge(r.value[key(x)], x).TypeError? {
      assert !MergeAll(Occurrences(s + [x], key, key(x)), merge).Ok?;
    } else {
      assert r'.Ok?;
      forall k
        ensures MergeAll(Occurrences(s + [x], key, k), merge).Ok? || Occurrences(s + [x], key, k) == []
        ensures k in r'.value <==> Occurrences(s + [x], key, k) != []
        ensures k in r'.value ==> MergeAll(Occurrences(s + [x], key, k), merge) == Ok(r'.value[k])
      {
        if k != key(x) {
          assert Occurrences(s + [x], key, k) == Occurrences(s, key, k);
        }
      }
    }
  }

  /** Every key of a record of s has at least one occurrence. */
  lemma OccurrencesOfMembers<T>(s: seq<T>, key: T -> string)
    ensures forall i :: 0 <= i < |s| ==> Occurrences(s, key, key(s[i])) != []
  {
    forall i | 0 <= i < |s|
      ensures Occurrences(s, key, key(s[i])) != []
    {
      OccurrencesNonEmpty(s, key, key(s[i]));
    }
  }

  /** When the reduce succeeds, its keys are exactly the keys of the records of s. */
  lemma CollectKeys<T>(s: seq<T>, key: T -> string, merge: (T, T) -> Result<T>)
    requires Collect(s, key, merge).Ok?
    ensures Collect(s, key, merge).value.Keys == set i | 0 <= i < |s| :: key(s[i])
  {
    CollectCorrect(s, key, merge);
    var m := Collect(s, key, merge).value;
    forall k | k in m
      ensures k in set i | 0 <= i < |s| :: key(s[i])
    {
      OccurrencesNonEmpty(s, key, k);
    }
    OccurrencesOfMembers(s, key);
  }

  /** A key carried by one record only maps to that record unchanged. */
  lemma CollectSingle<T>(s: seq<T>, key: T -> string, merge: (T, T) -> Result<T>, i: nat)
    requires Collect(s, key, merge).Ok? && i < |s|
    requires forall j :: 0 <= j < |s| && j != i ==> key(s[j]) != key(s[i])
    ensures key(s[i]) in Collect(s, key, merge).value
    ensures Collect(s, key, merge).value[key(s[i])] == s[i]
  {
    CollectCorrect(s, key, merge);
    OccurrencesAlone(s, key, i);
  }

  lemma {:induction false} OccurrencesAlone<T>(s: seq<T>, key: T -> string, i: nat)
    requires i < |s|
    requires forall j :: 0 <= j < |s| && j != i ==> key(s[j]) != key(s[i])
    ensures Occurrences(s, key, key(s[i])) == [s[i]]
    decreases |s|
  {
    var init := s[..|s| - 1];
    if i < |s| - 1 {
      OccurrencesAlone(init, key, i);
    } else {
      OccurrencesNonEmpty(init, key, key(s[i]));
    }
  }

  /**
   * The list the combine functions return: for each key, in the order the
   * keys first occur, the stored entry with the key written back into it
   * (`Object.assign({ key }, map[key])`).
   */
  function RevertMapToList<T>(m: map<string, T>, keys: seq<string>, withKey: (string, T) -> T): (r: seq<T>)
    requires forall i :: 0 <= i < |keys| ==> keys[i] in m
    ensures |r| == |keys| && forall i :: 0 <= i < |r| ==> r[i] == withKey(keys[i], m[keys[i]])
  {
    seq(|keys|, i requires 0 <= i < |keys| => withKey(keys[i], m[keys[i]]))
  }

  /** Every key listed in order of first occurrence is a key of the reduce's map. */
  lemma KeysInOrderStored<T>(s: seq<T>, key: T -> string, merge: (T, T) -> Result<T>)
    requires Collect(s, key, merge).Ok?
    ensures var ks := KeysInOrder(s, key);
      forall i :: 0 <= i < |ks| ==> ks[i] in Collect(s, key, merge).value
  {
    CollectKeys(s, key, merge);
    var ks := KeysInOrder(s, key);
    forall i | 0 <= i < |ks|
      ensures ks[i] in Collect(s, key, merge).value
    {
      var j :| 0 <= j < |s| && key(s[j]) == ks[i];
      assert key(s[j]) in set i | 0 <= i < |s| :: key(s[i]);
    }
  }

  /** concatReduceToMap with the Absorb reducer is the reduce over a ++ b. */
  lemma ConcatReduceIsCollect<T>(a: seq<T>, b: seq<T>, key: T -> string, merge: (T, T) -> Result<T>)
    ensures ConcatReduceToMap(a, b, Step(key, merge), Ok(map[])) == Collect(a + b, key, merge)
  {
  }

  lemma KeysStored<T>(a: seq<T>, b: seq<T>, key: T -> string, merge: (T, T) -> Result<T>)
    requires ConcatReduceToMap(a, b, Step(key, merge), Ok(map[])).Ok?
    ensures forall i :: 0 <= i < |KeysInOrder(a + b, key)| ==>
      KeysInOrder(a + b, key)[i] in ConcatReduceToMap(a, b, Step(key, merge), Ok(map[])).value
  {
    ConcatReduceIsCollect(a, b, key, merge);
    KeysInOrderStored(a + b, key, merge);
  }

  /**
   * The keyed union of two lists: concatReduceToMap with the Absorb
   * reducer, then the map turned back into a list.
   */
  function CombineByKey<T>(a: seq<T>, b: seq<T>, key: T -> string, merge: (T, T) -> Result<T>, withKey: (string, T) -> T): Result<seq<T>>
  {
    var reduced := ConcatReduceToMap(a, b, Step(key, merge), Ok(map[]));
    if reduced.TypeError? then TypeError
    else
      KeysStored(a, b, key, merge);
      Ok(RevertMapToList(reduced.value, KeysInOrder(a + b, key), withKey))
  }

  /** The union fails exactly when the merge chain of some key fails. */
  lemma CombineByKeyDefined<T>(a: seq<T>, b: seq<T>, key: T -> string, merge: (T, T) -> Result<T>, withKey: (string, T) -> T)
    ensures forall i :: 0 <= i < |a + b| ==> Occurrences(a + b, key, key((a + b)[i])) != []
    ensures CombineByKey(a, b, key, merge, withKey).Ok? <==>
      forall i :: 0 <= i < |a + b| ==> MergeAll(Occurrences(a + b, key, key((a + b)[i])), merge).Ok?
  {
    var s := a + b;
    OccurrencesOfMembers(s, key);
    CollectCorrect(s, key, merge);
    ConcatReduceIsCollect(a, b, key, merge);
    if forall i :: 0 <= i < |s| ==> MergeAll(Occurrences(s, key, key(s[i])), merge).Ok? {
      forall k
        ensures MergeAll(Occurrences(s, key, k), merge).Ok? || Occurrences(s, key, k) == []
      {
        OccurrencesNonEmpty(s, key, k);
      }
    }
  }

  /**
   * A successful union lists each key of a ++ b once, in order of first
   * occurrence, with the merge of that key's entries in input order.
   */
  lemma CombineByKeyEntries<T>(a: seq<T>, b: seq<T>, key: T -> string, merge: (T, T) -> Result<T>, withKey: (string, T) -> T)
    requires CombineByKey(a, b, key, merge, withKey).Ok?
    ensures var r, ks := CombineByKey(a, b, key, merge, withKey).value, KeysInOrder(a + b, key);
      && |r| == |ks|
      && forall i :: 0 <= i < |r| ==>
        MergeAll(Occurrences(a + b, key, ks[i]), merge).Ok?
        && r[i] == withKey(ks[i], MergeAll(Occurrences(a + b, key, ks[i]), merge).value)
  {
    var s := a + b;
    CollectCorrect(s, key, merge);
    ConcatReduceIsCollect(a, b, key, merge);
    KeysInOrderStored(s, key, merge);
  }

  /** An entry whose key no other entry has comes out unchanged. */
  lemma CombineByKeySingle<T>(a: seq<T>, b: seq<T>, key: T -> string, merge: (T, T) -> Result<T>, withKey: (string, T) -> T, i: nat)
    requires forall t :: withKey(key(t), t) == t
    requires CombineByKey(a, b, key, merge, withKey).Ok? && i < |a + b|
    requires forall j :: 0 <= j < |a + b| && j != i ==> key((a + b)[j]) != key((a + b)[i])
    ensures (a + b)[i] in CombineByKey(a, b, key, merge, withKey).value
  {
    var s := a + b;
    CombineByKeyEntries(a, b, key, merge, withKey);
    OccurrencesAlone(s, key, i);
    var ks := KeysInOrder(s, key);
    var p :| 0 <= p < |ks| && ks[p] == key(s[i]);
    assert CombineByKey(a, b, key, merge, withKey).value[p] == withKey(key(s[i]), s[i]);
  }

  /** When no key repeats, the union is the concatenation itself. */
  lemma CombineByKeyDisjoint<T>(a: seq<T>, b: seq<T>, key: T -> string, merge: (T, T) -> Result<T>, withKey: (string, T) -> T)
    requires forall t :: withKey(key(t), t) == t
    requires forall i, j :: 0 <= i < j < |a + b| ==> key((a + b)[i]) != key((a + b)[j])
    ensures CombineByKey(a, b, key, merge, withKey) == Ok(a + b)
  {
    var s := a + b;
    CombineByKeyDefined(a, b, key, merge, withKey);
    forall i | 0 <= i < |s|
      ensures MergeAll(Occurrences(s, key, key(s[i])), merge) == Ok(s[i])
    {
      OccurrencesAlone(s, key, i);
    }
    assert CombineByKey(a, b, key, merge, withKey).Ok?;
    CombineByKeyEntries(a, b, key, merge, withKey);
    KeysInOrderDistinct(s, key);
    var r, ks := CombineByKey(a, b, key, merge, withKey).value, KeysInOrder(s, key);
    forall i | 0 <= i < |s|
      ensures r[i] == s[i]
    {
      assert ks[i] == key(s[i]);
      assert r[i] == withKey(key(s[i]), s[i]);
    }
    assert r == s;
  }
}
