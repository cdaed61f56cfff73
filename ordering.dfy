/**
 * The three sorts of functions.js: languages by English name or name,
 * contents by a preset priority table, subcontents by their `sort` field
 * and then by book order. Each comparator is written as in the code and
 * shown to order by a key under a strict total order, so each sort is the
 * stable SortBy of that key.
 */
module Ordering {
  import opened Wrappers
  import opened Seqs
  import opened Sorting
  import opened JsStrings
  import opened Catalog

  predicate IntLess(a: int, b: int)
  {
    a < b
  }

  lemma IntLessIsStrictTotalOrder()
    ensures StrictTotalOrder(IntLess)
  {
  }

  /** Turns a three-way comparison into the comparator results -1, 0 and 1. */
  function Compare<K(==)>(a: K, b: K, less: (K, K) -> bool): (r: int)
  {
    if a == b then 0 else if less(a, b) then -1 else 1
  }

  /** A comparator written as Compare over a strict total order says exactly where the keys stand. */
  lemma CompareAgreesWithOrder<K(!new)>(a: K, b: K, less: (K, K) -> bool)
    requires StrictTotalOrder(less)
    ensures Compare(a, b, less) < 0 <==> less(a, b)
    ensures Compare(a, b, less) == 0 <==> a == b
    ensures Compare(a, b, less) > 0 <==> less(b, a)
    ensures Compare(a, b, less) == -Compare(b, a, less)
  {
  }

  // sortLanguageByNameOrEnglishName

  /** `language.englishName || language.name`. */
  function LanguageSortKey<C>(l: Language<C>): string
  {
    if Truthy(l.englishName) then l.englishName.value else l.name
  }

  /** The comparator of sortLanguageByNameOrEnglishName, as written. */
  function CompareLanguages<C>(first: Language<C>, second: Language<C>): int
  {
    var nameOfFirst := LanguageSortKey(first);
    var nameOfSecond := LanguageSortKey(second);
    if nameOfFirst == nameOfSecond then 0
    else if StrLess(nameOfFirst, nameOfSecond) then -1
    else 1
  }

  lemma CompareLanguagesOrdersByKey<C>(first: Language<C>, second: Language<C>)
    ensures CompareLanguages(first, second) < 0 <==> StrLess(LanguageSortKey(first), LanguageSortKey(second))
    ensures CompareLanguages(first, second) == 0 <==> LanguageSortKey(first) == LanguageSortKey(second)
    ensures CompareLanguages(first, second) > 0 <==> StrLess(LanguageSortKey(second), LanguageSortKey(first))
  {
    StrLessIsStrictTotalOrder();
    CompareAgreesWithOrder(LanguageSortKey(first), LanguageSortKey(second), StrLess);
  }

  function SortLanguages<C>(langs: seq<Language<C>>): seq<Language<C>>
  {
    SortBy(langs, LanguageSortKey, StrLess)
  }

  /**
   * `sortLanguageByNameOrEnglishName` sorts the array it is given in place.
   */
  method SortLanguageByNameOrEnglishName<C>(a: array<Language<C>>)
    modifies a
    ensures a[..] == SortLanguages(old(a[..]))
  {
    SortInPlace(a, LanguageSortKey, StrLess);
  }

  /**
   * The languages come out ordered by English name or name, as a
   * rearrangement of the input in which languages of equal key keep their
   * input order.
   */
  lemma SortLanguagesCorrect<C>(langs: seq<Language<C>>)
    ensures multiset(SortLanguages(langs)) == multiset(langs)
    ensures forall i, j :: 0 <= i < j < |langs| ==>
      !StrLess(LanguageSortKey(SortLanguages(langs)[j]), LanguageSortKey(SortLanguages(langs)[i]))
    ensures forall k :: Occurrences(SortLanguages(langs), LanguageSortKey, k) == Occurrences(langs, LanguageSortKey, k)
  {
    StrLessIsStrictTotalOrder();
    SortByCorrect(langs, LanguageSortKey, StrLess);
    SortByPermutes(langs, LanguageSortKey, StrLess);
  }

  // sortContents

  /** `contentOrder[code] || 100`: an unknown code, or one ranked 0, counts as 100. */
  function ContentPriority(contentOrder: map<string, int>, code: string): (r: int)
    ensures code in contentOrder && contentOrder[code] != 0 ==> r == contentOrder[code]
    ensures code !in contentOrder || contentOrder[code] == 0 ==> r == 100
  {
    if code in contentOrder && contentOrder[code] != 0 then contentOrder[code] else 100
  }

  /** The comparator of sortContents, as written. */
  function CompareContents<L, S>(contentOrder: map<string, int>, first: Content<L, S>, second: Content<L, S>): int
  {
    var orderOfFirst := ContentPriority(contentOrder, first.code);
    var orderOfSecond := ContentPriority(contentOrder, second.code);
    if orderOfFirst == orderOfSecond then 0
    else if orderOfFirst < orderOfSecond then -1
    else 1
  }

  lemma CompareContentsOrdersByPriority<L, S>(contentOrder: map<string, int>, first: Content<L, S>, second: Content<L, S>)
    ensures CompareContents(contentOrder, first, second)
      == Compare(ContentPriority(contentOrder, first.code), ContentPriority(contentOrder, second.code), IntLess)
  {
  }

  function ContentKey<L, S>(contentOrder: map<string, int>): Content<L, S> -> int
  {
    (c: Content<L, S>) => ContentPriority(contentOrder, c.code)
  }

  function SortLanguageContents<L, S>(contentOrder: map<string, int>, contents: seq<Content<L, S>>): seq<Content<L, S>>
  {
    SortBy(contents, ContentKey(contentOrder), IntLess)
  }

  /** `sortContents`: each language's contents sorted by priority; nothing else changes. */
  function SortContents<L, S>(contentOrder: map<string, int>, langs: seq<Language<Content<L, S>>>): (r: seq<Language<Content<L, S>>>)
    ensures |r| == |langs|
    ensures forall i :: 0 <= i < |r| ==>
      SameHeader(r[i], langs[i]) && r[i].contents == SortLanguageContents(contentOrder, langs[i].contents)
  {
    seq(|langs|, i requires 0 <= i < |langs| => WithContents(langs[i], SortLanguageContents(contentOrder, langs[i].contents)))
  }

  /** `l.contents.sort(...)` reorders one language's contents array in place. */
  method SortLanguageContentsInPlace<L, S>(contentOrder: map<string, int>, contents: array<Content<L, S>>)
    modifies contents
    ensures contents[..] == SortLanguageContents(contentOrder, old(contents[..]))
  {
    SortInPlace(contents, ContentKey(contentOrder), IntLess);
  }

  /** A code the table ranks before the default priority. */
  predicate Ranked(contentOrder: map<string, int>, code: string)
  {
    code in contentOrder && contentOrder[code] != 0 && contentOrder[code] < 100
  }

  /**
   * The contents come out as a rearrangement in non-decreasing priority,
   * ties in input order, and every ranked content before every content the
   * table does not know.
   */
  lemma SortLanguageContentsCorrect<L, S>(contentOrder: map<string, int>, contents: seq<Content<L, S>>)
    ensures var r := SortLanguageContents(contentOrder, contents);
      && multiset(r) == multiset(contents)
      && (forall i, j :: 0 <= i < j < |r| ==> ContentPriority(contentOrder, r[i].code) <= ContentPriority(contentOrder, r[j].code))
      && (forall k :: Occurrences(r, ContentKey(contentOrder), k) == Occurrences(contents, ContentKey(contentOrder), k))
      && (forall i, j :: 0 <= i < |r| && 0 <= j < |r| && Ranked(contentOrder, r[i].code) && r[j].code !in contentOrder ==> i < j)
  {
    var key := ContentKey<L, S>(contentOrder);
    var r := SortLanguageContents(contentOrder, contents);
    IntLessIsStrictTotalOrder();
    SortByCorrect(contents, key, IntLess);
    SortByPermutes(contents, key, IntLess);
  }

  /** The ordering the tests of sortContents expect. */
  lemma SortContentsExample()
    ensures var order := map["reg" := 1, "ulb" := 2, "udb" := 3];
      var c := (code: string) => Content("", code, "", "", 0, 0, 0);
      SortLanguageContents(order, [c("udb"), c("wat"), c("reg")]) == [c("reg"), c("udb"), c("wat")]
  {
    var order := map["reg" := 1, "ulb" := 2, "udb" := 3];
    var c := (code: string) => Content("", code, "", "", 0, 0, 0);
    var key := ContentKey<int, int>(order);
    var udb, wat, reg := c("udb"), c("wat"), c("reg");
    assert key(udb) == 3 && key(wat) == 100 && key(reg) == 1;
    var s := [udb, wat, reg];
    assert s[..2] == [udb, wat] && [udb, wat][..1] == [udb] && [udb][..0] == [];
    assert SortBy([udb], key, IntLess) == [udb];
    assert SortBy([udb, wat], key, IntLess) == [udb, wat];
    assert Insert([udb], reg, key, IntLess) == [reg, udb];
    assert SortBy(s, key, IntLess) == [reg, udb, wat];
  }

  // sortSubContents

  /** `a < b` where either side may be undefined: a comparison with undefined is false. */
  predicate JsLessOptional(a: Option<int>, b: Option<int>)
  {
    a.Some? && b.Some? && a.value < b.value
  }

  /** The comparator of sortSubContents, as written; bookOrder is getBookSortOrder. */
  function CompareSubcontents<L>(bookOrder: Option<string> -> int, first: Subcontent<L>, second: Subcontent<L>): int
  {
    if first.sort != second.sort then
      if JsLessOptional(first.sort, second.sort) then -1 else 1
    else
      var bookOrderOfFirst := bookOrder(first.code);
      var bookOrderOfSecond := bookOrder(second.code);
      if bookOrderOfFirst == bookOrderOfSecond then 0
      else if bookOrderOfFirst < bookOrderOfSecond then -1
      else 1
  }

  /** The sort key: the `sort` field (a missing one first), then the book order. */
  datatype SubcontentKey = SubcontentKey(sort: Option<int>, book: int)

  predicate SubcontentKeyLess(a: SubcontentKey, b: SubcontentKey)
  {
    || (a.sort.None? && b.sort.Some?)
    || (a.sort.Some? && b.sort.Some? && a.sort.value < b.sort.value)
    || (a.sort == b.sort && a.book < b.book)
  }

  lemma SubcontentKeyLessIsStrictTotalOrder()
    ensures StrictTotalOrder(SubcontentKeyLess)
  {
  }

  function SubKey<L>(bookOrder: Option<string> -> int): Subcontent<L> -> SubcontentKey
  {
    (s: Subcontent<L>) => SubcontentKey(s.sort, bookOrder(s.code))
  }

  /**
   * On subcontents that both have a `sort` field, or both lack one, the
   * comparator orders by SubcontentKey.
   */
  lemma CompareSubcontentsOrdersByKey<L>(bookOrder: Option<string> -> int, first: Subcontent<L>, second: Subcontent<L>)
    requires first.sort.Some? == second.sort.Some?
    ensures CompareSubcontents(bookOrder, first, second)
      == Compare(SubKey(bookOrder)(first), SubKey(bookOrder)(second), SubcontentKeyLess)
  {
  }

  /**
   * A subcontent with a `sort` field and one without each compare as
   * greater than the other: on such mixtures the comparator is no order.
   */
  lemma CompareSubcontentsMixed<L>(bookOrder: Option<string> -> int, first: Subcontent<L>, second: Subcontent<L>)
    requires first.sort.Some? && second.sort.None?
    ensures CompareSubcontents(bookOrder, first, second) == 1 && CompareSubcontents(bookOrder, second, first) == 1
  {
  }

  function SortContentSubcontents<L, M>(bookOrder: Option<string> -> int, c: Content<L, seq<Subcontent<M>>>): Content<L, seq<Subcontent<M>>>
  {
    c.(subcontents := SortBy(c.subcontents, SubKey(bookOrder), SubcontentKeyLess))
  }

  /** `c.subcontents.sort(...)` reorders one content's subcontents array in place. */
  method SortSubcontentsInPlace<M>(bookOrder: Option<string> -> int, subs: array<Subcontent<M>>)
    modifies subs
    ensures subs[..] == SortBy(old(subs[..]), SubKey(bookOrder), SubcontentKeyLess)
  {
    SortInPlace(subs, SubKey(bookOrder), SubcontentKeyLess);
  }

  /** `sortSubContents`: every content's subcontents sorted by SubcontentKey; nothing else changes. */
  function SortSubContents<L, M>(bookOrder: Option<string> -> int, langs: seq<Language<Content<L, seq<Subcontent<M>>>>>)
    : (r: seq<Language<Content<L, seq<Subcontent<M>>>>>)
    ensures |r| == |langs|
    ensures forall i :: 0 <= i < |r| ==> SameHeader(r[i], langs[i]) && |r[i].contents| == |langs[i].contents|
    ensures forall i, j :: 0 <= i < |r| && 0 <= j < |r[i].contents| ==>
      r[i].contents[j] == langs[i].contents[j].(subcontents := r[i].contents[j].subcontents)
      && r[i].contents[j].subcontents == SortBy(langs[i].contents[j].subcontents, SubKey(bookOrder), SubcontentKeyLess)
  {
    seq(|langs|, i requires 0 <= i < |langs| =>
      WithContents(langs[i], seq(|langs[i].contents|, j requires 0 <= j < |langs[i].contents| =>
        SortContentSubcontents(bookOrder, langs[i].contents[j]))))
  }

  /** The subcontents come out as a stable rearrangement in key order. */
  lemma SortSubcontentsCorrect<M>(bookOrder: Option<string> -> int, subs: seq<Subcontent<M>>)
    ensures var r := SortBy(subs, SubKey(bookOrder), SubcontentKeyLess);
      && multiset(r) == multiset(subs)
      && (forall i, j :: 0 <= i < j < |r| ==> !SubcontentKeyLess(SubKey(bookOrder)(r[j]), SubKey(bookOrder)(r[i])))
      && (forall k :: Occurrences(r, SubKey(bookOrder), k) == Occurrences(subs, SubKey(bookOrder), k))
  {
    SubcontentKeyLessIsStrictTotalOrder();
    SortByCorrect(subs, SubKey(bookOrder), SubcontentKeyLess);
    SortByPermutes(subs, SubKey(bookOrder), SubcontentKeyLess);
  }
}
