/**
 * combineContents, combineResources and combineBothCats: the keyed union
 * of the two processed catalogs, contents keyed by title, resources by
 * name, languages by code.
 */
module CatalogUnion {
  import opened Wrappers
  import opened Seqs
  import opened Helpers
  import opened KeyedMaps
  import opened SourceCatalogs

  // combineContents

  function ContentTitle(c: CatContent): string
  {
    c.title
  }

  /** `earlier ? earlier.concat(later) : later`, where concat of an absent list appends `undefined`. */
  function AppendLinks(earlier: Option<seq<CatLink>>, later: Option<seq<CatLink>>): (r: Option<seq<CatLink>>)
    ensures earlier.None? ==> r == later
    ensures earlier.Some? && later.Some? ==> r == Some(earlier.value + later.value)
    ensures earlier.Some? && later.None? ==> r == Some(earlier.value + [Undefined])
  {
    match earlier
    case None => later
    case Some(ls) => Some(ls + if later.Some? then later.value else [Undefined])
  }

  /** A content whose title is already stored merged into the stored one. */
  function MergeContent(existing: CatContent, content: CatContent): (r: CatContent)
    ensures r.title == existing.title
    ensures r.desc == Or(existing.desc, content.desc)
    ensures r.slug == Some(PickShorterSlug(existing.slug, content.slug))
    ensures r.links == AppendLinks(existing.links, content.links)
  {
    CatContent(existing.title, Or(existing.desc, content.desc), Some(PickShorterSlug(existing.slug, content.slug)),
      AppendLinks(existing.links, content.links))
  }

  function MergeContentOk(existing: CatContent, content: CatContent): Result<CatContent>
  {
    Ok(MergeContent(existing, content))
  }

  /** `Object.assign({ title }, map[title])`. */
  function WithTitle(title: string, c: CatContent): CatContent
  {
    c.(title := title)
  }

  /**
   * `combineContents`: concatReduceToMap over contents1 and contents2 with
   * the title reducer, then back to a list. An absent list makes the
   * concatenation hold an `undefined` entry (or makes `concat` itself be
   * called on undefined), whose title read throws.
   */
  function CombineContents(contents1: Option<seq<CatContent>>, contents2: Option<seq<CatContent>>): Result<seq<CatContent>>
  {
    if contents1.None? || contents2.None? then TypeError
    else CombineByKey(contents1.value, contents2.value, ContentTitle, MergeContentOk, WithTitle)
  }

  /** Merging contents never fails, and the merge keeps the title of the first. */
  lemma {:induction false} MergeContentsAll(o: seq<CatContent>)
    requires |o| > 0
    ensures MergeAll(o, MergeContentOk).Ok?
    ensures MergeAll(o, MergeContentOk).value.title == o[0].title
    decreases |o|
  {
    if |o| > 1 {
      MergeContentsAll(o[..|o| - 1]);
    }
  }

  /** combineContents fails exactly when one of the two lists is absent. */
  lemma CombineContentsDefined(contents1: Option<seq<CatContent>>, contents2: Option<seq<CatContent>>)
    ensures CombineContents(contents1, contents2).Ok? <==> contents1.Some? && contents2.Some?
  {
    if contents1.Some? && contents2.Some? {
      var s := contents1.value + contents2.value;
      CombineByKeyDefined(contents1.value, contents2.value, ContentTitle, MergeContentOk, WithTitle);
      forall i | 0 <= i < |s|
        ensures MergeAll(Occurrences(s, ContentTitle, ContentTitle(s[i])), MergeContentOk).Ok?
      {
        MergeContentsAll(Occurrences(s, ContentTitle, ContentTitle(s[i])));
      }
    }
  }

  /**
   * The combined contents: one entry per title of contents1 ++ contents2,
   * in order of first occurrence, each the merge of the contents with that
   * title in input order.
   */
  lemma CombineContentsEntries(contents1: seq<CatContent>, contents2: seq<CatContent>)
    ensures CombineContents(Some(contents1), Some(contents2)).Ok?
    ensures var r, s := CombineContents(Some(contents1), Some(contents2)).value, contents1 + contents2;
      && Titles(r) == KeysInOrder(s, ContentTitle)
      && forall i :: 0 <= i < |r| ==> Ok(r[i]) == MergeAll(Occurrences(s, ContentTitle, r[i].title), MergeContentOk)
  {
    var s := contents1 + contents2;
    CombineContentsDefined(Some(contents1), Some(contents2));
    CombineByKeyEntries(contents1, contents2, ContentTitle, MergeContentOk, WithTitle);
    var r := CombineContents(Some(contents1), Some(contents2)).value;
    var ks := KeysInOrder(s, ContentTitle);
    forall i | 0 <= i < |r|
      ensures r[i].title == ks[i]
      ensures Ok(r[i]) == MergeAll(Occurrences(s, ContentTitle, r[i].title), MergeContentOk)
    {
      var o := Occurrences(s, ContentTitle, ks[i]);
      MergeContentsAll(o);
      OccurrencesHaveKey(s, ContentTitle, ks[i]);
      assert ContentTitle(o[0]) == ks[i];
    }
    assert Titles(r) == ks;
  }

  /** A content whose title no other content has comes out unchanged. */
  lemma CombineContentsSingle(contents1: seq<CatContent>, contents2: seq<CatContent>, i: nat)
    requires i < |contents1 + contents2|
    requires forall j :: 0 <= j < |contents1 + contents2| && j != i ==> (contents1 + contents2)[j].title != (contents1 + contents2)[i].title
    ensures CombineContents(Some(contents1), Some(contents2)).Ok?
    ensures (contents1 + contents2)[i] in CombineContents(Some(contents1), Some(contents2)).value
  {
    CombineContentsDefined(Some(contents1), Some(contents2));
    CombineByKeySingle(contents1, contents2, ContentTitle, MergeContentOk, WithTitle, i);
  }

  function Titles(r: seq<CatContent>): (ks: seq<string>)
    ensures |ks| == |r| && forall i :: 0 <= i < |r| ==> ks[i] == r[i].title
  {
    seq(|r|, i requires 0 <= i < |r| => r[i].title)
  }

  // What a chain of merges keeps

  /** `d0 || d1 || ... || dn` evaluated from the left. */
  function OrAll(ds: seq<Option<string>>): Option<string>
    requires |ds| > 0
    decreases |ds|
  {
    if |ds| == 1 then ds[0] else Or(OrAll(ds[..|ds| - 1]), ds[|ds| - 1])
  }

  /** The chain of `||` gives the first truthy value, or the last value when none is truthy. */
  lemma {:induction false} OrAllFirstTruthy(ds: seq<Option<string>>)
    requires |ds| > 0
    ensures (forall i :: 0 <= i < |ds| ==> !Truthy(ds[i])) ==> OrAll(ds) == ds[|ds| - 1]
    ensures forall i :: 0 <= i < |ds| && Truthy(ds[i]) && (forall j :: 0 <= j < i ==> !Truthy(ds[j])) ==> OrAll(ds) == ds[i]
    decreases |ds|
  {
    if |ds| > 1 {
      var init := ds[..|ds| - 1];
      OrAllFirstTruthy(init);
      assert forall i :: 0 <= i < |init| ==> init[i] == ds[i];
      if exists i :: 0 <= i < |init| && Truthy(init[i]) {
        var i :| 0 <= i < |init| && Truthy(init[i]);
        FirstTruthyIndex(init, i);
      }
    }
  }

  lemma FirstTruthyIndex(ds: seq<Option<string>>, i: nat)
    requires i < |ds| && Truthy(ds[i])
    ensures exists f :: 0 <= f < |ds| && Truthy(ds[f]) && forall j :: 0 <= j < f ==> !Truthy(ds[j])
    decreases i
  {
    if exists j :: 0 <= j < i && Truthy(ds[j]) {
      var j :| 0 <= j < i && Truthy(ds[j]);
      FirstTruthyIndex(ds, j);
    }
  }

  /** pickShorterSlug applied along a chain of slugs, from the left. */
  function ShorterAll(ss: seq<Option<string>>): Option<string>
    requires |ss| > 0
    decreases |ss|
  {
    if |ss| == 1 then ss[0] else Some(PickShorterSlug(ShorterAll(ss[..|ss| - 1]), ss[|ss| - 1]))
  }

  /** v is truthy when some slug is, is then one of them, and is no longer than any truthy one. */
  predicate ShortestSlug(ss: seq<Option<string>>, v: Option<string>)
  {
    && (Truthy(v) <==> exists i :: 0 <= i < |ss| && Truthy(ss[i]))
    && (Truthy(v) ==> exists i :: 0 <= i < |ss| && ss[i] == v)
    && (forall i :: 0 <= i < |ss| && Truthy(ss[i]) ==> Truthy(v) && |v.value| <= |ss[i].value|)
  }

  /** A chain of pickShorterSlug keeps a shortest truthy slug, and gives "" when there is none. */
  lemma {:induction false} ShorterAllShortest(ss: seq<Option<string>>)
    requires |ss| > 0
    ensures ShortestSlug(ss, ShorterAll(ss))
    ensures |ss| > 1 ==> ShorterAll(ss).Some? && (ShorterAll(ss).value == "" <==> forall i :: 0 <= i < |ss| ==> !Truthy(ss[i]))
    decreases |ss|
  {
    if |ss| > 1 {
      var init, x := ss[..|ss| - 1], ss[|ss| - 1];
      ShorterAllShortest(init);
      assert forall i :: 0 <= i < |init| ==> init[i] == ss[i];
      var v := ShorterAll(init);
      var r := PickShorterSlug(v, x);
      if Truthy(v) {
        var i :| 0 <= i < |init| && init[i] == v;
        assert ss[i] == v;
      }
      if exists i :: 0 <= i < |ss| && Truthy(ss[i]) {
        var i :| 0 <= i < |ss| && Truthy(ss[i]);
        if i < |init| {
          assert Truthy(init[i]);
        }
      }
    }
  }

  /** One optional string field of each record, in order. */
  function Fields<T>(o: seq<T>, f: T -> Option<string>): (fs: seq<Option<string>>)
    ensures |fs| == |o| && forall i :: 0 <= i < |o| ==> fs[i] == f(o[i])
  {
    seq(|o|, i requires 0 <= i < |o| => f(o[i]))
  }

  /** A field the merge combines with `||` is, along a chain, the `||` of the chain's fields. */
  lemma {:induction false} MergedOr<T>(o: seq<T>, merge: (T, T) -> Result<T>, f: T -> Option<string>)
    requires |o| > 0 && MergeAll(o, merge).Ok?
    requires forall a, b :: merge(a, b).Ok? ==> f(merge(a, b).value) == Or(f(a), f(b))
    ensures f(MergeAll(o, merge).value) == OrAll(Fields(o, f))
    decreases |o|
  {
    if |o| > 1 {
      var init := o[..|o| - 1];
      MergedOr(init, merge, f);
      assert Fields(o, f)[..|o| - 1] == Fields(init, f);
    }
  }

  /** A field the merge combines with pickShorterSlug is, along a chain, ShorterAll of the chain's fields. */
  lemma {:induction false} MergedShorter<T>(o: seq<T>, merge: (T, T) -> Result<T>, f: T -> Option<string>)
    requires |o| > 0 && MergeAll(o, merge).Ok?
    requires forall a, b :: merge(a, b).Ok? ==> f(merge(a, b).value) == Some(PickShorterSlug(f(a), f(b)))
    ensures f(MergeAll(o, merge).value) == ShorterAll(Fields(o, f))
    decreases |o|
  {
    if |o| > 1 {
      var init := o[..|o| - 1];
      MergedShorter(init, merge, f);
      assert Fields(o, f)[..|o| - 1] == Fields(init, f);
    }
  }

  function ContentDesc(c: CatContent): Option<string>
  {
    c.desc
  }

  function ContentSlug(c: CatContent): Option<string>
  {
    c.slug
  }

  /** The links of the contents, one list after the other; an absent list counts as empty. */
  function AllLinks(o: seq<CatContent>): seq<CatLink>
    decreases |o|
  {
    if o == [] then [] else AllLinks(o[..|o| - 1]) + (if o[|o| - 1].links.Some? then o[|o| - 1].links.value else [])
  }

  /**
   * The merge of the contents with one title: the first truthy desc (the
   * last desc when none is), a shortest truthy slug, and all their links
   * in order when every one of them has a link list.
   */
  lemma {:induction false} MergedContent(o: seq<CatContent>)
    requires |o| > 0
    ensures MergeAll(o, MergeContentOk).Ok?
    ensures MergeAll(o, MergeContentOk).value.desc == OrAll(Fields(o, ContentDesc))
    ensures MergeAll(o, MergeContentOk).value.slug == ShorterAll(Fields(o, ContentSlug))
    ensures (forall i :: 0 <= i < |o| ==> o[i].links.Some?) ==> MergeAll(o, MergeContentOk).value.links == Some(AllLinks(o))
    decreases |o|
  {
    MergeContentsAll(o);
    MergedOr(o, MergeContentOk, ContentDesc);
    MergedShorter(o, MergeContentOk, ContentSlug);
    if |o| > 1 {
      MergedContent(o[..|o| - 1]);
    } else {
      assert MergeAll(o, MergeContentOk) == Ok(o[0]);
      if o[0].links.Some? {
        assert o[..0] == [];
        assert AllLinks(o) == [] + o[0].links.value == o[0].links.value;
      }
    }
  }

  // combineResources

  function ResourceName(r: CatResource): string
  {
    r.name
  }

  /**
   * A resource whose name is already stored merged into the stored one:
   * first truthy desc and subj, the shorter slug, no links, and the two
   * content lists combined, which throws when one of them is absent.
   */
  function MergeResource(existing: CatResource, res: CatResource): (r: Result<CatResource>)
    ensures r.Ok? <==> existing.content.Some? && res.content.Some?
    ensures r.Ok? ==> r.value.name == existing.name && r.value.links.None?
    ensures r.Ok? ==> r.value.desc == Or(existing.desc, res.desc) && r.value.subj == Or(existing.subj, res.subj)
    ensures r.Ok? ==> r.value.slug == Some(PickShorterSlug(existing.slug, res.slug))
    ensures r.Ok? ==> r.value.content.Some? && Ok(r.value.content.value) == CombineContents(existing.content, res.content)
  {
    CombineContentsDefined(existing.content, res.content);
    match CombineContents(existing.content, res.content)
    case TypeError => TypeError
    case Ok(contents) =>
      Ok(CatResource(existing.name, Or(existing.desc, res.desc), Or(existing.subj, res.subj),
        Some(PickShorterSlug(existing.slug, res.slug)), None, Some(contents)))
  }

  /** `Object.assign({ name }, map[name])`. */
  function WithName(name: string, r: CatResource): CatResource
  {
    r.(name := name)
  }

  /** `combineResources`: the union of two resource lists keyed by name. */
  function CombineResources(resources1: seq<CatResource>, resources2: seq<CatResource>): Result<seq<CatResource>>
  {
    CombineByKey(resources1, resources2, ResourceName, MergeResource, WithName)
  }

  function HasContent(r: CatResource): bool
  {
    r.content.Some?
  }

  function LinksAbsent(r: CatResource): bool
  {
    r.links.None?
  }

  function ResourceDesc(r: CatResource): Option<string>
  {
    r.desc
  }

  function ResourceSubject(r: CatResource): Option<string>
  {
    r.subj
  }

  function ResourceSlug(r: CatResource): Option<string>
  {
    r.slug
  }

  /**
   * A chain of resource merges succeeds exactly when it is a single
   * resource or every resource has a content list; it keeps the first
   * name, and holds a content list once two were merged.
   */
  lemma MergeResourcesAll(o: seq<CatResource>)
    requires |o| > 0
    ensures MergeAll(o, MergeResource).Ok? <==> |o| == 1 || forall i :: 0 <= i < |o| ==> o[i].content.Some?
    ensures MergeAll(o, MergeResource).Ok? ==> MergeAll(o, MergeResource).value.name == o[0].name
    ensures MergeAll(o, MergeResource).Ok? && |o| > 1 ==> MergeAll(o, MergeResource).value.content.Some?
  {
    MergeAllDefined(o, MergeResource, HasContent);
    if MergeAll(o, MergeResource).Ok? {
      MergeAllKeepsKey(o, MergeResource, ResourceName);
    }
  }

  /**
   * A successful merge of the resources with one name: the first truthy
   * desc and subj, a shortest truthy slug, and no links once two were merged.
   */
  lemma MergedResource(o: seq<CatResource>)
    requires |o| > 0 && MergeAll(o, MergeResource).Ok?
    ensures MergeAll(o, MergeResource).value.desc == OrAll(Fields(o, ResourceDesc))
    ensures MergeAll(o, MergeResource).value.subj == OrAll(Fields(o, ResourceSubject))
    ensures MergeAll(o, MergeResource).value.slug == ShorterAll(Fields(o, ResourceSlug))
    ensures |o| > 1 ==> MergeAll(o, MergeResource).value.links.None?
  {
    MergedOr(o, MergeResource, ResourceDesc);
    MergedOr(o, MergeResource, ResourceSubject);
    MergedShorter(o, MergeResource, ResourceSlug);
    if |o| > 1 {
      MergeAllEstablishes(o, MergeResource, LinksAbsent);
    }
  }

  /**
   * combineResources fails exactly when a resource without a content list
   * shares its name with another resource of the two lists.
   */
  lemma CombineResourcesDefined(resources1: seq<CatResource>, resources2: seq<CatResource>)
    ensures var s := resources1 + resources2;
      CombineResources(resources1, resources2).Ok? <==>
        forall i :: 0 <= i < |s| && s[i].content.None? ==> |Occurrences(s, ResourceName, s[i].name)| == 1
  {
    var s := resources1 + resources2;
    CombineByKeyDefined(resources1, resources2, ResourceName, MergeResource, WithName);
    if forall i :: 0 <= i < |s| && s[i].content.None? ==> |Occurrences(s, ResourceName, s[i].name)| == 1 {
      forall i | 0 <= i < |s|
        ensures MergeAll(Occurrences(s, ResourceName, ResourceName(s[i])), MergeResource).Ok?
      {
        var o := Occurrences(s, ResourceName, s[i].name);
        MergeResourcesAll(o);
        OccurrencesMembers(s, ResourceName, s[i].name);
        OccurrencesHaveKey(s, ResourceName, s[i].name);
        if |o| > 1 {
          forall m | 0 <= m < |o|
            ensures o[m].content.Some?
          {
            var j :| 0 <= j < |s| && s[j] == o[m];
            assert ResourceName(s[j]) == s[i].name;
          }
        }
      }
    } else {
      var i :| 0 <= i < |s| && s[i].content.None? && |Occurrences(s, ResourceName, s[i].name)| != 1;
      var o := Occurrences(s, ResourceName, s[i].name);
      OccurrencesMembers(s, ResourceName, s[i].name);
      var m :| 0 <= m < |o| && o[m] == s[i];
      MergeResourcesAll(o);
      assert !MergeAll(Occurrences(s, ResourceName, ResourceName(s[i])), MergeResource).Ok?;
    }
  }

  /**
   * The combined resources: one entry per name of the two lists, in order of
   * first occurrence, each the merge of the resources with that name.
   */
  lemma CombineResourcesEntries(resources1: seq<CatResource>, resources2: seq<CatResource>)
    requires CombineResources(resources1, resources2).Ok?
    ensures var r, s := CombineResources(resources1, resources2).value, resources1 + resources2;
      && Names(r) == KeysInOrder(s, ResourceName)
      && forall i :: 0 <= i < |r| ==> Ok(r[i]) == MergeAll(Occurrences(s, ResourceName, r[i].name), MergeResource)
  {
    var s := resources1 + resources2;
    CombineByKeyEntries(resources1, resources2, ResourceName, MergeResource, WithName);
    var r := CombineResources(resources1, resources2).value;
    var ks := KeysInOrder(s, ResourceName);
    forall i | 0 <= i < |r|
      ensures r[i].name == ks[i]
      ensures Ok(r[i]) == MergeAll(Occurrences(s, ResourceName, r[i].name), MergeResource)
    {
      var o := Occurrences(s, ResourceName, ks[i]);
      MergeResourcesAll(o);
      OccurrencesHaveKey(s, ResourceName, ks[i]);
      assert ResourceName(o[0]) == ks[i];
    }
    assert Names(r) == ks;
  }

  /** A resource whose name no other resource has comes out unchanged. */
  lemma CombineResourcesSingle(resources1: seq<CatResource>, resources2: seq<CatResource>, i: nat)
    requires CombineResources(resources1, resources2).Ok? && i < |resources1 + resources2|
    requires forall j :: 0 <= j < |resources1 + resources2| && j != i ==> (resources1 + resources2)[j].name != (resources1 + resources2)[i].name
    ensures (resources1 + resources2)[i] in CombineResources(resources1, resources2).value
  {
    CombineByKeySingle(resources1, resources2, ResourceName, MergeResource, WithName, i);
  }

  function Names(r: seq<CatResource>): (ks: seq<string>)
    ensures |ks| == |r| && forall i :: 0 <= i < |r| ==> ks[i] == r[i].name
  {
    seq(|r|, i requires 0 <= i < |r| => r[i].name)
  }

  // combineBothCats

  /**
   * A language whose code is already stored merged into the stored one:
   * first truthy direction and the two resource lists combined.
   */
  function MergeLanguage(existing: CatLanguage, lang: CatLanguage): (r: Result<CatLanguage>)
    ensures r.Ok? <==> CombineResources(existing.resources, lang.resources).Ok?
    ensures r.Ok? ==> r.value.code == existing.code && r.value.direction == Or(existing.direction, lang.direction)
    ensures r.Ok? ==> r.value.resources == CombineResources(existing.resources, lang.resources).value
  {
    match CombineResources(existing.resources, lang.resources)
    case TypeError => TypeError
    case Ok(resources) => Ok(CatLanguage(existing.code, Or(existing.direction, lang.direction), resources))
  }

  /** `Object.assign({ code }, combinedLanguagesMap[code])`. */
  function WithCode(code: string, l: CatLanguage): CatLanguage
  {
    l.(code := code)
  }

  /** `combineBothCats`: the union of the two catalogs keyed by language code. */
  function CombineBothCats(cat1: seq<CatLanguage>, cat2: seq<CatLanguage>): Result<seq<CatLanguage>>
  {
    CombineByKey(cat1, cat2, LanguageCode, MergeLanguage, WithCode)
  }

  function LanguageDirection(l: CatLanguage): Option<string>
  {
    l.direction
  }

  /** A successful chain of language merges keeps the first code and the first truthy direction. */
  lemma MergedLanguage(o: seq<CatLanguage>)
    requires |o| > 0 && MergeAll(o, MergeLanguage).Ok?
    ensures MergeAll(o, MergeLanguage).value.code == o[0].code
    ensures MergeAll(o, MergeLanguage).value.direction == OrAll(Fields(o, LanguageDirection))
  {
    MergeAllKeepsKey(o, MergeLanguage, LanguageCode);
    MergedOr(o, MergeLanguage, LanguageDirection);
  }

  /**
   * The combined catalog: one language per code of the two catalogs, in
   * order of first occurrence, each the merge of the languages with that code.
   */
  lemma CombineBothCatsEntries(cat1: seq<CatLanguage>, cat2: seq<CatLanguage>)
    requires CombineBothCats(cat1, cat2).Ok?
    ensures var r, s := CombineBothCats(cat1, cat2).value, cat1 + cat2;
      && Codes(r) == KeysInOrder(s, LanguageCode)
      && forall i :: 0 <= i < |r| ==> Ok(r[i]) == MergeAll(Occurrences(s, LanguageCode, r[i].code), MergeLanguage)
  {
    var s := cat1 + cat2;
    CombineByKeyEntries(cat1, cat2, LanguageCode, MergeLanguage, WithCode);
    var r := CombineBothCats(cat1, cat2).value;
    var ks := KeysInOrder(s, LanguageCode);
    forall i | 0 <= i < |r|
      ensures r[i].code == ks[i]
      ensures Ok(r[i]) == MergeAll(Occurrences(s, LanguageCode, r[i].code), MergeLanguage)
    {
      var o := Occurrences(s, LanguageCode, ks[i]);
      MergedLanguage(o);
      OccurrencesHaveKey(s, LanguageCode, ks[i]);
      assert LanguageCode(o[0]) == ks[i];
    }
    assert Codes(r) == ks;
  }

  /** Catalogs with no code in common combine into their concatenation. */
  lemma CombineBothCatsDisjoint(cat1: seq<CatLanguage>, cat2: seq<CatLanguage>)
    requires forall i, j :: 0 <= i < j < |cat1 + cat2| ==> (cat1 + cat2)[i].code != (cat1 + cat2)[j].code
    ensures CombineBothCats(cat1, cat2) == Ok(cat1 + cat2)
  {
    CombineByKeyDisjoint(cat1, cat2, LanguageCode, MergeLanguage, WithCode);
  }

  /** A language whose code the other languages do not have comes out unchanged. */
  lemma CombineBothCatsSingle(cat1: seq<CatLanguage>, cat2: seq<CatLanguage>, i: nat)
    requires CombineBothCats(cat1, cat2).Ok? && i < |cat1 + cat2|
    requires forall j :: 0 <= j < |cat1 + cat2| && j != i ==> (cat1 + cat2)[j].code != (cat1 + cat2)[i].code
    ensures (cat1 + cat2)[i] in CombineBothCats(cat1, cat2).value
  {
    CombineByKeySingle(cat1, cat2, LanguageCode, MergeLanguage, WithCode, i);
  }

  function Codes(r: seq<CatLanguage>): (ks: seq<string>)
    ensures |ks| == |r| && forall i :: 0 <= i < |r| ==> ks[i] == r[i].code
  {
    seq(|r|, i requires 0 <= i < |r| => r[i].code)
  }
}
