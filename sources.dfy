/**
 * The two source catalogs brought to one shape before they are merged:
 * languages with a code and an optional direction, resources with a name,
 * optional desc, subj and slug, an optional link list and an optional list
 * of contents.
 */
module SourceCatalogs {
  import opened Wrappers
  import opened Seqs
  import opened Sorting
  import opened JsStrings
  import opened Grouping
  import opened Catalog

  /**
   * A link of the merged catalog. Undefined is the `undefined` element that
   * `links.concat(undefined)` appends when a later entry has no link list.
   */
  datatype CatLink = CatLink(format: string, url: string) | Undefined

  datatype CatContent = CatContent(title: string, desc: Option<string>, slug: Option<string>, links: Option<seq<CatLink>>)

  datatype CatResource = CatResource(
    name: string, desc: Option<string>, subj: Option<string>, slug: Option<string>,
    links: Option<seq<CatLink>>, content: Option<seq<CatContent>>)

  datatype CatLanguage = CatLanguage(code: string, direction: Option<string>, resources: seq<CatResource>)

  // getLinksFromContent

  /** One own property of a table-of-contents entry of the old catalog, in key order. */
  datatype Prop = Prop(key: string, value: string)

  function PropKey(p: Prop): string
  {
    p.key
  }

  predicate IsLinkKey(k: string)
  {
    k == "pdf" || k == "src"
  }

  /**
   * `getLinksFromContent`: one link per property named "pdf" or "src", in
   * key order, its format given by getFileExtension of its url.
   */
  function GetLinksFromContent(content: seq<Prop>, fileExtension: string -> string): (r: seq<CatLink>)
    ensures |r| == |Occurrences(content, PropKey, "pdf")| + |Occurrences(content, PropKey, "src")|
    ensures forall i :: 0 <= i < |r| ==>
      exists j :: 0 <= j < |content| && IsLinkKey(content[j].key) && r[i] == CatLink(fileExtension(content[j].value), content[j].value)
    decreases |content|
  {
    if content == [] then []
    else
      var init := GetLinksFromContent(content[..|content| - 1], fileExtension);
      var p := content[|content| - 1];
      assert forall j :: 0 <= j < |content| - 1 ==> content[..|content| - 1][j] == content[j];
      if IsLinkKey(p.key) then init + [CatLink(fileExtension(p.value), p.value)] else init
  }

  predicate IsLinkProp(p: Prop)
  {
    IsLinkKey(p.key)
  }

  /** One link per given property, its value as url and getFileExtension of it as format. */
  function PropLinks(f: seq<Prop>, fileExtension: string -> string): (r: seq<CatLink>)
    ensures |r| == |f| && forall i :: 0 <= i < |f| ==> r[i] == CatLink(fileExtension(f[i].value), f[i].value)
  {
    seq(|f|, i requires 0 <= i < |f| => CatLink(fileExtension(f[i].value), f[i].value))
  }

  lemma PropLinksSnoc(f: seq<Prop>, p: Prop, fileExtension: string -> string)
    ensures PropLinks(f + (if IsLinkKey(p.key) then [p] else []), fileExtension)
      == PropLinks(f, fileExtension) + (if IsLinkKey(p.key) then [CatLink(fileExtension(p.value), p.value)] else [])
  {
  }

  /**
   * The links are exactly the "pdf" and "src" properties in key order, each
   * one link with its value as url and getFileExtension of it as format.
   */
  lemma {:induction false} GetLinksFromContentInKeyOrder(content: seq<Prop>, fileExtension: string -> string)
    ensures GetLinksFromContent(content, fileExtension) == PropLinks(Filter(content, IsLinkProp), fileExtension)
    decreases |content|
  {
    if content != [] {
      var c0, p := content[..|content| - 1], content[|content| - 1];
      assert content == c0 + [p];
      GetLinksFromContentInKeyOrder(c0, fileExtension);
      GetLinksFromContentSnoc(c0, p, fileExtension);
      FilterSnoc(c0, p, IsLinkProp);
      PropLinksSnoc(Filter(c0, IsLinkProp), p, fileExtension);
    }
  }

  lemma GetLinksFromContentSnoc(content: seq<Prop>, p: Prop, fileExtension: string -> string)
    ensures GetLinksFromContent(content + [p], fileExtension)
      == GetLinksFromContent(content, fileExtension) + (if IsLinkKey(p.key) then [CatLink(fileExtension(p.value), p.value)] else [])
  {
    assert (content + [p])[..|content|] == content;
  }

  /** Properties with distinct keys give at most two links, a pdf one and a src one. */
  lemma GetLinksFromContentAtMostTwo(content: seq<Prop>, fileExtension: string -> string)
    requires forall i, j :: 0 <= i < j < |content| ==> content[i].key != content[j].key
    ensures |GetLinksFromContent(content, fileExtension)| <= 2
  {
    OccurrencesDistinct(content, PropKey, "pdf");
    OccurrencesDistinct(content, PropKey, "src");
  }

  /** Without a "pdf" or "src" property there is no link. */
  lemma GetLinksFromContentNone(content: seq<Prop>, fileExtension: string -> string)
    requires forall j :: 0 <= j < |content| ==> !IsLinkKey(content[j].key)
    ensures GetLinksFromContent(content, fileExtension) == []
  {
    OccurrencesNonEmpty(content, PropKey, "pdf");
    OccurrencesNonEmpty(content, PropKey, "src");
  }

  // processNewCat

  /** `formats && formats.map(format => ({format: format.format, url: format.url}))`. */
  function FormatLinks(formats: Option<seq<RawFormat>>): (r: Option<seq<CatLink>>)
    ensures r.Some? <==> formats.Some?
    ensures r.Some? ==> (|r.value| == |formats.value| &&
      forall i :: 0 <= i < |r.value| ==> r.value[i] == CatLink(formats.value[i].format, formats.value[i].url))
  {
    match formats
    case None => None
    case Some(fs) => Some(seq(|fs|, i requires 0 <= i < |fs| => CatLink(fs[i].format, fs[i].url)))
  }

  function NewContent(proj: RawProject): CatContent
  {
    CatContent(proj.title, None, Some(proj.identifier), FormatLinks(proj.formats))
  }

  function NewResource(res: RawResource): (r: CatResource)
    ensures r.name == res.title && r.desc == Some(res.description) && r.subj == Some(res.subject)
    ensures r.slug == Some(res.identifier) && r.links == FormatLinks(res.formats)
    ensures r.content.Some? <==> res.projects.Some?
    ensures r.content.Some? ==> (|r.content.value| == |res.projects.value| &&
      forall i :: 0 <= i < |r.content.value| ==>
        var proj := res.projects.value[i];
        r.content.value[i] == CatContent(proj.title, None, Some(proj.identifier), FormatLinks(proj.formats)))
  {
    CatResource(res.title, Some(res.description), Some(res.subject), Some(res.identifier), FormatLinks(res.formats),
      match res.projects
      case None => None
      case Some(ps) => Some(seq(|ps|, i requires 0 <= i < |ps| => NewContent(ps[i]))))
  }

  /** A door43 language renamed field by field: identifier to code, title to name, and so on. */
  function NewLanguage(lang: RawLanguage): (r: CatLanguage)
    ensures r.code == lang.identifier && r.direction == Some(lang.direction)
    ensures |r.resources| == |lang.resources| && forall i :: 0 <= i < |r.resources| ==> r.resources[i] == NewResource(lang.resources[i])
  {
    CatLanguage(lang.identifier, Some(lang.direction), seq(|lang.resources|, i requires 0 <= i < |lang.resources| => NewResource(lang.resources[i])))
  }

  function Identifier(lang: RawLanguage): string
  {
    lang.identifier
  }

  /** The comparator of processNewCat, as written: never 0, and -1 on equal identifiers. */
  function CompareIdentifiers(lang1: RawLanguage, lang2: RawLanguage): int
  {
    if StrLess(lang2.identifier, lang1.identifier) then 1 else -1
  }

  /** On distinct identifiers the comparator orders by identifier. */
  lemma CompareIdentifiersOrdersByKey(lang1: RawLanguage, lang2: RawLanguage)
    requires lang1.identifier != lang2.identifier
    ensures CompareIdentifiers(lang1, lang2) < 0 <==> StrLess(lang1.identifier, lang2.identifier)
    ensures CompareIdentifiers(lang1, lang2) > 0 <==> StrLess(lang2.identifier, lang1.identifier)
    ensures CompareIdentifiers(lang1, lang2) == -CompareIdentifiers(lang2, lang1)
  {
    var a, b := lang1.identifier, lang2.identifier;
    StrLessTotal(a, b);
    if StrLess(a, b) && StrLess(b, a) {
      StrLessTransitive(a, b, a);
      StrLessIrreflexive(a);
    }
  }

  function NewLanguages(langs: seq<RawLanguage>): (r: seq<CatLanguage>)
    ensures |r| == |langs| && forall i :: 0 <= i < |r| ==> r[i] == NewLanguage(langs[i])
  {
    seq(|langs|, i requires 0 <= i < |langs| => NewLanguage(langs[i]))
  }

  /** `processNewCat`: the languages sorted by identifier, then renamed. */
  function ProcessedNewCat(langs: seq<RawLanguage>): seq<CatLanguage>
  {
    NewLanguages(SortBy(langs, Identifier, StrLess))
  }

  /** processNewCat sorts `d.languages` in place and returns the renamed copy. */
  method ProcessNewCat(languages: array<RawLanguage>) returns (r: seq<CatLanguage>)
    modifies languages
    ensures languages[..] == SortBy(old(languages[..]), Identifier, StrLess)
    ensures r == ProcessedNewCat(old(languages[..]))
  {
    SortInPlace(languages, Identifier, StrLess);
    r := NewLanguages(languages[..]);
  }

  /**
   * The processed languages come in non-decreasing code order, each the
   * renaming of one input language, every input language renamed once.
   */
  lemma ProcessedNewCatCorrect(langs: seq<RawLanguage>)
    ensures var r := ProcessedNewCat(langs);
      && |r| == |langs|
      && (forall i, j :: 0 <= i < j < |r| ==> !StrLess(r[j].code, r[i].code))
      && multiset(SortBy(langs, Identifier, StrLess)) == multiset(langs)
      && forall i :: 0 <= i < |r| ==> r[i] == NewLanguage(SortBy(langs, Identifier, StrLess)[i])
  {
    var sorted := SortBy(langs, Identifier, StrLess);
    StrLessIsStrictTotalOrder();
    SortByCorrect(langs, Identifier, StrLess);
    SortByPermutes(langs, Identifier, StrLess);
    assert forall i, j :: 0 <= i < j < |sorted| ==> !StrLess(Identifier(sorted[j]), Identifier(sorted[i]));
  }

  // processOldCat

  /** A version of a language of the old catalog: a resource with a table of contents. */
  datatype OldVersion = OldVersion(name: string, slug: string, toc: seq<seq<Prop>>)

  datatype OldLanguage = OldLanguage(lc: string, vers: seq<OldVersion>)

  /** The value of the first property named k, if any. */
  function PropValue(props: seq<Prop>, k: string): (r: Option<string>)
    ensures r.Some? ==> exists j :: 0 <= j < |props| && props[j] == Prop(k, r.value)
    ensures r.None? ==> forall j :: 0 <= j < |props| ==> props[j].key != k
  {
    match FindKey(props, PropKey, k)
    case None => None
    case Some(j) => Some(props[j].value)
  }

  /** A table-of-contents entry as a content: title and slug falling back to the version's. */
  function OldContent(ver: OldVersion, content: seq<Prop>, fileExtension: string -> string): (r: CatContent)
    ensures Truthy(PropValue(content, "title")) ==> r.title == PropValue(content, "title").value
    ensures !Truthy(PropValue(content, "title")) ==> r.title == ver.name
    ensures r.desc == PropValue(content, "desc")
    ensures r.slug == (if Truthy(PropValue(content, "slug")) then PropValue(content, "slug") else Some(ver.slug))
    ensures r.links == Some(GetLinksFromContent(content, fileExtension))
  {
    var title := PropValue(content, "title");
    CatContent(
      if Truthy(title) then title.value else ver.name,
      PropValue(content, "desc"),
      Or(PropValue(content, "slug"), Some(ver.slug)),
      Some(GetLinksFromContent(content, fileExtension)))
  }

  function OldResource(ver: OldVersion, fileExtension: string -> string): (r: CatResource)
    ensures r.name == ver.name && r.slug == Some(ver.slug)
    ensures r.desc.None? && r.subj.None? && r.links.None?
    ensures r.content.Some? && |r.content.value| == |ver.toc|
    ensures forall i :: 0 <= i < |ver.toc| ==> r.content.value[i] == OldContent(ver, ver.toc[i], fileExtension)
  {
    CatResource(ver.name, None, None, Some(ver.slug), None,
      Some(seq(|ver.toc|, i requires 0 <= i < |ver.toc| => OldContent(ver, ver.toc[i], fileExtension))))
  }

  function OldLanguageOf(lang: OldLanguage, fileExtension: string -> string): (r: CatLanguage)
    ensures r.code == lang.lc && r.direction.None?
    ensures |r.resources| == |lang.vers|
    ensures forall i :: 0 <= i < |lang.vers| ==> r.resources[i] == OldResource(lang.vers[i], fileExtension)
  {
    CatLanguage(lang.lc, None, seq(|lang.vers|, i requires 0 <= i < |lang.vers| => OldResource(lang.vers[i], fileExtension)))
  }

  /** The languages of both old catalogs, in order, before the dedup reduce. */
  function OldLanguages(langs: seq<OldLanguage>, fileExtension: string -> string): (r: seq<CatLanguage>)
    ensures |r| == |langs| && forall i :: 0 <= i < |r| ==> r[i] == OldLanguageOf(langs[i], fileExtension)
  {
    seq(|langs|, i requires 0 <= i < |langs| => OldLanguageOf(langs[i], fileExtension))
  }

  function LanguageCode(l: CatLanguage): string
  {
    l.code
  }

  /** `list[i].resources = list[i].resources.concat(lang.resources)`. */
  function AppendResources(existing: CatLanguage, lang: CatLanguage): CatLanguage
  {
    existing.(resources := existing.resources + lang.resources)
  }

  /** `processOldCat`: the languages of both catalogs, one per code. */
  function ProcessedOldCat(cat0: seq<OldLanguage>, cat1: seq<OldLanguage>, fileExtension: string -> string): seq<CatLanguage>
  {
    GroupByKey(OldLanguages(cat0 + cat1, fileExtension), LanguageCode, AppendResources)
  }

  /** The reduce of processOldCat, pushing new codes and appending the resources of repeated ones. */
  method ProcessOldCat(cat0: seq<OldLanguage>, cat1: seq<OldLanguage>, fileExtension: string -> string) returns (list: seq<CatLanguage>)
    ensures list == ProcessedOldCat(cat0, cat1, fileExtension)
  {
    var langs := OldLanguages(cat0 + cat1, fileExtension);
    list := [];
    for n := 0 to |langs|
      invariant list == GroupByKey(langs[..n], LanguageCode, AppendResources)
    {
      var lang := langs[n];
      ghost var next := AddByKey(list, lang, LanguageCode, AppendResources);
      var i := FindKey(list, LanguageCode, lang.code);
      if i.None? {
        list := list + [lang];
      } else {
        list := list[i.value := list[i.value].(resources := list[i.value].resources + lang.resources)];
      }
      assert list == next;
      OldCatStep(langs, n);
    }
    assert langs[..|langs|] == langs;
  }

  lemma OldCatStep(langs: seq<CatLanguage>, n: nat)
    requires n < |langs|
    ensures GroupByKey(langs[..n + 1], LanguageCode, AppendResources)
      == AddByKey(GroupByKey(langs[..n], LanguageCode, AppendResources), langs[n], LanguageCode, AppendResources)
  {
    assert langs[..n + 1] == langs[..n] + [langs[n]];
    GroupByKeySnoc(langs[..n], langs[n], LanguageCode, AppendResources);
  }

  function ResourcesOf(l: CatLanguage): seq<CatResource>
  {
    l.resources
  }

  function AllResources(ls: seq<CatLanguage>): seq<CatResource>
  {
    Flatten(seq(|ls|, i requires 0 <= i < |ls| => ls[i].resources))
  }

  /** Joining languages keeps the first one's code and direction and chains all their resources. */
  lemma {:induction false} JoinAllResources(ls: seq<CatLanguage>)
    requires |ls| > 0
    ensures var j := JoinAll(ls, AppendResources);
      j.code == ls[0].code && j.direction == ls[0].direction && j.resources == AllResources(ls)
    decreases |ls|
  {
    if |ls| == 1 {
      assert AllResources(ls) == Flatten([ls[0].resources][..0]) + ls[0].resources;
    } else {
      var init := ls[..|ls| - 1];
      JoinAllResources(init);
      var rs := seq(|ls|, i requires 0 <= i < |ls| => ls[i].resources);
      assert rs[..|ls| - 1] == seq(|init|, i requires 0 <= i < |init| => init[i].resources);
    }
  }

  /** The processed old catalog has pairwise distinct codes. */
  lemma ProcessedOldCatDistinct(cat0: seq<OldLanguage>, cat1: seq<OldLanguage>, fileExtension: string -> string)
    ensures var r := ProcessedOldCat(cat0, cat1, fileExtension);
      forall i, j :: 0 <= i < j < |r| ==> r[i].code != r[j].code
  {
    var r := ProcessedOldCat(cat0, cat1, fileExtension);
    forall i, j | 0 <= i < j < |r|
      ensures r[i].code != r[j].code
    {
      MergedCodesDiffer(OldLanguages(cat0 + cat1, fileExtension), i, j);
    }
  }

  lemma MergedCodesDiffer(langs: seq<CatLanguage>, i: nat, j: nat)
    requires i < j < |GroupByKey(langs, LanguageCode, AppendResources)|
    ensures GroupByKey(langs, LanguageCode, AppendResources)[i].code != GroupByKey(langs, LanguageCode, AppendResources)[j].code
  {
    GroupByKeyDistinct(langs, LanguageCode, AppendResources);
  }

  /** The codes come in the order of their first occurrence in the two catalogs. */
  lemma ProcessedOldCatOrder(cat0: seq<OldLanguage>, cat1: seq<OldLanguage>, fileExtension: string -> string)
    ensures KeysOf(ProcessedOldCat(cat0, cat1, fileExtension), LanguageCode)
      == KeysInOrder(OldLanguages(cat0 + cat1, fileExtension), LanguageCode)
  {
    GroupByKeyKeys(OldLanguages(cat0 + cat1, fileExtension), LanguageCode, AppendResources);
  }

  /**
   * The language with a code keeps the direction of its first occurrence
   * and holds the resources of all its occurrences, in encounter order.
   */
  lemma ProcessedOldCatRecord(cat0: seq<OldLanguage>, cat1: seq<OldLanguage>, fileExtension: string -> string, i: nat)
    requires i < |ProcessedOldCat(cat0, cat1, fileExtension)|
    ensures var l := ProcessedOldCat(cat0, cat1, fileExtension)[i];
      var o := Occurrences(OldLanguages(cat0 + cat1, fileExtension), LanguageCode, l.code);
      |o| > 0 && l.direction == o[0].direction && l.resources == AllResources(o)
  {
    var langs := OldLanguages(cat0 + cat1, fileExtension);
    MergedLanguageRecord(langs, i);
    var l := GroupByKey(langs, LanguageCode, AppendResources)[i];
    JoinAllResources(Occurrences(langs, LanguageCode, l.code));
  }

  lemma MergedLanguageRecord(langs: seq<CatLanguage>, i: nat)
    requires i < |GroupByKey(langs, LanguageCode, AppendResources)|
    ensures var g := GroupByKey(langs, LanguageCode, AppendResources);
      |Occurrences(langs, LanguageCode, g[i].code)| > 0 && g[i] == JoinAll(Occurrences(langs, LanguageCode, g[i].code), AppendResources)
  {
    GroupByKeyRecords(langs, LanguageCode, AppendResources);
  }
}
