/**
 * The mapping, filtering and enrichment passes of functions.js. Each pass
 * rebuilds one level of the tree and leaves the rest as it was.
 */
module Passes {
  import opened Wrappers
  import opened Seqs
  import opened Helpers
  import opened Catalog

  /** `languages.map(l => ({...l, contents: l.contents.map(f)}))`. */
  function EachContent<A, B>(langs: seq<Language<A>>, f: A -> B): (r: seq<Language<B>>)
    ensures |r| == |langs|
    ensures forall i :: 0 <= i < |r| ==> SameHeader(r[i], langs[i]) && |r[i].contents| == |langs[i].contents|
    ensures forall i, j :: 0 <= i < |r| && 0 <= j < |r[i].contents| ==> r[i].contents[j] == f(langs[i].contents[j])
  {
    seq(|langs|, i requires 0 <= i < |langs| =>
      WithContents(langs[i], seq(|langs[i].contents|, j requires 0 <= j < |langs[i].contents| => f(langs[i].contents[j]))))
  }

  /** The contents of one language mapped by f, which may throw. */
  function TryContents<A, B>(l: Language<A>, f: A -> Result<B>): (r: Result<Language<B>>)
    ensures r.Ok? <==> forall j :: 0 <= j < |l.contents| ==> f(l.contents[j]).Ok?
    ensures r.Ok? ==> SameHeader(r.value, l) && |r.value.contents| == |l.contents|
    ensures r.Ok? ==> forall j :: 0 <= j < |l.contents| ==> r.value.contents[j] == f(l.contents[j]).value
  {
    match TryAll(l.contents, f)
    case TypeError => TypeError
    case Ok(contents) => Ok(WithContents(l, contents))
  }

  /** EachContent for a mapping that may throw: TypeError when any content fails. */
  function TryEachContent<A, B>(langs: seq<Language<A>>, f: A -> Result<B>): (r: Result<seq<Language<B>>>)
    ensures r.Ok? <==> forall i, j :: 0 <= i < |langs| && 0 <= j < |langs[i].contents| ==> f(langs[i].contents[j]).Ok?
    ensures r.Ok? ==> |r.value| == |langs|
    ensures r.Ok? ==> forall i :: 0 <= i < |langs| ==> SameHeader(r.value[i], langs[i]) && |r.value[i].contents| == |langs[i].contents|
    ensures r.Ok? ==> forall i, j :: 0 <= i < |langs| && 0 <= j < |langs[i].contents| ==>
      r.value[i].contents[j] == f(langs[i].contents[j]).value
  {
    var r := TryAll(langs, l => TryContents(l, f));
    assert r.Ok? ==> forall i :: 0 <= i < |langs| ==> TryContents(langs[i], f).Ok?;
    r
  }

  // mapLanguages

  function LanguageOf(raw: RawLanguage): Language<RawResource>
  {
    Language(raw.title, raw.identifier, raw.direction, None, raw.resources)
  }

  /** `mapLanguages`: title becomes name, identifier code, resources contents; no English name yet. */
  function MapLanguages(langs: seq<RawLanguage>): (r: seq<Language<RawResource>>)
    ensures |r| == |langs|
    ensures forall i :: 0 <= i < |r| ==>
      && r[i].name == langs[i].title && r[i].code == langs[i].identifier
      && r[i].direction == langs[i].direction && r[i].contents == langs[i].resources
      && r[i].englishName.None?
  {
    seq(|langs|, i requires 0 <= i < |langs| => LanguageOf(langs[i]))
  }

  /** The field names mapLanguages gives back as the catalog's own. */
  function RawLanguageOf(l: Language<RawResource>): RawLanguage
  {
    RawLanguage(l.name, l.code, l.direction, l.contents)
  }

  /** mapLanguages loses nothing: its renaming can be undone language by language. */
  lemma MapLanguagesRoundTrip(langs: seq<RawLanguage>)
    ensures seq(|langs|, i requires 0 <= i < |langs| => RawLanguageOf(MapLanguages(langs)[i])) == langs
  {
  }

  // mapContents

  /** `overrideContentTitle`: the title the override table gives, if it has one. */
  function OverrideContentTitle(overrides: map<string, string>, title: string): (r: string)
    ensures title in overrides ==> r == overrides[title]
    ensures title !in overrides ==> r == title
  {
    if title in overrides then overrides[title] else title
  }

  /** Overriding twice changes nothing more when no override leads to another overridden title. */
  lemma OverrideContentTitleIdempotent(overrides: map<string, string>, title: string)
    requires forall t :: t in overrides ==> overrides[t] !in overrides
    ensures OverrideContentTitle(overrides, OverrideContentTitle(overrides, title)) == OverrideContentTitle(overrides, title)
  {
  }

  type RawContent = Content<Option<seq<RawFormat>>, Option<seq<RawProject>>>

  function ContentOf(overrides: map<string, string>, normalizeSubject: string -> string, res: RawResource): RawContent
  {
    Content(OverrideContentTitle(overrides, res.title), res.identifier, normalizeSubject(res.subject),
      res.description, res.checkingLevel, res.formats, res.projects)
  }

  /**
   * `mapContents`: each resource becomes a content named by its (possibly
   * overridden) title, with a normalised subject, formats as links and
   * projects as subcontents.
   */
  function MapContents(overrides: map<string, string>, normalizeSubject: string -> string, langs: seq<Language<RawResource>>)
    : (r: seq<Language<RawContent>>)
    ensures |r| == |langs|
    ensures forall i :: 0 <= i < |r| ==> SameHeader(r[i], langs[i]) && |r[i].contents| == |langs[i].contents|
    ensures forall i, j :: 0 <= i < |r| && 0 <= j < |r[i].contents| ==>
      var c, res := r[i].contents[j], langs[i].contents[j];
      && c.name == OverrideContentTitle(overrides, res.title) && c.code == res.identifier
      && c.subject == normalizeSubject(res.subject) && c.description == res.description
      && c.checkingLevel == res.checkingLevel && c.links == res.formats && c.subcontents == res.projects
  {
    EachContent(langs, res => ContentOf(overrides, normalizeSubject, res))
  }

  // mapContentLinks and mapSubcontentLinks

  /**
   * One link normalised: the file format taken from the URL, the zip
   * content from the format string, a falsy quality as null. Throws when
   * the zip content does.
   */
  function NormalizeLink(raw: RawFormat, chapters: Option<seq<RawChapter>>): (r: Result<Link>)
    ensures r.Ok? <==> GetZipContent(raw.format).Ok?
    ensures r.Ok? ==> r.value == Link(raw.url, GetFileFormat(raw.url), Some(GetZipContent(raw.format).value), OrNull(raw.quality), chapters)
  {
    match GetZipContent(raw.format)
    case TypeError => TypeError
    case Ok(zip) => Ok(Link(raw.url, GetFileFormat(raw.url), Some(zip), OrNull(raw.quality), chapters))
  }

  /** A content link carries no chapters. */
  function ContentLink(raw: RawFormat): Result<Link>
  {
    NormalizeLink(raw, None)
  }

  /** A subcontent link carries its chapters, an empty list when it has none. */
  function SubcontentLink(raw: RawFormat): Result<Link>
  {
    NormalizeLink(raw, Some(if raw.chapters.Some? then raw.chapters.value else []))
  }

  /** `links && links.length > 0 ? links.map(f) : []`. */
  function NormalizeLinks(links: Option<seq<RawFormat>>, f: RawFormat -> Result<Link>): (r: Result<seq<Link>>)
    ensures links.None? ==> r == Ok([])
    ensures links.Some? ==> (r.Ok? <==> forall k :: 0 <= k < |links.value| ==> f(links.value[k]).Ok?)
    ensures links.Some? && r.Ok? ==> |r.value| == |links.value| && forall k :: 0 <= k < |links.value| ==> r.value[k] == f(links.value[k]).value
  {
    if links.Some? && |links.value| > 0 then TryAll(links.value, f) else Ok([])
  }

  function ContentWithLinks<S>(c: Content<Option<seq<RawFormat>>, S>): (r: Result<Content<seq<Link>, S>>)
    ensures r.Ok? <==> NormalizeLinks(c.links, ContentLink).Ok?
    ensures r.Ok? ==> r.value == ReplaceLinks(c, NormalizeLinks(c.links, ContentLink).value)
  {
    match NormalizeLinks(c.links, ContentLink)
    case TypeError => TypeError
    case Ok(links) => Ok(ReplaceLinks(c, links))
  }

  /**
   * `mapContentLinks`: every content gets a list of normalised links, empty
   * when it had none. TypeError exactly when some link's format is a zip
   * type without a content parameter.
   */
  function MapContentLinks<S>(langs: seq<Language<Content<Option<seq<RawFormat>>, S>>>): (r: Result<seq<Language<Content<seq<Link>, S>>>>)
    ensures r.Ok? <==> forall i, j :: 0 <= i < |langs| && 0 <= j < |langs[i].contents| ==>
      NormalizeLinks(langs[i].contents[j].links, ContentLink).Ok?
    ensures r.Ok? ==> |r.value| == |langs|
    ensures r.Ok? ==> forall i :: 0 <= i < |langs| ==> SameHeader(r.value[i], langs[i]) && |r.value[i].contents| == |langs[i].contents|
    ensures r.Ok? ==> forall i, j :: 0 <= i < |langs| && 0 <= j < |langs[i].contents| ==>
      var c, c' := langs[i].contents[j], r.value[i].contents[j];
      c' == ReplaceLinks(c, NormalizeLinks(c.links, ContentLink).value)
  {
    TryEachContent(langs, ContentWithLinks)
  }

  /** The link lists mapContentLinks produces: the same number of links, each normalised. */
  lemma ContentLinksShape(raw: Option<seq<RawFormat>>)
    requires NormalizeLinks(raw, ContentLink).Ok?
    ensures var links := NormalizeLinks(raw, ContentLink).value;
      && |links| == (if raw.Some? then |raw.value| else 0)
      && forall k :: 0 <= k < |links| ==>
        && links[k].url == raw.value[k].url
        && links[k].format == GetFileFormat(raw.value[k].url)
        && links[k].zipContent == Some(GetZipContent(raw.value[k].format).value)
        && links[k].quality == OrNull(raw.value[k].quality)
        && links[k].chapters.None?
  {
  }

  function SubcontentWithLinks(s: Subcontent<Option<seq<RawFormat>>>): (r: Result<Subcontent<seq<Link>>>)
    ensures r.Ok? <==> NormalizeLinks(s.links, SubcontentLink).Ok?
    ensures r.Ok? ==> r.value == ReplaceSubcontentLinks(s, NormalizeLinks(s.links, SubcontentLink).value)
  {
    match NormalizeLinks(s.links, SubcontentLink)
    case TypeError => TypeError
    case Ok(links) => Ok(ReplaceSubcontentLinks(s, links))
  }

  function ContentWithSubcontentLinks<L>(c: Content<L, seq<Subcontent<Option<seq<RawFormat>>>>>)
    : (r: Result<Content<L, seq<Subcontent<seq<Link>>>>>)
    ensures r.Ok? <==> forall k :: 0 <= k < |c.subcontents| ==> NormalizeLinks(c.subcontents[k].links, SubcontentLink).Ok?
    ensures r.Ok? ==> SameContentFields(r.value, c) && r.value.links == c.links && |r.value.subcontents| == |c.subcontents|
    ensures r.Ok? ==> forall k :: 0 <= k < |c.subcontents| ==>
      r.value.subcontents[k] == ReplaceSubcontentLinks(c.subcontents[k], NormalizeLinks(c.subcontents[k].links, SubcontentLink).value)
  {
    match TryAll(c.subcontents, SubcontentWithLinks)
    case TypeError => TypeError
    case Ok(subs) => Ok(ReplaceSubcontents(c, subs))
  }

  /**
   * `mapSubcontentLinks`: every subcontent gets a list of normalised links
   * carrying their chapters. TypeError exactly when some subcontent link
   * fails the same way as in MapContentLinks.
   */
  function MapSubcontentLinks<L>(langs: seq<Language<Content<L, seq<Subcontent<Option<seq<RawFormat>>>>>>>)
    : (r: Result<seq<Language<Content<L, seq<Subcontent<seq<Link>>>>>>>)
    ensures r.Ok? <==> forall i, j, k :: 0 <= i < |langs| && 0 <= j < |langs[i].contents| && 0 <= k < |langs[i].contents[j].subcontents| ==>
      NormalizeLinks(langs[i].contents[j].subcontents[k].links, SubcontentLink).Ok?
    ensures r.Ok? ==> |r.value| == |langs|
    ensures r.Ok? ==> forall i :: 0 <= i < |langs| ==> SameHeader(r.value[i], langs[i]) && |r.value[i].contents| == |langs[i].contents|
    ensures r.Ok? ==> forall i, j :: 0 <= i < |langs| && 0 <= j < |langs[i].contents| ==>
      var c, c' := langs[i].contents[j], r.value[i].contents[j];
      && SameContentFields(c', c) && c'.links == c.links
      && |c'.subcontents| == |c.subcontents|
      && forall k :: 0 <= k < |c.subcontents| ==>
        c'.subcontents[k] == ReplaceSubcontentLinks(c.subcontents[k], NormalizeLinks(c.subcontents[k].links, SubcontentLink).value)
  {
    TryEachContent(langs, ContentWithSubcontentLinks)
  }

  /** The link lists mapSubcontentLinks produces: normalised links that always carry a chapter list. */
  lemma SubcontentLinksShape(raw: Option<seq<RawFormat>>)
    requires NormalizeLinks(raw, SubcontentLink).Ok?
    ensures var links := NormalizeLinks(raw, SubcontentLink).value;
      && |links| == (if raw.Some? then |raw.value| else 0)
      && forall k :: 0 <= k < |links| ==>
        && links[k].url == raw.value[k].url
        && links[k].format == GetFileFormat(raw.value[k].url)
        && links[k].quality == OrNull(raw.value[k].quality)
        && links[k].chapters == Some(if raw.value[k].chapters.Some? then raw.value[k].chapters.value else [])
  {
  }

  // mapSubcontents

  function SubcontentOf(category: string -> string, p: RawProject): Subcontent<Option<seq<RawFormat>>>
  {
    Subcontent(p.title, Some(p.identifier), p.sort, category(p.identifier), p.formats)
  }

  function SubcontentsOf(category: string -> string, projects: Option<seq<RawProject>>): (r: seq<Subcontent<Option<seq<RawFormat>>>>)
    ensures projects.None? ==> r == []
    ensures projects.Some? ==> |r| == |projects.value|
    ensures projects.Some? ==> forall k :: 0 <= k < |r| ==>
      var p := projects.value[k];
      r[k].name == p.title && r[k].code == Some(p.identifier) && r[k].sort == p.sort
      && r[k].category == category(p.identifier) && r[k].links == p.formats
  {
    if projects.Some? && |projects.value| > 0 then
      seq(|projects.value|, k requires 0 <= k < |projects.value| => SubcontentOf(category, projects.value[k]))
    else []
  }

  /**
   * `mapSubcontents`: each project becomes a subcontent named by its title,
   * coded by its identifier, keeping its sort and formats and categorised by
   * `getCategory(identifier)`; no projects give an empty list.
   */
  function MapSubcontents<L>(category: string -> string, langs: seq<Language<Content<L, Option<seq<RawProject>>>>>)
    : (r: seq<Language<Content<L, seq<Subcontent<Option<seq<RawFormat>>>>>>>)
    ensures |r| == |langs|
    ensures forall i :: 0 <= i < |r| ==> SameHeader(r[i], langs[i]) && |r[i].contents| == |langs[i].contents|
    ensures forall i, j :: 0 <= i < |r| && 0 <= j < |r[i].contents| ==>
      var c, c' := langs[i].contents[j], r[i].contents[j];
      c' == ReplaceSubcontents(c, SubcontentsOf(category, c.subcontents))
  {
    EachContent(langs, (c: Content<L, Option<seq<RawProject>>>) => ReplaceSubcontents(c, SubcontentsOf(category, c.subcontents)))
  }

  // filterSubcontents

  /** The subcontents translationAcademy does not list. */
  predicate HiddenManual(contentCode: string, s: Option<string>)
  {
    contentCode == "ta" && (s == Some("intro") || s == Some("process") || s == Some("checking"))
  }

  /** A subcontent filterSubcontents keeps: it has links and is not a hidden manual. */
  predicate Keep<X>(contentCode: string, s: Subcontent<Option<seq<X>>>)
  {
    s.links.Some? && |s.links.value| > 0 && !HiddenManual(contentCode, s.code)
  }

  function FilterContent<L, X>(c: Content<L, seq<Subcontent<Option<seq<X>>>>>): (r: Content<L, seq<Subcontent<Option<seq<X>>>>>)
    ensures forall x :: x in c.subcontents ==> multiset(r.subcontents)[x] == if Keep(c.code, x) then multiset(c.subcontents)[x] else 0
  {
    FilterCount(c.subcontents, s => Keep(c.code, s));
    c.(subcontents := Filter(c.subcontents, s => Keep(c.code, s)))
  }

  /**
   * `filterSubcontents`: each content keeps, in order, exactly the
   * subcontents that have links and are not translationAcademy's
   * introduction, process or checking manuals.
   */
  function FilterSubcontents<L, X>(langs: seq<Language<Content<L, seq<Subcontent<Option<seq<X>>>>>>>)
    : (r: seq<Language<Content<L, seq<Subcontent<Option<seq<X>>>>>>>)
    ensures |r| == |langs|
    ensures forall i :: 0 <= i < |r| ==> SameHeader(r[i], langs[i]) && |r[i].contents| == |langs[i].contents|
    ensures forall i, j :: 0 <= i < |r| && 0 <= j < |r[i].contents| ==>
      var c, c' := langs[i].contents[j], r[i].contents[j];
      && c' == c.(subcontents := c'.subcontents)
      && Subsequence(c'.subcontents, c.subcontents)
      && (forall k :: 0 <= k < |c'.subcontents| ==> c'.subcontents[k] in c.subcontents && Keep(c.code, c'.subcontents[k]))
      && (forall k :: 0 <= k < |c.subcontents| && Keep(c.code, c.subcontents[k]) ==> c.subcontents[k] in c'.subcontents)
      && (forall x :: x in c.subcontents ==> multiset(c'.subcontents)[x] == if Keep(c.code, x) then multiset(c.subcontents)[x] else 0)
  {
    EachContent(langs, FilterContent)
  }

  // addEnglishNames

  /** An entry of the language-name table: a language code and maybe its English name. */
  datatype LangMeta = LangMeta(lc: string, ang: Option<string>)

  /** `(langNameData.find(lang => lang.lc === code) || {}).ang || ''`. */
  function EnglishNameOf(meta: seq<LangMeta>, code: string): (r: string)
    ensures (forall i :: 0 <= i < |meta| ==> meta[i].lc != code) ==> r == ""
    ensures forall i :: 0 <= i < |meta| && meta[i].lc == code && (forall j :: 0 <= j < i ==> meta[j].lc != code) ==>
      r == OrEmpty(meta[i].ang)
  {
    var p := (i: nat) => i < |meta| && meta[i].lc == code;
    var found := FirstIndex(0, |meta|, p);
    assert forall i: nat :: p(i) == (i < |meta| && meta[i].lc == code);
    if found.Some? then OrEmpty(meta[found.value].ang) else ""
  }

  /**
   * `addEnglishNames`: every language gets the English name of the first
   * table entry with its code, "" when there is none or it has no name;
   * nothing else changes.
   */
  function AddEnglishNames<C>(meta: seq<LangMeta>, langs: seq<Language<C>>): (r: seq<Language<C>>)
    ensures |r| == |langs|
    ensures forall i :: 0 <= i < |r| ==> r[i] == langs[i].(englishName := Some(EnglishNameOf(meta, langs[i].code)))
  {
    seq(|langs|, i requires 0 <= i < |langs| => langs[i].(englishName := Some(EnglishNameOf(meta, langs[i].code))))
  }

  lemma AddEnglishNamesExamples()
    ensures AddEnglishNames([LangMeta("a", Some("Language A"))], [Language("", "a", "", None, [0])])[0].englishName == Some("Language A")
    ensures AddEnglishNames([LangMeta("a", None)], [Language("", "b", "", None, [0])])[0].englishName == Some("")
  {
  }
}
