/**
 * The catalog tree at its successive stages: the door43 catalog as
 * fetched (Raw*), and the `language -> contents -> subcontents -> links`
 * tree the passes rebuild level by level.
 */
module Catalog {
  import opened Wrappers

  /** A chapter record inside an Open Bible Stories link. */
  datatype RawChapter = RawChapter(identifier: string, url: string, format: string)

  /** An entry of a `formats` list: one downloadable file and its MIME-like format string. */
  datatype RawFormat = RawFormat(url: string, format: string, quality: Option<string>, chapters: Option<seq<RawChapter>>)

  /** A project of a resource: a book, a story set, a manual. */
  datatype RawProject = RawProject(title: string, identifier: string, sort: Option<int>, formats: Option<seq<RawFormat>>)

  /** A resource of a language; checkingLevel is `checking.checking_level`. */
  datatype RawResource = RawResource(
    title: string, identifier: string, subject: string, description: string, checkingLevel: int,
    formats: Option<seq<RawFormat>>, projects: Option<seq<RawProject>>)

  datatype RawLanguage = RawLanguage(title: string, identifier: string, direction: string, resources: seq<RawResource>)

  /**
   * A normalised link. zipContent is absent on chapter links, chapters is
   * absent on content links and on links whose chapters were removed.
   */
  datatype Link = Link(url: string, format: string, zipContent: Option<string>, quality: Option<string>, chapters: Option<seq<RawChapter>>)

  /** A subcontent whose links are at stage L. */
  datatype Subcontent<L> = Subcontent(name: string, code: Option<string>, sort: Option<int>, category: string, links: L)

  /** A content whose links are at stage L and whose subcontents are at stage S. */
  datatype Content<L, S> = Content(
    name: string, code: string, subject: string, description: string, checkingLevel: int,
    links: L, subcontents: S)

  /** A language whose contents are at stage C; englishName is absent until it is added. */
  datatype Language<C> = Language(name: string, code: string, direction: string, englishName: Option<string>, contents: seq<C>)

  /** The language with its contents replaced and every other field kept. */
  function WithContents<A, B>(l: Language<A>, contents: seq<B>): (r: Language<B>)
    ensures r.contents == contents
    ensures SameHeader(r, l)
  {
    Language(l.name, l.code, l.direction, l.englishName, contents)
  }

  /** Two languages agree on every field but their contents. */
  predicate SameHeader<A, B>(a: Language<A>, b: Language<B>)
  {
    a.name == b.name && a.code == b.code && a.direction == b.direction && a.englishName == b.englishName
  }

  /** Two contents agree on every field but their links and subcontents. */
  predicate SameContentFields<A, B, C, D>(a: Content<A, B>, b: Content<C, D>)
  {
    && a.name == b.name && a.code == b.code && a.subject == b.subject
    && a.description == b.description && a.checkingLevel == b.checkingLevel
  }

  /** The content with new links, every other field kept. */
  function ReplaceLinks<L, M, S>(c: Content<L, S>, links: M): (r: Content<M, S>)
    ensures SameContentFields(r, c) && r.links == links && r.subcontents == c.subcontents
  {
    Content(c.name, c.code, c.subject, c.description, c.checkingLevel, links, c.subcontents)
  }

  /** The content with new subcontents, every other field kept. */
  function ReplaceSubcontents<L, S, T>(c: Content<L, S>, subcontents: T): (r: Content<L, T>)
    ensures SameContentFields(r, c) && r.links == c.links && r.subcontents == subcontents
  {
    Content(c.name, c.code, c.subject, c.description, c.checkingLevel, c.links, subcontents)
  }

  /** The subcontent with new links, every other field kept. */
  function ReplaceSubcontentLinks<L, M>(s: Subcontent<L>, links: M): (r: Subcontent<M>)
    ensures r.name == s.name && r.code == s.code && r.sort == s.sort && r.category == s.category && r.links == links
  {
    Subcontent(s.name, s.code, s.sort, s.category, links)
  }
}
