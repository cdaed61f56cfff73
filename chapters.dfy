/**
 * unnestSubcontents and turnChaptersToSubcontents: the first subcontent of
 * a few content types is promoted into the content, and Open Bible Stories
 * projects have their per-link chapter records regrouped into one
 * subcontent per chapter.
 */
module Chapters {
  import opened Wrappers
  import opened Seqs
  import opened Sorting
  import opened JsStrings
  import opened Grouping
  import opened Catalog
  import opened Passes

  type LinkedSubcontent = Subcontent<seq<Link>>

  /** A chapter record carrying the quality of the link it came from. */
  datatype QChapter = QChapter(chapter: RawChapter, quality: Option<string>)

  function ChapterId(c: QChapter): string
  {
    c.chapter.identifier
  }

  /** `l.chapters || []`, each chapter given `l.quality || null`. */
  function LinkChapters(l: Link): (r: seq<QChapter>)
    ensures l.chapters.None? ==> r == []
    ensures l.chapters.Some? ==> |r| == |l.chapters.value|
    ensures l.chapters.Some? ==> forall j :: 0 <= j < |r| ==> r[j] == QChapter(l.chapters.value[j], OrNull(l.quality))
  {
    var cs := if l.chapters.Some? then l.chapters.value else [];
    seq(|cs|, j requires 0 <= j < |cs| => QChapter(cs[j], OrNull(l.quality)))
  }

  /** All the chapters of one project, link after link. */
  function ProjectChapterList(p: LinkedSubcontent): seq<QChapter>
  {
    Flatten(seq(|p.links|, k requires 0 <= k < |p.links| => LinkChapters(p.links[k])))
  }

  /** The one link of a chapter: its url, the subtype of its format, the quality of its link. */
  function ChapterLink(c: QChapter): Link
  {
    Link(c.chapter.url, LastSegment(c.chapter.format, '/'), None, c.quality, None)
  }

  /** The subcontent a chapter first becomes: named by its identifier, in category "obs". */
  function ChapterSubcontent(c: QChapter): LinkedSubcontent
  {
    Subcontent(c.chapter.identifier, None, None, "obs", [ChapterLink(c)])
  }

  function ChapterName(s: LinkedSubcontent): string
  {
    s.name
  }

  /** `{...existing, links: existing.links.concat(current.links)}`. */
  function JoinLinks(existing: LinkedSubcontent, current: LinkedSubcontent): LinkedSubcontent
  {
    existing.(links := existing.links + current.links)
  }

  /** Each chapter record as a subcontent of its own. */
  function ChapterItems(cs: seq<QChapter>): (r: seq<LinkedSubcontent>)
    ensures |r| == |cs| && forall k :: 0 <= k < |cs| ==> r[k] == ChapterSubcontent(cs[k])
    decreases |cs|
  {
    seq(|cs|, k requires 0 <= k < |cs| => ChapterSubcontent(cs[k]))
  }

  /** The links of chapter records, one per record. */
  function ChapterLinks(cs: seq<QChapter>): (r: seq<Link>)
    ensures |r| == |cs| && forall k :: 0 <= k < |cs| ==> r[k] == ChapterLink(cs[k])
    decreases |cs|
  {
    if cs == [] then []
    else
      var init := cs[..|cs| - 1];
      assert forall k :: 0 <= k < |init| ==> init[k] == cs[k];
      ChapterLinks(init) + [ChapterLink(cs[|cs| - 1])]
  }

  /** The result of the dedup reduce of turnChaptersToSubcontents. */
  function MergeChapters(cs: seq<QChapter>): seq<LinkedSubcontent>
  {
    GroupByKey(ChapterItems(cs), ChapterName, JoinLinks)
  }

  /**
   * The dedup reduce: a chapter whose name is new is pushed, one whose
   * name is there has its link appended to the earlier chapter's.
   */
  method DedupChapters(chapterArrays: seq<QChapter>) returns (merged: seq<LinkedSubcontent>)
    ensures merged == MergeChapters(chapterArrays)
  {
    ghost var items := ChapterItems(chapterArrays);
    merged := [];
    for n := 0 to |chapterArrays|
      invariant merged == GroupByKey(items[..n], ChapterName, JoinLinks)
    {
      var currentChapter := ChapterSubcontent(chapterArrays[n]);
      ghost var next := AddByKey(merged, currentChapter, ChapterName, JoinLinks);
      var existingChapterIndex := FindKey(merged, ChapterName, currentChapter.name);
      if existingChapterIndex.None? {
        merged := merged + [currentChapter];
      } else {
        var existingChapter := merged[existingChapterIndex.value];
        merged := merged[existingChapterIndex.value := JoinLinks(existingChapter, currentChapter)];
      }
      assert merged == next;
      DedupStep(items, n);
    }
    assert items[..|chapterArrays|] == items;
  }

  lemma DedupStep(items: seq<LinkedSubcontent>, n: nat)
    requires n < |items|
    ensures GroupByKey(items[..n + 1], ChapterName, JoinLinks)
      == AddByKey(GroupByKey(items[..n], ChapterName, JoinLinks), items[n], ChapterName, JoinLinks)
  {
    assert items[..n + 1] == items[..n] + [items[n]];
    GroupByKeySnoc(items[..n], items[n], ChapterName, JoinLinks);
  }

  /** One project's chapters: merged by name, then sorted by name. */
  function ProjectChapters(p: LinkedSubcontent): seq<LinkedSubcontent>
  {
    SortBy(MergeChapters(ProjectChapterList(p)), ChapterName, StrLess)
  }

  /** The per-project step of turnChaptersToSubcontents, sorting the merged chapters in place. */
  method SortedProjectChapters(p: LinkedSubcontent) returns (sortedChapters: seq<LinkedSubcontent>)
    ensures sortedChapters == ProjectChapters(p)
  {
    var dedupedChapters := DedupChapters(ProjectChapterList(p));
    var a := new LinkedSubcontent[|dedupedChapters|](i requires 0 <= i < |dedupedChapters| => dedupedChapters[i]);
    assert a[..] == dedupedChapters;
    SortInPlace(a, ChapterName, StrLess);
    sortedChapters := a[..];
  }

  function ProjectGroups(ps: seq<LinkedSubcontent>): seq<seq<LinkedSubcontent>>
  {
    seq(|ps|, i requires 0 <= i < |ps| => ProjectChapters(ps[i]))
  }

  /** `turnChaptersToSubcontents`: every project's chapter group, concatenated in project order. */
  function TurnChaptersToSubcontents(ps: seq<LinkedSubcontent>): seq<LinkedSubcontent>
  {
    Flatten(ProjectGroups(ps))
  }

  /** The groups follow one another in project order. */
  lemma TurnChaptersToSubcontentsSnoc(ps: seq<LinkedSubcontent>, p: LinkedSubcontent)
    ensures TurnChaptersToSubcontents(ps + [p]) == TurnChaptersToSubcontents(ps) + ProjectChapters(p)
  {
    var gs, last := ProjectGroups(ps), ProjectChapters(p);
    assert ProjectGroups(ps + [p]) == gs + [last];
    FlattenConcat(gs, [last]);
    assert Flatten([last]) == Flatten([last][..0]) + last;
  }

  /** The merged chapters have pairwise distinct names. */
  lemma MergeChaptersDistinct(cs: seq<QChapter>)
    ensures var g := MergeChapters(cs);
      forall i, j :: 0 <= i < j < |g| ==> g[i].name != g[j].name
  {
    var g := MergeChapters(cs);
    forall i, j | 0 <= i < j < |g|
      ensures g[i].name != g[j].name
    {
      MergedNamesDiffer(ChapterItems(cs), i, j);
    }
  }

  lemma MergedNamesDiffer(items: seq<LinkedSubcontent>, i: nat, j: nat)
    requires i < j < |GroupByKey(items, ChapterName, JoinLinks)|
    ensures GroupByKey(items, ChapterName, JoinLinks)[i].name != GroupByKey(items, ChapterName, JoinLinks)[j].name
  {
    GroupByKeyDistinct(items, ChapterName, JoinLinks);
  }

  /** Within one project's group, names are unique and strictly ascending. */
  lemma ProjectChaptersAscending(p: LinkedSubcontent)
    ensures var r := ProjectChapters(p);
      forall i, j :: 0 <= i < j < |r| ==> StrLess(r[i].name, r[j].name)
  {
    var g := MergeChapters(ProjectChapterList(p));
    var r := ProjectChapters(p);
    MergeChaptersDistinct(ProjectChapterList(p));
    StrLessIsStrictTotalOrder();
    SortByCorrect(g, ChapterName, StrLess);
    forall i, j | 0 <= i < j < |r|
      ensures StrLess(r[i].name, r[j].name)
    {
      if r[i].name == r[j].name {
        assert Occurrences(r, ChapterName, r[i].name) == Occurrences(g, ChapterName, r[i].name);
        OccurrencesTwice(r, ChapterName, i, j);
        OccurrencesDistinct(g, ChapterName, r[i].name);
        assert false;
      }
      assert !StrLess(ChapterName(r[j]), ChapterName(r[i]));
    }
  }

  function LinkCount(s: LinkedSubcontent): nat
  {
    |s.links|
  }

  /** Every chapter of a project ends up as exactly one link of its group. */
  lemma ProjectChaptersLinkCount(p: LinkedSubcontent)
    ensures SumOf(ProjectChapters(p), LinkCount) == |ProjectChapterList(p)|
  {
    var cs := ProjectChapterList(p);
    var g := MergeChapters(cs);
    SortBySum(g, ChapterName, StrLess, LinkCount);
    GroupByKeySum(ChapterItems(cs), ChapterName, JoinLinks, LinkCount);
    ChapterItemsCount(cs);
  }

  lemma {:induction false} ChapterItemsCount(cs: seq<QChapter>)
    ensures SumOf(ChapterItems(cs), LinkCount) == |cs|
    decreases |cs|
  {
    if cs != [] {
      assert ChapterItems(cs)[..|cs| - 1] == ChapterItems(cs[..|cs| - 1]);
      ChapterItemsCount(cs[..|cs| - 1]);
    }
  }

  /** The chapter subcontents of the records with one identifier, in order. */
  lemma {:induction false} ChapterItemsOccurrences(cs: seq<QChapter>, n: string)
    ensures Occurrences(ChapterItems(cs), ChapterName, n) == ChapterItems(Occurrences(cs, ChapterId, n))
    decreases |cs|
  {
    if cs != [] {
      var init, x := cs[..|cs| - 1], cs[|cs| - 1];
      var items := ChapterItems(cs);
      ChapterItemsSnoc(init, x);
      assert cs == init + [x];
      assert items[..|items| - 1] == ChapterItems(init);
      ChapterItemsOccurrences(init, n);
      var o := Occurrences(init, ChapterId, n);
      if ChapterId(x) == n {
        ChapterItemsSnoc(o, x);
      }
    }
  }

  lemma ChapterItemsSnoc(cs: seq<QChapter>, x: QChapter)
    ensures ChapterItems(cs + [x]) == ChapterItems(cs) + [ChapterSubcontent(x)]
  {
  }

  /** The chapter records of one identifier joined: one subcontent holding all their links. */
  lemma {:induction false} JoinChapterItems(o: seq<QChapter>, n: string)
    requires |o| > 0 && forall k :: 0 <= k < |o| ==> ChapterId(o[k]) == n
    ensures JoinAll(ChapterItems(o), JoinLinks) == Subcontent(n, None, None, "obs", ChapterLinks(o))
    decreases |o|
  {
    if |o| > 1 {
      var init := o[..|o| - 1];
      assert ChapterItems(o)[..|o| - 1] == ChapterItems(init);
      JoinChapterItems(init, n);
    } else {
      assert ChapterLinks(o) == [ChapterLink(o[0])];
    }
  }

  /** A merged chapter holds the links of all the records with its name, in order. */
  lemma MergedRecord(cs: seq<QChapter>, j: nat)
    requires j < |MergeChapters(cs)|
    ensures var g := MergeChapters(cs);
      g[j] == Subcontent(g[j].name, None, None, "obs", ChapterLinks(Occurrences(cs, ChapterId, g[j].name)))
  {
    var items := ChapterItems(cs);
    var n := MergeChapters(cs)[j].name;
    MergedItemRecord(items, j);
    ChapterItemsOccurrences(cs, n);
    var o := Occurrences(cs, ChapterId, n);
    OccurrencesHaveKey(cs, ChapterId, n);
    JoinChapterItems(o, n);
  }

  lemma MergedItemRecord(items: seq<LinkedSubcontent>, j: nat)
    requires j < |GroupByKey(items, ChapterName, JoinLinks)|
    ensures var g := GroupByKey(items, ChapterName, JoinLinks);
      |Occurrences(items, ChapterName, g[j].name)| > 0 && g[j] == JoinAll(Occurrences(items, ChapterName, g[j].name), JoinLinks)
  {
    GroupByKeyRecords(items, ChapterName, JoinLinks);
  }

  /** The chapter records of a project with identifier n, in order. */
  function ChaptersNamed(p: LinkedSubcontent, n: string): seq<QChapter>
  {
    Occurrences(ProjectChapterList(p), ChapterId, n)
  }

  /**
   * Each subcontent of a project's group is a chapter of category "obs"
   * whose links are, in order, the links of that project's chapter records
   * with its name.
   */
  lemma ProjectChaptersRecords(p: LinkedSubcontent)
    ensures var r := ProjectChapters(p);
      forall i :: 0 <= i < |r| ==>
        r[i] == Subcontent(r[i].name, None, None, "obs", ChapterLinks(ChaptersNamed(p, r[i].name)))
  {
    var r := ProjectChapters(p);
    forall i | 0 <= i < |r|
      ensures r[i] == Subcontent(r[i].name, None, None, "obs", ChapterLinks(ChaptersNamed(p, r[i].name)))
    {
      SortedRecord(MergeChapters(ProjectChapterList(p)), i);
      var j :| 0 <= j < |MergeChapters(ProjectChapterList(p))| && MergeChapters(ProjectChapterList(p))[j] == r[i];
      MergedRecord(ProjectChapterList(p), j);
    }
  }

  lemma SortedRecord(g: seq<LinkedSubcontent>, i: nat)
    requires i < |SortBy(g, ChapterName, StrLess)|
    ensures exists j :: 0 <= j < |g| && g[j] == SortBy(g, ChapterName, StrLess)[i]
  {
    SortByPermutes(g, ChapterName, StrLess);
    assert SortBy(g, ChapterName, StrLess)[i] in multiset(g);
  }

  /** The project has a chapter record with identifier n. */
  predicate HasChapter(p: LinkedSubcontent, n: string)
  {
    exists k :: 0 <= k < |ProjectChapterList(p)| && ProjectChapterList(p)[k].chapter.identifier == n
  }

  /** One project's group holds a subcontent named n exactly when the project has such a chapter. */
  lemma ProjectChaptersNamed(p: LinkedSubcontent, n: string)
    ensures |Occurrences(ProjectChapters(p), ChapterName, n)| == if HasChapter(p, n) then 1 else 0
  {
    var cs := ProjectChapterList(p);
    var g := MergeChapters(cs);
    StrLessIsStrictTotalOrder();
    SortByCorrect(g, ChapterName, StrLess);
    MergeChaptersDistinct(cs);
    OccurrencesDistinct(g, ChapterName, n);
    OccurrencesNonEmpty(g, ChapterName, n);
    MergedNamed(cs, n);
  }

  /** A merged chapter is named n exactly when some record has identifier n. */
  lemma MergedNamed(cs: seq<QChapter>, n: string)
    ensures (exists j :: 0 <= j < |MergeChapters(cs)| && ChapterName(MergeChapters(cs)[j]) == n)
      <==> exists k :: 0 <= k < |cs| && cs[k].chapter.identifier == n
  {
    var items := ChapterItems(cs);
    var g := MergeChapters(cs);
    GroupByKeyKeys(items, ChapterName, JoinLinks);
    var ks := KeysInOrder(items, ChapterName);
    if exists k :: 0 <= k < |cs| && cs[k].chapter.identifier == n {
      var k :| 0 <= k < |cs| && cs[k].chapter.identifier == n;
      assert ChapterName(items[k]) == n;
      assert n in ks;
      var j :| 0 <= j < |ks| && ks[j] == n;
      assert KeysOf(g, ChapterName)[j] == ChapterName(g[j]);
    }
    if exists j :: 0 <= j < |g| && ChapterName(g[j]) == n {
      var j :| 0 <= j < |g| && ChapterName(g[j]) == n;
      assert KeysOf(g, ChapterName)[j] == ChapterName(g[j]);
      var k :| 0 <= k < |items| && ChapterName(items[k]) == ks[j];
      assert cs[k].chapter.identifier == ChapterName(items[k]);
    }
  }

  /**
   * Chapters merge only within a project: the subcontents named n are as
   * many as the projects that have a chapter n, so an identifier shared by
   * two projects gives two subcontents.
   */
  lemma {:induction false} TurnChaptersToSubcontentsNamed(ps: seq<LinkedSubcontent>, n: string)
    ensures |Occurrences(TurnChaptersToSubcontents(ps), ChapterName, n)| == |Filter(ps, p => HasChapter(p, n))|
    decreases |ps|
  {
    if ps != [] {
      var init, p := ps[..|ps| - 1], ps[|ps| - 1];
      assert ps == init + [p];
      TurnChaptersToSubcontentsNamed(init, n);
      TurnChaptersToSubcontentsSnoc(init, p);
      OccurrencesConcat(TurnChaptersToSubcontents(init), ProjectChapters(p), ChapterName, n);
      ProjectChaptersNamed(p, n);
    }
  }

  // unnestSubcontents

  /** The content codes whose first subcontent is promoted. */
  const PromotedCodes := ["obs", "obs-tn", "obs-tq", "tw"]

  type LinkedContent = Content<seq<Link>, seq<LinkedSubcontent>>

  /** `removeProperty(link, 'chapters')`. */
  function RemoveChapters(l: Link): (r: Link)
    ensures r.chapters.None? && r.url == l.url && r.format == l.format && r.zipContent == l.zipContent && r.quality == l.quality
  {
    l.(chapters := None)
  }

  /**
   * One content of unnestSubcontents: contents of the promoted codes with
   * subcontents take the first subcontent's name when their own is empty
   * and its links after their own, chapters removed; their subcontents
   * lose the first one, or for "obs" are regrouped by chapter.
   */
  function UnnestContent(c: LinkedContent): (r: LinkedContent)
    ensures c.code !in PromotedCodes || |c.subcontents| == 0 ==> r == c
    ensures c.code in PromotedCodes && |c.subcontents| > 0 ==>
      var chosen := c.subcontents[0];
      && SameContentFields(r, c.(name := r.name))
      && r.name == (if c.name != "" then c.name else chosen.name)
      && |r.links| == |c.links| + |chosen.links|
      && (forall k :: 0 <= k < |c.links| ==> r.links[k] == RemoveChapters(c.links[k]))
      && (forall k :: 0 <= k < |chosen.links| ==> r.links[|c.links| + k] == RemoveChapters(chosen.links[k]))
      && r.subcontents == (if c.code != "obs" then c.subcontents[1..] else TurnChaptersToSubcontents(c.subcontents))
  {
    if c.code !in PromotedCodes || |c.subcontents| == 0 then c
    else
      var chosen := c.subcontents[0];
      var links := c.links + chosen.links;
      Content(
        if c.name != "" then c.name else chosen.name,
        c.code, c.subject, c.description, c.checkingLevel,
        seq(|links|, k requires 0 <= k < |links| => RemoveChapters(links[k])),
        if c.code != "obs" then c.subcontents[1..] else TurnChaptersToSubcontents(c.subcontents))
  }

  /** `unnestSubcontents`: UnnestContent on every content; nothing else changes. */
  function UnnestSubcontents(langs: seq<Language<LinkedContent>>): (r: seq<Language<LinkedContent>>)
    ensures |r| == |langs|
    ensures forall i :: 0 <= i < |r| ==> SameHeader(r[i], langs[i]) && |r[i].contents| == |langs[i].contents|
    ensures forall i, j :: 0 <= i < |r| && 0 <= j < |r[i].contents| ==> r[i].contents[j] == UnnestContent(langs[i].contents[j])
  {
    EachContent(langs, UnnestContent)
  }

  /** A promoted content carries no chapter lists in its links. */
  lemma UnnestContentDropsChapters(c: LinkedContent)
    requires c.code in PromotedCodes && |c.subcontents| > 0
    ensures forall k :: 0 <= k < |UnnestContent(c).links| ==> UnnestContent(c).links[k].chapters.None?
  {
    var r := UnnestContent(c);
    forall k | 0 <= k < |r.links|
      ensures r.links[k].chapters.None?
    {
      if k >= |c.links| {
        assert r.links[|c.links| + (k - |c.links|)] == RemoveChapters(c.subcontents[0].links[k - |c.links|]);
      }
    }
  }
}
