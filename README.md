# Bible catalog reshaping, modelled in Dafny

The original program is a small Node.js service. It downloads two
published catalogs of Bible translations and related resources: an older
`uw/txt/2` catalog and the newer Door43 `v3` catalog. It reshapes each
catalog into one list of languages, each holding its resources ("contents")
with their download links and sub-contents (books, stories, manuals). It
then merges the two lists into one.

This project models the reshaping core and proves properties of it:

- **`functions.js`**: the passes that rename and filter the fields of the
  `v3` catalog.
  - Languages, contents, links and subcontents.
  - English names.
  - The three sorts.
  - The promotion of Open Bible Stories chapters to subcontents
    (`unnestSubcontents` / `turnChaptersToSubcontents`).
- **`helpers.js`**: `getFileFormat`, `pickShorterSlug`,
  `concatReduceToMap` and `getZipContent`.
- **`index.js`**: the same reshaping for the other side.
  - `getLinksFromContent`, `processNewCat` and `processOldCat`.
  - The three-level merge of the two catalogs: `combineContents`,
    `combineResources` and `combineBothCats`.

Modules:

- `Wrappers`: `Option` for a JavaScript field that may be absent. `Result`
  for an expression that may throw a `TypeError`. Truthiness, and `||` on
  optional strings.
- `Seqs`, `JsStrings`: sequence folds, occurrences by key, first-seen key
  order. JavaScript's `<` on strings as a strict total order. The text after
  the last separator.
- `Sorting`: a stable insertion sort by key. It is specified by a
  function, proved to be a sorted, stable permutation, and implemented
  in place on an array.
- `Grouping`: the `findIndex` / `push` / overwrite reduce that both
  `processOldCat` and `turnChaptersToSubcontents` use.
- `KeyedMaps`: the keyed-map fold that `concatReduceToMap` performs with the
  merge reducers of `index.js`, and the conversion of the map back to a list.
- `Catalog`, `Passes`, `Ordering`, `Chapters`: the passes of `functions.js`.
- `Helpers`: the four functions of `helpers.js`.
- `SourceCatalogs`: `getLinksFromContent`, `processNewCat` and `processOldCat`.
- `CatalogUnion`: `combineContents`, `combineResources` and `combineBothCats`.

A JavaScript `TypeError` is modelled as a `Result`:

- `getZipContent` on a zip format without a `content=` clause throws.
  Every link pass propagates that error.
- `combineContents` throws when either side has no content list, because
  `concat(undefined)` appends `undefined` and the reducer then reads
  `undefined.title`. `combineResources` and `combineBothCats` propagate it.

`concat` of an absent link list appends one `undefined` element. That
element is modelled as the `CatLink.Undefined` constructor.

Open Bible Stories chapters are merged per project: each project's chapters
are grouped by identifier, then sorted by name, and only then are the
projects' lists concatenated. The same chapter may therefore appear once per
project (`functions.js:212-271`).

## Model

| member | source | states |
|---|---|---|
| Helpers.GetFileFormat | helpers.js:5 | The result is the suffix of the input after its last `.`: it holds no `.`, it ends the input, and unless it is the whole input it is preceded by a `.`. |
| Helpers.GetFileFormatExamples | __test__/helpers.test.js:7-12 | `.com` gives `com`, `file_name.txt` gives `txt`, `path/to/file.json` gives `json`, `spec.test.js` gives `js`. |
| Helpers.PickShorterSlug | helpers.js:11-16 | `''` exactly when both slugs are falsy; otherwise one of the two slugs; never longer than a truthy slug; the second slug on a length tie. |
| Helpers.ConcatReduceToMap | helpers.js:22-25 | Reducing the concatenation is the fold over `a` followed by the fold over `b`. |
| Helpers.GetZipContent | helpers.js:51-60 | `''` exactly when `application/zip` does not occur; a TypeError exactly when it occurs but no `content=type/subtype` clause does; otherwise the subtype captured at the first such clause. |
| Helpers.GetZipContentNotZip | __test__/helpers.test.js:24-26 | `application/json` gives `''`. |
| Helpers.GetZipContentUsfm | __test__/helpers.test.js:21 | `application/zip; content=text/usfm; key=value` gives `usfm`. |
| JsStrings.LastSegmentSuffix | functions.js:239 | The text after the last separator holds no separator, ends the input, and is preceded by the separator unless it is the whole input. |
| JsStrings.StrLessIsStrictTotalOrder | functions.js:143 | JavaScript's `<` on strings is irreflexive, transitive and total on distinct strings. |
| Sorting.SortInPlace | functions.js:135 | Sorting an array in place leaves it holding the stable key sort of its old contents. |
| Sorting.SortByPermutes | functions.js:135 | The sort is a permutation of its input. |
| Sorting.SortByCorrect | functions.js:135-144 | The sort is ordered by key, and the elements of each key keep their input order. |
| Sorting.StableSortUnique | functions.js:135-144 | Any ordered, stable permutation of the input equals the sort, so any stable sort with the same comparator gives this result. |
| Sorting.SortBySum | functions.js:260-265 | Sorting keeps the total of any per-element weight. |
| Passes.MapLanguages | functions.js:11-18 | One language per input language, with title, identifier, direction and resources renamed to name, code, direction and contents. |
| Passes.MapLanguagesRoundTrip | functions.js:11-18 | Renaming the fields back recovers the input: nothing the pass keeps is lost or altered. |
| Passes.OverrideContentTitle | functions.js:36-42 | A title in the override table is replaced by its override; any other title is kept. |
| Passes.OverrideContentTitleIdempotent | functions.js:36-42 | When no override is itself overridden, overriding twice is the same as once. |
| Passes.MapContents | functions.js:20-33 | Languages keep their header; each content is the resource with overridden title, identifier as code, normalized subject, description, checking level, formats as links and projects as subcontents. |
| Passes.NormalizeLink | functions.js:50-55 | A link keeps its url, takes the url's file format and the format's zip content, and has quality or null; it fails exactly when the zip content throws. |
| Passes.NormalizeLinks | functions.js:49-56 | An absent link list becomes `[]`; a present one is mapped link by link, failing exactly when some link fails. |
| Passes.MapContentLinks | functions.js:44-59 | Every content's links are normalized and nothing else changes; the pass fails exactly when some link of some content fails. |
| Passes.ContentLinksShape | functions.js:49-56 | Each normalized content link has the raw url, the url's format, the zip content, quality or null, and no chapters. |
| Passes.MapSubcontentLinks | functions.js:100-122 | Every subcontent's links are normalized and nothing else changes; the pass fails exactly when some link of some subcontent fails. |
| Passes.SubcontentLinksShape | functions.js:108-117 | Each normalized subcontent link has the raw url, the url's format, quality or null, and its chapters or `[]`. |
| Passes.SubcontentsOf | functions.js:66-76 | An absent or empty project list gives `[]`; otherwise each subcontent has the project's title, identifier, sort, category and formats. |
| Passes.MapSubcontents | functions.js:61-79 | Every content's projects become subcontents and nothing else changes. |
| Passes.FilterSubcontents | functions.js:81-98 | Each content keeps, in order, exactly the subcontents that have links and are not the `ta` manuals `intro`, `process` or `checking`, each as many times as it occurs; nothing else changes. |
| Passes.EnglishNameOf | functions.js:126-129 | The `ang` of the first metadata entry with the language's code, or `''` when there is none or it is falsy. |
| Passes.AddEnglishNames | functions.js:124-132 | Each language gets its English name and is otherwise unchanged. |
| Passes.AddEnglishNamesExamples | __test__/functions.test.js:471-497 | A listed language gets its `ang`; an unlisted one gets `''`. |
| Ordering.CompareLanguagesOrdersByKey | functions.js:135-144 | The comparator orders languages by English name, or name when the English name is falsy. |
| Ordering.SortLanguageByNameOrEnglishName | functions.js:134-145 | The array is sorted in place into the stable sort by that key. |
| Ordering.SortLanguagesCorrect | functions.js:134-145 | The sorted languages are a permutation of the input, ordered by key, with ties in input order. |
| Ordering.ContentPriority | functions.js:151-152 | A code's priority is its entry in the order table, or 100 when it has none or its entry is 0. |
| Ordering.CompareContentsOrdersByPriority | functions.js:150-159 | The comparator orders contents by priority. |
| Ordering.SortContents | functions.js:147-161 | Each language keeps its header, and its contents are sorted by priority. |
| Ordering.SortLanguageContentsInPlace | functions.js:150 | A language's contents array is sorted in place into the stable priority sort. |
| Ordering.SortLanguageContentsCorrect | functions.js:147-161 | The sorted contents are a permutation in non-decreasing priority, ties in input order, and every ranked content comes before every content absent from the table. |
| Ordering.SortContentsExample | __test__/functions.test.js:569-591 | With order `reg`, `ulb`, `udb`, the contents `udb`, `wat`, `reg` sort to `reg`, `udb`, `wat`. |
| Ordering.CompareSubcontentsOrdersByKey | functions.js:168-182 | When both or neither subcontent has a `sort` field, the comparator orders by sort field and then book order. |
| Ordering.CompareSubcontentsMixed | functions.js:172-173 | A subcontent with a `sort` field and one without each compare greater than the other. |
| Ordering.SortSubcontentsInPlace | functions.js:168 | A content's subcontents array is sorted in place into the stable key sort. |
| Ordering.SortSubContents | functions.js:163-185 | Each content keeps every field but its subcontents, which are sorted by key. |
| Ordering.SortSubcontentsCorrect | functions.js:163-185 | The sorted subcontents are a permutation ordered by key, with ties in input order. |
| Grouping.FindKey | functions.js:245 | The index of the first record with the key, or none when no record has it. |
| Grouping.GroupByKeyKeys | functions.js:232-258 | The merged list holds one record per key, in the order the keys first appear. |
| Grouping.GroupByKeyDistinct | functions.js:232-258 | No two merged records share a key. |
| Grouping.GroupByKeyRecords | functions.js:232-258 | Each merged record is all the records with its key, joined in input order. |
| Grouping.GroupByKeySum | functions.js:232-258 | The merge keeps the total of a weight that joining adds up. |
| Chapters.LinkChapters | functions.js:215-226 | Each chapter of a link is paired with the link's quality or null; a link without chapters gives none. |
| Chapters.ChapterLinks | functions.js:237-241 | Each chapter becomes one link with its url, the text after the last `/` of its format, and its quality. |
| Chapters.DedupChapters | functions.js:232-258 | The loop computes the per-project merge of chapters by identifier. |
| Chapters.SortedProjectChapters | functions.js:229-267 | One project's merged chapters, sorted by name. |
| Chapters.TurnChaptersToSubcontentsSnoc | functions.js:212-271 | The result for one more project is the earlier result followed by that project's sorted chapters. |
| Chapters.MergeChaptersDistinct | functions.js:244-255 | Within a project, no two merged chapters share a name. |
| Chapters.ProjectChaptersAscending | functions.js:232-265 | A project's chapters come out in strictly ascending name order. |
| Chapters.ProjectChaptersLinkCount | functions.js:229-258 | A project's merged chapters together hold one link per chapter entry of its links. |
| Chapters.ProjectChaptersRecords | functions.js:221-258 | Each merged chapter is named by its identifier, has category `obs`, and holds the links of all chapter entries with that identifier, in order. |
| Chapters.ProjectChaptersNamed | functions.js:232-265 | A project lists a chapter name once if one of its links has a chapter with that identifier, and never otherwise. |
| Chapters.MergedNamed | functions.js:232-258 | Some merged chapter has a name exactly when some chapter entry has that identifier. |
| Chapters.TurnChaptersToSubcontentsNamed | functions.js:212-271 | Across all projects a chapter name appears once per project that has it. |
| Chapters.RemoveChapters | functions.js:203 | A link loses its chapters and keeps every other field. |
| Chapters.UnnestContent | functions.js:192-208 | A content not promoted, or without subcontents, is unchanged. Otherwise its name falls back to the first subcontent's, its links gain the first subcontent's links without chapters, and its subcontents lose the first (or become the chapters, for `obs`). |
| Chapters.UnnestSubcontents | functions.js:187-210 | Every content is unnested and languages keep their header. |
| Chapters.UnnestContentDropsChapters | functions.js:201-203 | After promotion no link carries chapters. |
| SourceCatalogs.GetLinksFromContent | index.js:25-37 | As many links as there are `pdf` and `src` properties, each one made from such a property: the extension of its value as format, the value as url. |
| SourceCatalogs.GetLinksFromContentInKeyOrder | index.js:25-37 | The links are exactly the `pdf` and `src` properties in key order, each mapped to one link with the extension of its value as format and the value as url. |
| SourceCatalogs.GetLinksFromContentAtMostTwo | index.js:25-37 | An object yields at most two links. |
| SourceCatalogs.GetLinksFromContentNone | index.js:25-37 | An object with neither key yields no link. |
| SourceCatalogs.FormatLinks | index.js:50-53 | Present formats map one to one to format and url; absent formats stay absent. |
| SourceCatalogs.NewResource | index.js:45-62 | A resource's name, desc, subj, slug, links and per-project content come from title, description, subject, identifier and formats; content is absent exactly when projects are. |
| SourceCatalogs.NewLanguage | index.js:42-63 | A language has the identifier as code, the direction, and one resource per source resource. |
| SourceCatalogs.CompareIdentifiersOrdersByKey | index.js:41 | On distinct identifiers the comparator is the string order, and it is antisymmetric. |
| SourceCatalogs.ProcessNewCat | index.js:39-64 | The input array is sorted in place by identifier, and the result is each sorted language reshaped. |
| SourceCatalogs.ProcessedNewCatCorrect | index.js:39-64 | One language per input language, in non-decreasing code order, taken from a permutation of the input. |
| SourceCatalogs.PropValue | index.js:73-77 | The value stored under a key, or none when the object lacks the key. |
| SourceCatalogs.OldContent | index.js:73-78 | The title falls back to the version name, the slug to the version slug; desc is copied; links come from `pdf`/`src`. |
| SourceCatalogs.OldResource | index.js:70-79 | A version becomes a resource with its name and slug and one content per table-of-contents entry. |
| SourceCatalogs.OldLanguageOf | index.js:68-80 | A language has `lc` as code, no direction, and one resource per version. |
| SourceCatalogs.OldLanguages | index.js:67-80 | Each language of both old lists is reshaped, in order. |
| SourceCatalogs.ProcessOldCat | index.js:81-90 | The loop computes the merge of languages by code. |
| SourceCatalogs.JoinAllResources | index.js:87 | Joining languages keeps the first code and direction and concatenates all resources. |
| SourceCatalogs.ProcessedOldCatDistinct | index.js:81-90 | No two merged languages share a code. |
| SourceCatalogs.ProcessedOldCatOrder | index.js:81-90 | The merged languages come in the order their codes first appear. |
| SourceCatalogs.ProcessedOldCatRecord | index.js:81-90 | A merged language has the first occurrence's direction and all occurrences' resources in order. |
| KeyedMaps.CollectCorrect | helpers.js:22-25 | The fold of a merging reducer maps each key to all records with that key merged in order, or fails exactly when one of those merges fails. |
| KeyedMaps.CollectKeys | helpers.js:22-25 | The map's keys are exactly the keys of the records. |
| KeyedMaps.CollectSingle | helpers.js:22-25 | A record whose key no other record has is stored unchanged. |
| KeyedMaps.RevertMapToList | index.js:111-114 | One entry per listed key, each the stored value with its key written back. |
| KeyedMaps.CombineByKeyDefined | index.js:93-115 | The combined list exists exactly when merging every key's records succeeds. |
| KeyedMaps.CombineByKeyEntries | index.js:93-115 | The combined list has one entry per key in first-seen order, each the merge of all records with that key. |
| KeyedMaps.CombineByKeySingle | index.js:93-115 | A record whose key is unique passes through unchanged. |
| KeyedMaps.CombineByKeyDisjoint | index.js:93-115 | With all keys distinct, combining is plain concatenation. |
| KeyedMaps.MergeAllDefined | index.js:117-138 | A chain of merges succeeds exactly when it is one record or every record meets the merge's condition. |
| CatalogUnion.AppendLinks | index.js:102-104 | Without earlier links the later ones are taken; otherwise they are concatenated, and an absent later list appends one `undefined`. |
| CatalogUnion.MergeContent | index.js:98-106 | A merged content keeps its title, takes desc by `\|\|`, the shorter slug, and the appended links. |
| CatalogUnion.MergeContentsAll | index.js:98-106 | Merging contents never fails and keeps the first title. |
| CatalogUnion.CombineContentsDefined | index.js:93-115 | Combining contents fails exactly when either side is absent. |
| CatalogUnion.CombineContentsEntries | index.js:93-115 | One content per title in first-seen order, each the merge of all contents with that title. |
| CatalogUnion.CombineContentsSingle | index.js:98-106 | A content whose title is unique passes through unchanged. |
| CatalogUnion.OrAllFirstTruthy | index.js:100 | A chain of `\|\|` yields the first truthy value, or the last one when none is truthy. |
| CatalogUnion.ShorterAllShortest | index.js:101 | A chain of `pickShorterSlug` yields a shortest truthy slug, and `''` exactly when none is truthy. |
| CatalogUnion.MergedContent | index.js:98-106 | A merged content's desc is the first truthy desc and its slug the shortest; when every content has links, its links are all of them in order. |
| CatalogUnion.MergeResource | index.js:122-129 | A merge fails exactly when either side lacks content. The result keeps the name, has no links, takes desc and subj by `\|\|`, the shorter slug, and the combined contents. |
| CatalogUnion.MergeResourcesAll | index.js:122-129 | A chain of resource merges succeeds exactly when there is one resource or all have content; it keeps the first name. |
| CatalogUnion.MergedResource | index.js:122-129 | A merged resource has the first truthy desc and subject, the shortest slug, and no links. |
| CatalogUnion.CombineResourcesDefined | index.js:117-138 | Combining fails exactly when a resource without content shares its name with another. |
| CatalogUnion.CombineResourcesEntries | index.js:117-138 | One resource per name in first-seen order, each the merge of all resources with that name. |
| CatalogUnion.CombineResourcesSingle | index.js:122-129 | A resource whose name is unique passes through unchanged. |
| CatalogUnion.MergeLanguage | index.js:141-148 | A language merge keeps the code, takes direction by `\|\|`, and combines the resources; it fails exactly when that fails. |
| CatalogUnion.MergedLanguage | index.js:141-148 | A merged language keeps the first code and has the first truthy direction. |
| CatalogUnion.CombineBothCatsEntries | index.js:140-155 | One language per code in first-seen order, each the merge of all languages with that code. |
| CatalogUnion.CombineBothCatsDisjoint | index.js:140-155 | Catalogs with distinct codes combine into their concatenation. |
| CatalogUnion.CombineBothCatsSingle | index.js:141-148 | A language whose code is unique passes through unchanged. |

## Left out

- Fetching the catalogs, the Express routes, writing `data.json`, the module-level caches and the callbacks of `index.js`: I/O, modelled only as the functions they call.
- `compare.js` is not part of this model.
- `getCategory`, `normalizeSubject`, `getBookSortOrder` and `getFileExtension` are parameters. They are imported from `./helpers` by functions.js and index.js but not defined in helpers.js (helpers.js:62-67).
- The content title override table (`data/content_title_overrides.json`) and the content order table are parameters given as maps.
- `getBookSortOrder` is taken to return an integer for every code.
- `removeProperty(l, 'chapters')` is modelled as `Chapters.RemoveChapters`. `flattenOnce` is modelled as sequence flattening.
- `revertMapToList` is likewise imported by index.js but not defined in helpers.js (helpers.js:62-67). `KeyedMaps.RevertMapToList` lists the entries in the order their keys were first inserted, which is JavaScript's key order for string keys that are not array indices. Integer-like keys, which JavaScript lists first in numeric order, are not modelled.
- Object keys that clash with `Object.prototype` members (such as a title `constructor`) are not modelled; a map lookup here sees only stored keys.
- Strings are sequences of characters compared element by element. UTF-16 code-unit order versus code-point order is not distinguished.
- The regular expressions of `getZipContent` are modelled as a direct scan for `application/zip` and for `content=` followed by two runs of word characters around `/`.
- The input catalogs are taken to be well formed; the throws and `undefined` outputs on missing fields are not modelled. That covers:
  - `content.checking.checking_level` without `checking` (functions.js:28);
  - `getFileFormat` of a link without `url` (functions.js:52, 111);
  - `c.format.split` on a chapter without `format` (functions.js:239);
  - `.map` over a missing `contents`, `resources`, `vers` or `toc` list (functions.js:23; index.js:45, 70, 73).
  The `Raw*` and old-catalog datatypes make these fields required. `getZipContent(undefined)`, which gives `''`, cannot arise because `RawFormat.format` is a string. A resource without `description` (or `subject`) would give `desc: undefined`, where `SourceCatalogs.NewResource` gives `Some` of the string.
- `_.union` of the two old language lists is modelled as concatenation: the parsed objects are distinct, so no element is dropped.
- Ordering.SortSubContents: when some subcontents of one content have a `sort` field and others do not, the comparator is not an order (`Ordering.CompareSubcontentsMixed`), so the order JavaScript produces is up to the engine. The model places subcontents without `sort` first; its ordering lemma holds whatever the mixture, but matches the source only when all or none have the field.
- SourceCatalogs.ProcessNewCat: the comparator returns -1 for equal identifiers, so languages that share an identifier end up in an order JavaScript leaves unspecified. The model keeps them in input order (a stable sort); catalog identifiers are distinct in practice.
- SourceCatalogs.ProcessOldCat: `l.slice()` copies the list shallowly, so the `resources` assignment also updates the language objects held by the mapped input. The model returns the new list and does not track that aliasing.
- Ordering.SortContents: `l.contents.sort` also reorders each input language's content array. The in-place effect is shown for one array by `Ordering.SortLanguageContentsInPlace`; the pass itself is a function on values.
- Ordering.SortSubContents: the same holds for `c.subcontents`; `Ordering.SortSubcontentsInPlace` shows one array.
- A merged content has no `title` key, and a merged resource no `name` or `links` keys, until `Object.assign` writes the key back. The model stores the records with their key field kept and writes it back the same way; the absent `links` key is modelled as `None`.
