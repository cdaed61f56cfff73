/** The string and collection helpers of the catalog code. */
module Helpers {
  import opened Wrappers
  import opened Seqs
  import opened JsStrings

  /** The text after the last dot: what `getFileFormat` takes for a file type. */
  function GetFileFormat(s: string): (r: string)
    ensures '.' !in r
    ensures |r| <= |s| && r == s[|s| - |r|..]
    ensures |r| < |s| ==> s[|s| - |r| - 1] == '.'
  {
    LastSegmentSuffix(s, '.');
    LastSegment(s, '.')
  }

  lemma GetFileFormatExamples()
    ensures GetFileFormat(".com") == "com"
    ensures GetFileFormat("file_name.txt") == "txt"
    ensures GetFileFormat("path/to/file.json") == "json"
    ensures GetFileFormat("spec.test.js") == "js"
  {
  }

  /**
   * `pickShorterSlug`: the shorter of two optional slugs, a falsy slug
   * counting as missing; on equal lengths the second one.
   */
  function PickShorterSlug(slug1: Option<string>, slug2: Option<string>): (r: string)
    ensures r == "" <==> !Truthy(slug1) && !Truthy(slug2)
    ensures r != "" ==> Some(r) == slug1 || Some(r) == slug2
    ensures Truthy(slug1) ==> |r| <= |slug1.value|
    ensures Truthy(slug2) ==> |r| <= |slug2.value|
    ensures Truthy(slug1) && Truthy(slug2) && |slug1.value| == |slug2.value| ==> r == slug2.value
  {
    if !Truthy(slug1) && !Truthy(slug2) then ""
    else if !Truthy(slug1) && Truthy(slug2) then slug2.value
    else if !Truthy(slug2) && Truthy(slug1) then slug1.value
    else if |slug1.value| < |slug2.value| then slug1.value
    else slug2.value
  }

  /**
   * `concatReduceToMap(a, b, fn)`: `a.concat(b).reduce(fn, {})` for array
   * arguments; the accumulator starts at `empty`, the empty map of the caller.
   */
  function ConcatReduceToMap<T, M>(a: seq<T>, b: seq<T>, fn: (M, T) -> M, empty: M): (r: M)
    ensures r == FoldLeft(fn, FoldLeft(fn, empty, a), b)
  {
    FoldLeftConcat(fn, empty, a, b);
    FoldLeft(fn, empty, a + b)
  }

  const ZipType := "application/zip"
  const ContentParameter := "content="

  /** The regular expression `content=[\w]+\/([\w]+)` matches at index i. */
  predicate ClauseAt(s: string, i: nat)
  {
    && OccursAt(s, ContentParameter, i)
    && var e := WordRunEnd(s, i + |ContentParameter|);
    && e > i + |ContentParameter|
    && e < |s| && s[e] == '/'
    && WordRunEnd(s, e + 1) > e + 1
  }

  /** The group the expression captures at i: the word run after the slash. */
  function Capture(s: string, i: nat): (r: string)
    requires ClauseAt(s, i)
    ensures r != []
    ensures forall j :: 0 <= j < |r| ==> IsWordChar(r[j])
  {
    var e := WordRunEnd(s, i + |ContentParameter|);
    s[e + 1..WordRunEnd(s, e + 1)]
  }

  /** The leftmost index where the expression matches. */
  function FirstClause(s: string): (r: Option<nat>)
    ensures r.Some? ==> ClauseAt(s, r.value) && forall j :: 0 <= j < r.value ==> !ClauseAt(s, j)
    ensures r.None? <==> forall j :: 0 <= j <= |s| ==> !ClauseAt(s, j)
  {
    var p := (j: nat) => ClauseAt(s, j);
    var r := FirstIndex(0, |s| + 1, p);
    assert forall j: nat :: p(j) == ClauseAt(s, j);
    r
  }

  /**
   * `getZipContent`: "" when the format is not a zip type, otherwise the
   * subtype named by its `content=type/subtype` parameter. When a zip type
   * has no such parameter the code dereferences a failed match: TypeError.
   */
  function GetZipContent(s: string): (r: Result<string>)
    ensures r == Ok("") <==> forall j :: 0 <= j <= |s| ==> !OccursAt(s, ZipType, j)
    ensures r.TypeError? <==>
      (exists j :: 0 <= j <= |s| && OccursAt(s, ZipType, j)) && forall j :: 0 <= j <= |s| ==> !ClauseAt(s, j)
    ensures r.Ok? && r.value != "" ==>
      exists i :: 0 <= i <= |s| && ClauseAt(s, i) && (forall j :: 0 <= j < i ==> !ClauseAt(s, j)) && r.value == Capture(s, i)
  {
    if IndexOf(s, ZipType).None? then Ok("")
    else
      match FirstClause(s)
      case None => TypeError
      case Some(i) => Ok(Capture(s, i))
  }

  lemma GetZipContentNotZip()
    ensures GetZipContent("application/json") == Ok("")
  {
    var s := "application/json";
    forall j | 0 <= j <= |s|
      ensures !OccursAt(s, ZipType, j)
    {
      if j == 0 {
        assert s[12] != ZipType[12];
      } else if j == 1 {
        assert s[1] != ZipType[0];
      }
    }
    assert IndexOf(s, ZipType).None?;
  }

  const UsfmFormat := "application/zip; content=text/usfm; key=value"

  lemma GetZipContentUsfm()
    ensures GetZipContent(UsfmFormat) == Ok("usfm")
  {
    UsfmClause();
    UsfmNoEarlierClause();
    assert UsfmFormat[..15] == ZipType;
    assert IndexOf(UsfmFormat, ZipType) == Some(0);
    assert FirstClause(UsfmFormat) == Some(17);
  }

  lemma UsfmClause()
    ensures ClauseAt(UsfmFormat, 17) && Capture(UsfmFormat, 17) == "usfm"
  {
    UsfmContentParameter();
    UsfmWordRuns();
    assert UsfmFormat[30..34] == "usfm";
  }

  lemma UsfmContentParameter()
    ensures OccursAt(UsfmFormat, ContentParameter, 17)
  {
    var s := UsfmFormat;
    assert s[17] == 'c' && s[18] == 'o' && s[19] == 'n' && s[20] == 't';
    assert s[21] == 'e' && s[22] == 'n' && s[23] == 't' && s[24] == '=';
    assert s[17..25] == ContentParameter;
  }

  lemma UsfmWordRuns()
    ensures WordRunEnd(UsfmFormat, 25) == 29 && UsfmFormat[29] == '/'
    ensures WordRunEnd(UsfmFormat, 30) == 34
  {
    var s := UsfmFormat;
    assert s[25] == 't' && s[26] == 'e' && s[27] == 'x' && s[28] == 't' && s[29] == '/';
    assert WordRunEnd(s, 29) == 29;
    assert WordRunEnd(s, 28) == 29;
    assert WordRunEnd(s, 27) == 29;
    assert WordRunEnd(s, 26) == 29;
    assert s[30] == 'u' && s[31] == 's' && s[32] == 'f' && s[33] == 'm' && s[34] == ';';
    assert WordRunEnd(s, 34) == 34;
    assert WordRunEnd(s, 33) == 34;
    assert WordRunEnd(s, 32) == 34;
    assert WordRunEnd(s, 31) == 34;
  }

  lemma UsfmNoEarlierClause()
    ensures forall j :: 0 <= j < 17 ==> !ClauseAt(UsfmFormat, j)
  {
    var s := UsfmFormat;
    forall j | 0 <= j < 17
      ensures !ClauseAt(s, j)
    {
      assert s[j + 7] != ContentParameter[7];
    }
  }
}
