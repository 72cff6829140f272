/**
 * The repository layer of the Python generator (pagemarks/framework/repo.py): bookmark
 * validation, URL sanitising, the order of bookmarks on a page, the fallback of date
 * formats, collection naming and configuration, and adding a collection to a repo.
 * Files, `strptime` and the directory tests are parameters.
 */
module Repository {

  import opened Wrappers
  import opened Text
  import Sorting
  import PyUtil
  import Locate

  const DefaultCollName := "default"
  const CollCfgFilename := "pagemarks.json"

  /**
   * What the Python code raises: its own `PagemarksError`, `.strip()` called on a
   * non-string, a missing dictionary key, or the `ValueError` of `parse_timestamp`.
   */
  datatype Raised = PagemarksError(message: string) | StripOnNonString | MissingKey(key: string) | ValueError(text: string)

  // ---------------------------------------------------------------------------
  // Bookmark
  // ---------------------------------------------------------------------------

  /** A bookmark; `dateAdded` is the whole UTC seconds of its `date_added`. */
  datatype Bookmark = Bookmark(id: string, name: Option<string>, url: string, dateAdded: Option<int>,
                               tags: seq<string>, notes: Option<string>)

  /** `Bookmark(bmid, url)`: the URL is checked first, then the id; nothing but the two is set. */
  function NewBookmark(bmid: string, url: string): (r: Result<Bookmark, string>)
    ensures r.Success? <==> |url| >= 3 && |bmid| == Locate.BookmarkIdLen
    ensures |url| < 3 ==> r == Failure("empty url")
    ensures |url| >= 3 && |bmid| != Locate.BookmarkIdLen ==> r == Failure("invalid bookmark id")
    ensures r.Success? ==> r.value == Bookmark(bmid, None, url, None, [], None)
  {
    if |url| < 3 then Failure("empty url")
    else if |bmid| != Locate.BookmarkIdLen then Failure("invalid bookmark id")
    else Success(Bookmark(bmid, None, url, None, [], None))
  }

  // ---------------------------------------------------------------------------
  // sanitize_url
  // ---------------------------------------------------------------------------

  /** `s.replace(c, enc)` in Python: every occurrence is replaced. */
  function ReplaceAll(s: string, c: char, enc: string): string
  {
    if s == [] then []
    else ReplaceAll(s[..|s| - 1], c, enc) + (if s[|s| - 1] == c then enc else [s[|s| - 1]])
  }

  /** The entries of `most_dirty_chars`, in the order of the dictionary. */
  const DirtyChars: seq<(char, string)> := [('<', "%3C"), ('>', "%3E"), ('"', "%22")]

  predicate IsDirty(c: char)
  {
    c == '<' || c == '>' || c == '"'
  }

  /** The percent-encoding of one character, when it is one of the three. */
  function Encoded(c: char): (r: string)
    ensures forall i :: 0 <= i < |r| ==> !IsDirty(r[i])
    ensures !IsDirty(c) ==> r == [c]
  {
    if c == '<' then "%3C" else if c == '>' then "%3E" else if c == '"' then "%22" else [c]
  }

  /** Every character of `s` in turn, each dirty one percent-encoded: the reference for `sanitize_url`. */
  function Sanitized(s: string): string
  {
    if s == [] then [] else Sanitized(s[..|s| - 1]) + Encoded(s[|s| - 1])
  }

  /** The replacements `pairs` applied one after the other. */
  function ReplaceEach(s: string, pairs: seq<(char, string)>): string
  {
    if pairs == [] then s
    else ReplaceAll(ReplaceEach(s, pairs[..|pairs| - 1]), pairs[|pairs| - 1].0, pairs[|pairs| - 1].1)
  }

  /** `CollectionReader.sanitize_url(url)`. */
  method SanitizeUrl(url: string) returns (result: string)
    ensures result == Sanitized(url)
  {
    result := url;
    var i := 0;
    while i < |DirtyChars|
      invariant 0 <= i <= |DirtyChars|
      invariant result == ReplaceEach(url, DirtyChars[..i])
    {
      var (c, enc) := DirtyChars[i];
      assert DirtyChars[..i + 1][..i] == DirtyChars[..i];
      result := ReplaceAll(result, c, enc);
      i := i + 1;
    }
    assert DirtyChars[..i] == DirtyChars;
    ThreePasses(url);
  }

  lemma {:induction false} ReplaceAllAppend(a: string, b: string, c: char, enc: string)
    ensures ReplaceAll(a + b, c, enc) == ReplaceAll(a, c, enc) + ReplaceAll(b, c, enc)
    decreases |b|
  {
    if b != [] {
      var b' := b[..|b| - 1];
      assert (a + b)[..|a + b| - 1] == a + b';
      ReplaceAllAppend(a, b', c, enc);
    } else {
      assert a + b == a;
    }
  }

  /** A string without `c` is left alone by `replace(c, …)`. */
  lemma {:induction false} ReplaceAllAbsent(s: string, c: char, enc: string)
    requires forall i :: 0 <= i < |s| ==> s[i] != c
    ensures ReplaceAll(s, c, enc) == s
    decreases |s|
  {
    if s != [] {
      ReplaceAllAbsent(s[..|s| - 1], c, enc);
    }
  }

  lemma ReplaceAllOne(x: char, c: char, enc: string)
    ensures ReplaceAll([x], c, enc) == if x == c then enc else [x]
  {
    assert [x][..0] == [];
  }

  /** The dictionary of dirty characters, applied in its order. */
  lemma ReplaceEachDirty(s: string)
    ensures ReplaceEach(s, DirtyChars) == ReplaceAll(ReplaceAll(ReplaceAll(s, '<', "%3C"), '>', "%3E"), '"', "%22")
  {
    var d := DirtyChars;
    assert d[..2] == [('<', "%3C"), ('>', "%3E")] && d[..2][..1] == [('<', "%3C")] && d[..2][..1][..0] == [];
    assert ReplaceEach(s, d[..2][..1]) == ReplaceAll(ReplaceEach(s, []), '<', "%3C");
    assert ReplaceEach(s, d[..2]) == ReplaceAll(ReplaceEach(s, d[..2][..1]), '>', "%3E");
    assert ReplaceEach(s, d) == ReplaceAll(ReplaceEach(s, d[..2]), '"', "%22");
  }

  /** The three passes of `sanitize_url` on one character give its encoding. */
  lemma OneChar(x: char)
    ensures ReplaceAll(ReplaceAll(ReplaceAll([x], '<', "%3C"), '>', "%3E"), '"', "%22") == Encoded(x)
  {
    ReplaceAllOne(x, '<', "%3C");
    if x == '<' {
      ReplaceAllAbsent("%3C", '>', "%3E");
      ReplaceAllAbsent("%3C", '"', "%22");
    } else {
      ReplaceAllOne(x, '>', "%3E");
      if x == '>' {
        ReplaceAllAbsent("%3E", '"', "%22");
      } else {
        ReplaceAllOne(x, '"', "%22");
      }
    }
  }

  /** Replacing `<`, then `>`, then `"` everywhere encodes each character on its own. */
  lemma {:induction false} ThreePasses(s: string)
    ensures ReplaceEach(s, DirtyChars) == Sanitized(s)
    decreases |s|
  {
    ReplaceEachDirty(s);
    if s != [] {
      var a := s[..|s| - 1];
      var x := s[|s| - 1];
      assert s == a + [x];
      ThreePasses(a);
      ReplaceEachDirty(a);
      ReplaceAllAppend(a, [x], '<', "%3C");
      ReplaceAllAppend(ReplaceAll(a, '<', "%3C"), ReplaceAll([x], '<', "%3C"), '>', "%3E");
      ReplaceAllAppend(ReplaceAll(ReplaceAll(a, '<', "%3C"), '>', "%3E"),
                       ReplaceAll(ReplaceAll([x], '<', "%3C"), '>', "%3E"), '"', "%22");
      OneChar(x);
    }
  }

  /**
   * What `sanitize_url` promises: no `<`, `>` or `"` is left, a URL without them comes
   * back unchanged, and each of them grows the URL by two characters.
   */
  lemma SanitizedMeaning(s: string)
    ensures forall i :: 0 <= i < |Sanitized(s)| ==> !IsDirty(Sanitized(s)[i])
    ensures (forall i :: 0 <= i < |s| ==> !IsDirty(s[i])) ==> Sanitized(s) == s
    ensures |Sanitized(s)| == |s| + 2 * DirtyCount(s)
  {
    SanitizedNoDirty(s);
    if forall i :: 0 <= i < |s| ==> !IsDirty(s[i]) {
      SanitizedClean(s);
    }
    SanitizedLength(s);
  }

  lemma {:induction false} SanitizedNoDirty(s: string)
    ensures forall i :: 0 <= i < |Sanitized(s)| ==> !IsDirty(Sanitized(s)[i])
    decreases |s|
  {
    if s != [] {
      var a := s[..|s| - 1];
      SanitizedNoDirty(a);
      var r := Sanitized(s);
      var e := Encoded(s[|s| - 1]);
      assert r == Sanitized(a) + e;
      forall i | 0 <= i < |r| ensures !IsDirty(r[i]) {
        if i >= |Sanitized(a)| {
          assert r[i] == e[i - |Sanitized(a)|];
        } else {
          assert r[i] == Sanitized(a)[i];
        }
      }
    }
  }

  lemma {:induction false} SanitizedClean(s: string)
    requires forall i :: 0 <= i < |s| ==> !IsDirty(s[i])
    ensures Sanitized(s) == s
    decreases |s|
  {
    if s != [] {
      var a := s[..|s| - 1];
      assert forall i :: 0 <= i < |a| ==> a[i] == s[i];
      SanitizedClean(a);
      assert Encoded(s[|s| - 1]) == [s[|s| - 1]];
      assert s == a + [s[|s| - 1]];
    }
  }

  lemma {:induction false} SanitizedLength(s: string)
    ensures |Sanitized(s)| == |s| + 2 * DirtyCount(s)
    decreases |s|
  {
    if s != [] {
      SanitizedLength(s[..|s| - 1]);
    }
  }

  function DirtyCount(s: string): nat
  {
    if s == [] then 0 else DirtyCount(s[..|s| - 1]) + (if IsDirty(s[|s| - 1]) then 1 else 0)
  }

  // ---------------------------------------------------------------------------
  // compare_by_date_added_desc
  // ---------------------------------------------------------------------------

  /** The sort key of a bookmark: its date in seconds, 0 when it has none. */
  function DateKey(b: Bookmark): int
  {
    if b.dateAdded.Some? then b.dateAdded.value else 0
  }

  /** `CollectionReader.compare_by_date_added_desc(a, b)`. */
  function CompareByDateAddedDesc(a: Bookmark, b: Bookmark): (r: int)
    ensures r == -1 || r == 0 || r == 1
  {
    var dateA := DateKey(a);
    var dateB := DateKey(b);
    if dateA > dateB then -1
    else if dateA == dateB then
      if Sorting.Below(b.url, a.url) then 1
      else if Sorting.Below(a.url, b.url) then -1
      else 0
    else 1
  }

  /** Later dates first; on equal dates the URLs ascend; only equal dates and URLs tie. */
  lemma CompareMeaning(a: Bookmark, b: Bookmark)
    ensures CompareByDateAddedDesc(a, b) < 0 <==>
      DateKey(a) > DateKey(b) || (DateKey(a) == DateKey(b) && Sorting.Below(a.url, b.url))
    ensures CompareByDateAddedDesc(a, b) == 0 <==> DateKey(a) == DateKey(b) && a.url == b.url
  {
    Sorting.BelowAsymmetric(a.url, b.url);
    Sorting.BelowTotal(a.url, b.url);
    Sorting.BelowIrreflexive(a.url);
  }

  /** The comparison is antisymmetric: swapping the arguments negates it. */
  lemma CompareAntisymmetric(a: Bookmark, b: Bookmark)
    ensures CompareByDateAddedDesc(a, b) == -CompareByDateAddedDesc(b, a)
  {
    Sorting.BelowAsymmetric(a.url, b.url);
    Sorting.BelowTotal(a.url, b.url);
  }

  /** The comparison is transitive, so sorting with it is well defined. */
  lemma CompareTransitive(a: Bookmark, b: Bookmark, c: Bookmark)
    requires CompareByDateAddedDesc(a, b) <= 0 && CompareByDateAddedDesc(b, c) <= 0
    ensures CompareByDateAddedDesc(a, c) <= 0
  {
    CompareMeaning(a, b);
    CompareMeaning(b, c);
    CompareMeaning(a, c);
    if DateKey(a) == DateKey(b) == DateKey(c) && Sorting.Below(a.url, b.url) && Sorting.Below(b.url, c.url) {
      Sorting.BelowTransitive(a.url, b.url, c.url);
    }
  }

  // ---------------------------------------------------------------------------
  // parse_timestamp
  // ---------------------------------------------------------------------------

  /** `CollectionReader.date_formats`, in the order they are tried. */
  const DateFormats: seq<string> :=
    ["%Y-%m-%d %H:%M:%S", "%Y-%m-%d %H:%M", "%Y-%m-%d", "%Y-%m-%d %I:%M:%S %p", "%Y-%m-%d %I:%M %p"]

  /** The first of `formats` under which `strptime` parses `s`. */
  function FirstParsed(s: string, formats: seq<string>, strptime: (string, string) -> Option<PyUtil.DateTime>)
    : Option<PyUtil.DateTime>
  {
    if formats == [] then None
    else if strptime(s, formats[0]).Some? then strptime(s, formats[0])
    else FirstParsed(s, formats[1..], strptime)
  }

  /** `formats[k]` parses `s` and no format before it does. */
  predicate FirstParsingFormat(s: string, formats: seq<string>, strptime: (string, string) -> Option<PyUtil.DateTime>, k: int)
  {
    0 <= k < |formats| && strptime(s, formats[k]).Some? && forall j :: 0 <= j < k ==> strptime(s, formats[j]).None?
  }

  /** `FirstParsed` is the result of the first format that parses, and nothing when none does. */
  lemma {:induction false} FirstParsedMeaning(s: string, formats: seq<string>, strptime: (string, string) -> Option<PyUtil.DateTime>)
    ensures FirstParsed(s, formats, strptime).None? <==> forall k :: 0 <= k < |formats| ==> strptime(s, formats[k]).None?
    ensures FirstParsed(s, formats, strptime).Some? ==>
      exists k :: FirstParsingFormat(s, formats, strptime, k) && FirstParsed(s, formats, strptime) == strptime(s, formats[k])
    decreases |formats|
  {
    if formats != [] && strptime(s, formats[0]).None? {
      var rest := formats[1..];
      FirstParsedMeaning(s, rest, strptime);
      assert forall k :: 1 <= k < |formats| ==> formats[k] == rest[k - 1];
      if FirstParsed(s, rest, strptime).Some? {
        var k :| FirstParsingFormat(s, rest, strptime, k) && FirstParsed(s, rest, strptime) == strptime(s, rest[k]);
        assert FirstParsingFormat(s, formats, strptime, k + 1);
      }
    } else if formats != [] {
      assert FirstParsingFormat(s, formats, strptime, 0);
    }
  }

  /** The message of the `ValueError` raised when no date format fits. */
  function TimeDataMessage(s: string): string
  {
    "time data '" + s + "' does not match format '" + DateFormats[0] + "'"
  }

  /**
   * `parse_timestamp(s)`; `strptime(s, fmt)` is `datetime.strptime`, `None` standing for
   * its `ValueError`.
   */
  method ParseTimestamp(s: string, strptime: (string, string) -> Option<PyUtil.DateTime>)
    returns (r: Result<PyUtil.DateTime, string>)
    ensures r.Success? <==> FirstParsed(s, DateFormats, strptime).Some?
    ensures r.Success? ==> Some(r.value) == FirstParsed(s, DateFormats, strptime)
    ensures r.Failure? ==> r.error == TimeDataMessage(s)
  {
    var i := 0;
    while i < |DateFormats|
      invariant 0 <= i <= |DateFormats|
      invariant FirstParsed(s, DateFormats, strptime) == FirstParsed(s, DateFormats[i..], strptime)
    {
      assert DateFormats[i..][1..] == DateFormats[i + 1..];
      var parsed := strptime(s, DateFormats[i]);
      if parsed.Some? {
        return Success(parsed.value);
      }
      i := i + 1;
    }
    return Failure(TimeDataMessage(s));
  }

  // ---------------------------------------------------------------------------
  // read_bookmarks
  // ---------------------------------------------------------------------------

  /**
   * The members of one bookmark file that are read. A member of another JSON type than
   * a string is `Other`; a `tags` member that is not a list is `None`, as the code
   * ignores it.
   */
  datatype BookmarkJson = BookmarkJson(url: Option<PyUtil.PyTag>, name: Option<PyUtil.PyTag>,
                                       dateAdded: Option<PyUtil.PyTag>, tags: Option<seq<PyUtil.PyTag>>,
                                       notes: Option<PyUtil.PyTag>)

  /** A file met by the walk: the name of its folder, its own name and its parsed content. */
  datatype BookmarkFile = BookmarkFile(parent: string, filename: string, json: BookmarkJson)

  /** `f[:-5]`: the file name without its `.json`. */
  function CutExtension(f: string): string
  {
    if |f| >= 5 then f[..|f| - 5] else ""
  }

  /** The bookmark id of a file: its folder, a slash, its name without `.json`. */
  function BookmarkIdOf(parent: string, filename: string): string
  {
    parent + "/" + CutExtension(filename)
  }

  /** The stripped value of a member that is a string; anything else is ignored. */
  function StrippedString(t: Option<PyUtil.PyTag>): (r: Option<string>)
    ensures r.Some? <==> t.Some? && t.value.PyStr?
  {
    if t.Some? && t.value.PyStr? then Some(Trim(Py, t.value.s)) else None
  }

  /**
   * The bookmark one file yields, or what reading it raises. `utcSeconds` is
   * `int(d.replace(tzinfo=timezone.utc).timestamp())`, the key the bookmark is sorted by.
   */
  function BookmarkOf(f: BookmarkFile, strptime: (string, string) -> Option<PyUtil.DateTime>,
                      utcSeconds: PyUtil.DateTime -> int, slugify: string -> string): Result<Bookmark, Raised>
  {
    var obj := f.json;
    match obj.url
    case None => Failure(MissingKey("url"))
    case Some(Other(_)) => Failure(StripOnNonString)
    case Some(PyStr(u)) =>
      var made := NewBookmark(BookmarkIdOf(f.parent, f.filename), Sanitized(Trim(Py, u)));
      var date := StrippedString(obj.dateAdded);
      var parsed := if date.Some? then FirstParsed(date.value, DateFormats, strptime) else None;
      var tags := if obj.tags.Some? then PyUtil.NormalizedTags(obj.tags.value, slugify) else Success([]);
      if made.Failure? then Failure(PagemarksError(made.error))
      else if date.Some? && parsed.None? then Failure(ValueError(TimeDataMessage(date.value)))
      else if tags.Failure? then Failure(PagemarksError(tags.error))
      else
        Success(made.value.(name := StrippedString(obj.name),
                            dateAdded := if parsed.Some? then Some(utcSeconds(parsed.value)) else None,
                            tags := tags.value,
                            notes := StrippedString(obj.notes)))
  }

  /**
   * What a bookmark read from a file satisfies: its id has the expected length, its URL
   * is at least three characters and carries no `<`, `>` or `"`, its tags are sorted
   * without repeats, and its date is there exactly when the file has a date string.
   */
  lemma BookmarkOfMeaning(f: BookmarkFile, strptime: (string, string) -> Option<PyUtil.DateTime>,
                          utcSeconds: PyUtil.DateTime -> int, slugify: string -> string)
    requires BookmarkOf(f, strptime, utcSeconds, slugify).Success?
    ensures var b := BookmarkOf(f, strptime, utcSeconds, slugify).value;
      && |b.id| == Locate.BookmarkIdLen && b.id == BookmarkIdOf(f.parent, f.filename)
      && |b.url| >= 3 && (forall i :: 0 <= i < |b.url| ==> !IsDirty(b.url[i]))
      && Sorting.Sorted(b.tags) && PyUtil.Distinct(b.tags)
      && (b.dateAdded.Some? <==> f.json.dateAdded.Some? && f.json.dateAdded.value.PyStr?)
      && (b.name.Some? <==> f.json.name.Some? && f.json.name.value.PyStr?)
  {
    SanitizedMeaning(Trim(Py, f.json.url.value.s));
  }

  /**
   * The length check of `Bookmark` sees the sanitised URL: a URL shorter than three
   * characters after stripping is refused unless its `<`, `>` and `"` make it long
   * enough once encoded.
   */
  lemma ShortUrlFails(f: BookmarkFile, strptime: (string, string) -> Option<PyUtil.DateTime>,
                      utcSeconds: PyUtil.DateTime -> int, slugify: string -> string)
    requires f.json.url.Some? && f.json.url.value.PyStr?
    ensures var t := Trim(Py, f.json.url.value.s);
      |t| + 2 * DirtyCount(t) < 3 ==> BookmarkOf(f, strptime, utcSeconds, slugify) == Failure(PagemarksError("empty url"))
    ensures var t := Trim(Py, f.json.url.value.s);
      |t| + 2 * DirtyCount(t) >= 3 && |BookmarkIdOf(f.parent, f.filename)| == Locate.BookmarkIdLen ==>
        NewBookmark(BookmarkIdOf(f.parent, f.filename), Sanitized(t)).Success?
  {
    SanitizedMeaning(Trim(Py, f.json.url.value.s));
  }

  /** The body of the loop of `read_bookmarks` for one file. */
  method ReadBookmark(f: BookmarkFile, strptime: (string, string) -> Option<PyUtil.DateTime>,
                      utcSeconds: PyUtil.DateTime -> int, slugify: string -> string)
    returns (r: Result<Bookmark, Raised>)
    ensures r == BookmarkOf(f, strptime, utcSeconds, slugify)
  {
    var obj := f.json;
    if obj.url.None? {
      return Failure(MissingKey("url"));
    }
    if obj.url.value.Other? {
      return Failure(StripOnNonString);
    }
    var url := SanitizeUrl(Trim(Py, obj.url.value.s));
    var made := NewBookmark(BookmarkIdOf(f.parent, f.filename), url);
    if made.Failure? {
      return Failure(PagemarksError(made.error));
    }
    var bm := made.value;
    if obj.name.Some? && obj.name.value.PyStr? {
      bm := bm.(name := Some(Trim(Py, obj.name.value.s)));
    }
    if obj.dateAdded.Some? && obj.dateAdded.value.PyStr? {
      var parsed := ParseTimestamp(Trim(Py, obj.dateAdded.value.s), strptime);
      if parsed.Failure? {
        return Failure(ValueError(parsed.error));
      }
      bm := bm.(dateAdded := Some(utcSeconds(parsed.value)));
    }
    if obj.tags.Some? {
      var tags := PyUtil.NormalizeTags(obj.tags.value, slugify);
      if tags.Failure? {
        return Failure(PagemarksError(tags.error));
      }
      bm := bm.(tags := tags.value);
    }
    if obj.notes.Some? && obj.notes.value.PyStr? {
      bm := bm.(notes := Some(Trim(Py, obj.notes.value.s)));
    }
    return Success(bm);
  }

  /** The bookmarks of the walked files in walk order, the configuration file skipped; the first error wins. */
  function Collected(files: seq<BookmarkFile>, strptime: (string, string) -> Option<PyUtil.DateTime>,
                     utcSeconds: PyUtil.DateTime -> int, slugify: string -> string): Result<seq<Bookmark>, Raised>
  {
    if files == [] then Success([])
    else
      var before := Collected(files[..|files| - 1], strptime, utcSeconds, slugify);
      var f := files[|files| - 1];
      if before.Failure? || f.filename == CollCfgFilename then before
      else
        var b := BookmarkOf(f, strptime, utcSeconds, slugify);
        if b.Failure? then Failure(b.error) else Success(before.value + [b.value])
  }

  /** Every collected bookmark comes from one of the files, in the same order of files. */
  lemma {:induction false} CollectedCount(files: seq<BookmarkFile>, strptime: (string, string) -> Option<PyUtil.DateTime>,
                                          utcSeconds: PyUtil.DateTime -> int, slugify: string -> string)
    requires Collected(files, strptime, utcSeconds, slugify).Success?
    ensures |Collected(files, strptime, utcSeconds, slugify).value| == NonConfigCount(files)
    ensures forall b :: b in Collected(files, strptime, utcSeconds, slugify).value ==>
      exists i :: 0 <= i < |files| && files[i].filename != CollCfgFilename
                  && BookmarkOf(files[i], strptime, utcSeconds, slugify) == Success(b)
    decreases |files|
  {
    if files != [] {
      var p := files[..|files| - 1];
      CollectedCount(p, strptime, utcSeconds, slugify);
      forall b | b in Collected(files, strptime, utcSeconds, slugify).value
        ensures exists i :: 0 <= i < |files| && files[i].filename != CollCfgFilename
                            && BookmarkOf(files[i], strptime, utcSeconds, slugify) == Success(b)
      {
        if b in Collected(p, strptime, utcSeconds, slugify).value {
          var i :| 0 <= i < |p| && p[i].filename != CollCfgFilename
                   && BookmarkOf(p[i], strptime, utcSeconds, slugify) == Success(b);
          assert files[i] == p[i];
        } else {
          assert BookmarkOf(files[|files| - 1], strptime, utcSeconds, slugify) == Success(b);
        }
      }
    }
  }

  /** The number of walked files that are not the configuration file. */
  function NonConfigCount(files: seq<BookmarkFile>): nat
  {
    if files == [] then 0
    else NonConfigCount(files[..|files| - 1]) + (if files[|files| - 1].filename == CollCfgFilename then 0 else 1)
  }

  /** Newest first, then by URL: the order `compare_by_date_added_desc` asks for. */
  predicate NewestFirst(s: seq<Bookmark>)
  {
    forall i, j :: 0 <= i < j < |s| ==> CompareByDateAddedDesc(s[i], s[j]) <= 0
  }

  /** `s` with `x` inserted before the first bookmark it does not come after. */
  function InsertByDate(x: Bookmark, s: seq<Bookmark>): (r: seq<Bookmark>)
    requires NewestFirst(s)
    ensures NewestFirst(r)
    ensures multiset(r) == multiset(s) + multiset{x}
  {
    if s == [] then [x]
    else if CompareByDateAddedDesc(x, s[0]) <= 0 then
      InsertInFront(x, s);
      [x] + s
    else
      var t := InsertByDate(x, s[1..]);
      CompareAntisymmetric(x, s[0]);
      InsertAfterFirst(s[0], x, s[1..], t);
      HeadMultiset(s, t, x);
      [s[0]] + t
  }

  /** A bookmark no later than the first of a sorted list goes in front of it. */
  lemma InsertInFront(x: Bookmark, s: seq<Bookmark>)
    requires NewestFirst(s) && |s| > 0 && CompareByDateAddedDesc(x, s[0]) <= 0
    ensures NewestFirst([x] + s)
  {
    forall j | 0 < j < |s| ensures CompareByDateAddedDesc(x, s[j]) <= 0 {
      CompareTransitive(x, s[0], s[j]);
    }
    assert forall j :: 0 < j < |[x] + s| ==> ([x] + s)[j] == s[j - 1];
  }

  lemma HeadMultiset(s: seq<Bookmark>, t: seq<Bookmark>, x: Bookmark)
    requires |s| > 0 && multiset(t) == multiset(s[1..]) + multiset{x}
    ensures multiset([s[0]] + t) == multiset(s) + multiset{x}
  {
    assert s == [s[0]] + s[1..];
  }

  lemma InsertAfterFirst(y: Bookmark, x: Bookmark, s: seq<Bookmark>, t: seq<Bookmark>)
    requires NewestFirst(t) && CompareByDateAddedDesc(y, x) <= 0
    requires forall j :: 0 <= j < |s| ==> CompareByDateAddedDesc(y, s[j]) <= 0
    requires multiset(t) == multiset(s) + multiset{x}
    ensures NewestFirst([y] + t)
  {
    forall j | 0 <= j < |t|
      ensures CompareByDateAddedDesc(y, t[j]) <= 0
    {
      assert t[j] in multiset(t);
      if t[j] != x {
        assert t[j] in multiset(s);
        var k :| 0 <= k < |s| && s[k] == t[j];
      }
    }
    assert forall j :: 0 < j < |[y] + t| ==> ([y] + t)[j] == t[j - 1];
  }

  /** `list.sort(key=cmp_to_key(compare_by_date_added_desc))`, as insertion sort. */
  function SortByDateAddedDesc(s: seq<Bookmark>): (r: seq<Bookmark>)
    ensures NewestFirst(r)
    ensures multiset(r) == multiset(s)
  {
    if s == [] then []
    else
      assert s == s[..|s| - 1] + [s[|s| - 1]];
      InsertByDate(s[|s| - 1], SortByDateAddedDesc(s[..|s| - 1]))
  }

  /** What `read_bookmarks` returns for the files of the walk. */
  function BookmarksOf(files: seq<BookmarkFile>, strptime: (string, string) -> Option<PyUtil.DateTime>,
                       utcSeconds: PyUtil.DateTime -> int, slugify: string -> string): Result<seq<Bookmark>, Raised>
  {
    var c := Collected(files, strptime, utcSeconds, slugify);
    if c.Failure? then c else Success(SortByDateAddedDesc(c.value))
  }

  /**
   * `CollectionReader.read_bookmarks()`, the walk given as the sequence of files it
   * meets: every file but the configuration yields one bookmark, and the list comes
   * back newest first.
   */
  method ReadBookmarks(files: seq<BookmarkFile>, strptime: (string, string) -> Option<PyUtil.DateTime>,
                       utcSeconds: PyUtil.DateTime -> int, slugify: string -> string)
    returns (r: Result<seq<Bookmark>, Raised>)
    ensures r == BookmarksOf(files, strptime, utcSeconds, slugify)
    ensures r.Success? ==> NewestFirst(r.value) && |r.value| == NonConfigCount(files)
  {
    var result: seq<Bookmark> := [];
    var i := 0;
    while i < |files|
      invariant 0 <= i <= |files|
      invariant Collected(files[..i], strptime, utcSeconds, slugify) == Success(result)
    {
      CollectedStep(files, i, strptime, utcSeconds, slugify);
      var f := files[i];
      if f.filename != CollCfgFilename {
        var bm := ReadBookmark(f, strptime, utcSeconds, slugify);
        if bm.Failure? {
          CollectedStays(files, i + 1, strptime, utcSeconds, slugify);
          return Failure(bm.error);
        }
        result := result + [bm.value];
      }
      i := i + 1;
    }
    assert files[..i] == files;
    CollectedCount(files, strptime, utcSeconds, slugify);
    var sorted := SortByDateAddedDesc(result);
    assert |sorted| == |multiset(sorted)| == |multiset(result)| == |result|;
    return Success(sorted);
  }

  /** One more file of the walk: skipped when it is the configuration, otherwise read. */
  lemma CollectedStep(files: seq<BookmarkFile>, i: nat, strptime: (string, string) -> Option<PyUtil.DateTime>,
                      utcSeconds: PyUtil.DateTime -> int, slugify: string -> string)
    requires i < |files|
    ensures var before := Collected(files[..i], strptime, utcSeconds, slugify);
      var b := BookmarkOf(files[i], strptime, utcSeconds, slugify);
      Collected(files[..i + 1], strptime, utcSeconds, slugify)
        == if before.Failure? || files[i].filename == CollCfgFilename then before
           else if b.Failure? then Failure(b.error) else Success(before.value + [b.value])
  {
    assert files[..i + 1][..i] == files[..i];
  }

  /** Once reading a file has failed, the walk's result is that failure. */
  lemma {:induction false} CollectedStays(files: seq<BookmarkFile>, n: nat, strptime: (string, string) -> Option<PyUtil.DateTime>,
                                          utcSeconds: PyUtil.DateTime -> int, slugify: string -> string)
    requires n <= |files| && Collected(files[..n], strptime, utcSeconds, slugify).Failure?
    ensures Collected(files, strptime, utcSeconds, slugify) == Collected(files[..n], strptime, utcSeconds, slugify)
    decreases |files| - n
  {
    if n < |files| {
      assert files[..n + 1][..n] == files[..n];
      CollectedStays(files, n + 1, strptime, utcSeconds, slugify);
    } else {
      assert files[..n] == files;
    }
  }

  // ---------------------------------------------------------------------------
  // Paths and names
  // ---------------------------------------------------------------------------

  /** The position after the last `/` of `p`, 0 when there is none. */
  function BaseStart(p: string): (k: nat)
    ensures k <= |p|
    ensures forall i :: k <= i < |p| ==> p[i] != '/'
    ensures k > 0 ==> p[k - 1] == '/'
  {
    if p == [] then 0
    else if p[|p| - 1] == '/' then |p|
    else BaseStart(p[..|p| - 1])
  }

  /** `os.path.basename(p)`. */
  function Basename(p: string): (r: string)
    ensures forall i :: 0 <= i < |r| ==> r[i] != '/'
  {
    p[BaseStart(p)..]
  }

  /** `os.path.join(a, b)` for a relative `b`. */
  function JoinPath(a: string, b: string): string
  {
    if a == [] then b else if a[|a| - 1] == '/' then a + b else a + "/" + b
  }

  predicate IsNameChar(c: char)
  {
    IsLower(c) || IsDigit(c) || c == '_' || c == '-'
  }

  /** `[a-z][a-z0-9_-]+` over all of `n`. */
  predicate NameBody(n: string)
  {
    |n| >= 2 && IsLower(n[0]) && forall i :: 1 <= i < |n| ==> IsNameChar(n[i])
  }

  /**
   * `re.match('^[a-z][a-z0-9_-]+$', n) is not None`: Python's `$` also matches before a
   * newline that ends the string.
   */
  predicate NameRule(n: string)
  {
    NameBody(n) || (|n| > 0 && n[|n| - 1] == '\n' && NameBody(n[..|n| - 1]))
  }

  /** `Repo.is_collection(coll_path)`; `isDir` and `isFile` are the file-system tests. */
  predicate IsCollection(collPath: string, isDir: string -> bool, isFile: string -> bool)
  {
    NameRule(Basename(collPath)) && isDir(collPath) && isFile(JoinPath(collPath, CollCfgFilename))
  }

  /**
   * The name rule wants at least two characters, starting with a lower-case letter;
   * upper case, dots and spaces are refused; a single trailing newline slips through.
   */
  lemma NameRuleMeaning(n: string)
    ensures NameRule(n) ==> |n| >= 2 && IsLower(n[0])
    ensures NameRule(n) && (forall i :: 0 <= i < |n| ==> n[i] != '\n') ==> NameBody(n)
    ensures NameBody(n) ==> NameRule(n)
    ensures NameRule(n + "\n") <==> NameBody(n)
  {
    var m := n + "\n";
    assert m[..|m| - 1] == n;
    assert !NameBody(m) by {
      assert !IsNameChar(m[|m| - 1]);
    }
  }

  /** `Collection.is_default()`. */
  predicate IsDefault(name: string)
  {
    name == DefaultCollName
  }

  /** `Collection.get_file_basename()`. */
  function FileBasename(name: string): (r: string)
    ensures r == "index" <==> IsDefault(name) || name == "index"
  {
    if IsDefault(name) then "index" else name
  }

  /** `Collection.get_htmlname()`. */
  function HtmlName(name: string): string
  {
    FileBasename(name) + ".html"
  }

  /** `Collection.get_tags_filename()`. */
  function TagsFilename(name: string): string
  {
    "tags-" + FileBasename(name) + ".js"
  }

  /**
   * Different collections get different page and tag files, with one exception: a
   * collection named `index`, which the name rule admits, shares both files with the
   * default collection.
   */
  lemma FileNamesDistinct(a: string, b: string)
    ensures HtmlName(a) == HtmlName(b) <==> FileBasename(a) == FileBasename(b)
    ensures TagsFilename(a) == TagsFilename(b) <==> FileBasename(a) == FileBasename(b)
    ensures FileBasename(a) == FileBasename(b) <==> a == b || ({a, b} == {DefaultCollName, "index"})
    ensures NameRule("index") && NameRule(DefaultCollName) && HtmlName("index") == HtmlName(DefaultCollName)
  {
    var x := FileBasename(a);
    var y := FileBasename(b);
    if HtmlName(a) == HtmlName(b) {
      assert (x + ".html")[..|x|] == x && (y + ".html")[..|y|] == y;
    }
    if TagsFilename(a) == TagsFilename(b) {
      assert |x| == |y|;
      assert ("tags-" + x + ".js")[5..5 + |x|] == x && ("tags-" + y + ".js")[5..5 + |y|] == y;
    }
    if a != b && x == y {
      assert x == "index" || (!IsDefault(a) && !IsDefault(b));
    }
  }

  // ---------------------------------------------------------------------------
  // Collection
  // ---------------------------------------------------------------------------

  /**
   * The parts of a collection's `pagemarks.json` that are checked: `title` and
   * `pinned-filters`, each `None` when absent; a `pinned-filters` that is not a list
   * counts as absent, as the code ignores it.
   */
  datatype CollConfig = CollConfig(title: Option<PyUtil.PyTag>, pinned: Option<seq<PyUtil.PyTag>>)

  /** The title `read_collection_config` stores, or what it raises. */
  function TitleOf(config: CollConfig, name: string): (r: Result<string, Raised>)
    ensures r.Success? ==> |r.value| > 0 && Trim(Py, r.value) == r.value
    ensures r.Success? <==> config.title.Some? && config.title.value.PyStr? && |Trim(Py, config.title.value.s)| > 0
  {
    match config.title
    case None => Failure(PagemarksError("Collection '" + name + "' is missing the 'title' attribute"))
    case Some(Other(_)) => Failure(StripOnNonString)
    case Some(PyStr(t)) =>
      if |Trim(Py, t)| > 0 then (TrimIdempotent(Py, t); Success(Trim(Py, t)))
      else Failure(PagemarksError("Collection '" + name + "' is missing the 'title' attribute"))
  }

  predicate AllStrings(filters: seq<PyUtil.PyTag>)
  {
    forall i :: 0 <= i < |filters| ==> filters[i].PyStr?
  }

  /** The position of the first filter that is not a string, `|filters|` when there is none. */
  function FirstOther(filters: seq<PyUtil.PyTag>): (k: nat)
    ensures k <= |filters|
    ensures forall j :: 0 <= j < k ==> filters[j].PyStr?
    ensures k < |filters| ==> filters[k].Other?
    ensures k == |filters| <==> AllStrings(filters)
  {
    if filters == [] then 0
    else if filters[0].Other? then 0
    else
      var k := FirstOther(filters[1..]);
      assert forall j :: 1 <= j < 1 + k ==> filters[j] == filters[1..][j - 1];
      1 + k
  }

  /** The stripped filters, every one a string. */
  function Stripped(filters: seq<PyUtil.PyTag>): (r: seq<string>)
    requires AllStrings(filters)
    ensures |r| == |filters|
    ensures forall i :: 0 <= i < |r| ==> r[i] == Trim(Py, filters[i].s)
  {
    if filters == [] then []
    else Stripped(filters[..|filters| - 1]) + [Trim(Py, filters[|filters| - 1].s)]
  }

  /** The stripped pinned filters appended before the first one that is not a string. */
  function PinnedPrefix(filters: seq<PyUtil.PyTag>): (r: seq<string>)
    ensures |r| <= |filters|
    ensures forall i :: 0 <= i < |r| ==> filters[i].PyStr? && r[i] == Trim(Py, filters[i].s)
    ensures |r| == |filters| <==> AllStrings(filters)
    ensures |r| < |filters| ==> filters[|r|].Other?
  {
    Stripped(filters[..FirstOther(filters)])
  }

  /** The first non-string filter is found where the strings end. */
  lemma FirstOtherAt(filters: seq<PyUtil.PyTag>, i: nat)
    requires i <= |filters| && forall j :: 0 <= j < i ==> filters[j].PyStr?
    requires i < |filters| ==> filters[i].Other?
    ensures FirstOther(filters) == i
  {
  }

  /**
   * The class attributes of `Collection`. `pinned_filters` is declared once for the
   * class and `read_collection_config` appends to it through `self`, so every
   * collection reads and extends the same list.
   */
  class ClassLists {
    var pinnedFilters: seq<string>

    constructor ()
      ensures pinnedFilters == []
    {
      pinnedFilters := [];
    }

    /** The loop of `read_collection_config` over `pinned-filters`; false where it raises. */
    method AppendPinned(filters: seq<PyUtil.PyTag>) returns (ok: bool)
      modifies this
      ensures pinnedFilters == old(pinnedFilters) + PinnedPrefix(filters)
      ensures ok <==> AllStrings(filters)
    {
      var i := 0;
      while i < |filters|
        invariant 0 <= i <= |filters|
        invariant forall j :: 0 <= j < i ==> filters[j].PyStr?
        invariant pinnedFilters == old(pinnedFilters) + Stripped(filters[..i])
      {
        if filters[i].Other? {
          FirstOtherAt(filters, i);
          return false;
        }
        assert filters[..i + 1][..i] == filters[..i];
        pinnedFilters := pinnedFilters + [Trim(Py, filters[i].s)];
        i := i + 1;
      }
      FirstOtherAt(filters, i);
      return true;
    }
  }

  class Collection {
    const collDir: string
    const name: string := Basename(collDir)
    const lists: ClassLists
    var title: string
    var bookmarks: seq<Bookmark>
    var bookmarksRead: bool

    /** The attribute assignments of `Collection.__init__` before it reads the configuration. */
    constructor (collDir: string, lists: ClassLists)
      ensures this.collDir == collDir && this.lists == lists
      ensures bookmarks == [] && !bookmarksRead && title == ""
    {
      this.collDir := collDir;
      this.lists := lists;
      title := "";
      bookmarks := [];
      bookmarksRead := false;
    }

    /**
     * `read_collection_config()` with the parsed file `config`. The filters before a
     * non-string one stay appended when it raises.
     */
    method ReadCollectionConfig(config: CollConfig) returns (r: Result<(), Raised>)
      modifies this, lists
      ensures TitleOf(config, name).Failure? ==>
        && r == Failure(TitleOf(config, name).error)
        && title == old(title) && lists.pinnedFilters == old(lists.pinnedFilters)
      ensures TitleOf(config, name).Success? ==>
        && title == TitleOf(config, name).value
        && (config.pinned.None? ==> r == Success(()) && lists.pinnedFilters == old(lists.pinnedFilters))
        && (config.pinned.Some? ==>
              && lists.pinnedFilters == old(lists.pinnedFilters) + PinnedPrefix(config.pinned.value)
              && (r.Success? <==> AllStrings(config.pinned.value))
              && (r.Failure? ==> r.error == PagemarksError("Pinned filter is not a string in " + JoinPath(collDir, CollCfgFilename))))
      ensures bookmarks == old(bookmarks) && bookmarksRead == old(bookmarksRead)
    {
      var configPath := JoinPath(collDir, CollCfgFilename);
      var t := TitleOf(config, name);
      if t.Failure? {
        return Failure(t.error);
      }
      title := t.value;
      if config.pinned.Some? {
        var ok := lists.AppendPinned(config.pinned.value);
        if !ok {
          return Failure(PagemarksError("Pinned filter is not a string in " + configPath));
        }
      }
      return Success(());
    }

    /** `populate()`: the collection's files are read; nothing changes when reading raises. */
    method Populate(files: seq<BookmarkFile>, strptime: (string, string) -> Option<PyUtil.DateTime>,
                    utcSeconds: PyUtil.DateTime -> int, slugify: string -> string)
      returns (r: Result<(), Raised>)
      modifies this
      ensures r.Success? <==> BookmarksOf(files, strptime, utcSeconds, slugify).Success?
      ensures r.Success? ==> bookmarks == BookmarksOf(files, strptime, utcSeconds, slugify).value && bookmarksRead
      ensures r.Failure? ==> r.error == BookmarksOf(files, strptime, utcSeconds, slugify).error
                             && bookmarks == old(bookmarks) && bookmarksRead == old(bookmarksRead)
      ensures title == old(title)
    {
      var read := ReadBookmarks(files, strptime, utcSeconds, slugify);
      if read.Failure? {
        return Failure(read.error);
      }
      bookmarks := read.value;
      bookmarksRead := true;
      return Success(());
    }

    /** `is_empty()`: an error before `populate` has run. */
    method IsEmpty() returns (r: Result<bool, Raised>)
      ensures bookmarksRead ==> r == Success(|bookmarks| == 0)
      ensures !bookmarksRead ==> r == Failure(PagemarksError("Bug: Collection '" + name + "' not populated yet."))
    {
      if bookmarksRead {
        return Success(|bookmarks| < 1);
      }
      return Failure(PagemarksError("Bug: Collection '" + name + "' not populated yet."));
    }
  }

  /** `Collection(coll_dir)`: the object is made, then its configuration read. */
  method NewCollection(collDir: string, config: CollConfig, lists: ClassLists) returns (r: Result<Collection, Raised>)
    modifies lists
    ensures r.Success? <==> TitleOf(config, Basename(collDir)).Success? && (config.pinned.Some? ==> AllStrings(config.pinned.value))
    ensures r.Success? ==>
      && fresh(r.value) && r.value.collDir == collDir && r.value.lists == lists
      && r.value.title == TitleOf(config, Basename(collDir)).value && !r.value.bookmarksRead
    ensures TitleOf(config, Basename(collDir)).Success? && config.pinned.Some? ==>
      lists.pinnedFilters == old(lists.pinnedFilters) + PinnedPrefix(config.pinned.value)
    ensures TitleOf(config, Basename(collDir)).Failure? || config.pinned.None? ==>
      lists.pinnedFilters == old(lists.pinnedFilters)
    ensures TitleOf(config, Basename(collDir)).Failure? ==> r == Failure(TitleOf(config, Basename(collDir)).error)
    ensures TitleOf(config, Basename(collDir)).Success? && r.Failure? ==>
      r.error == PagemarksError("Pinned filter is not a string in " + JoinPath(collDir, CollCfgFilename))
  {
    var coll := new Collection(collDir, lists);
    var read := coll.ReadCollectionConfig(config);
    if read.Failure? {
      return Failure(read.error);
    }
    return Success(coll);
  }

  /**
   * The pinned filters leak from one collection to the next: after reading two valid
   * configurations the second collection's `pinned_filters` holds the first one's
   * filters followed by its own.
   */
  method SharedPinnedFilters(dirA: string, configA: CollConfig, dirB: string, configB: CollConfig)
    returns (a: Collection, b: Collection)
    requires TitleOf(configA, Basename(dirA)).Success? && configA.pinned.Some? && AllStrings(configA.pinned.value)
    requires TitleOf(configB, Basename(dirB)).Success? && configB.pinned.Some? && AllStrings(configB.pinned.value)
    ensures a.lists == b.lists
    ensures b.lists.pinnedFilters == PinnedPrefix(configA.pinned.value) + PinnedPrefix(configB.pinned.value)
  {
    var lists := new ClassLists();
    var ra := NewCollection(dirA, configA, lists);
    assert ra.Success?;
    var afterA := lists.pinnedFilters;
    assert afterA == PinnedPrefix(configA.pinned.value);
    var rb := NewCollection(dirB, configB, lists);
    assert rb.Success?;
    assert lists.pinnedFilters == afterA + PinnedPrefix(configB.pinned.value);
    a, b := ra.value, rb.value;
  }

  /**
   * `Collection(coll_dir)` as evidently intended: every collection starts with a list of
   * pinned filters of its own, holding exactly the filters of its configuration.
   */
  method NewOwnCollection(collDir: string, config: CollConfig) returns (r: Result<Collection, Raised>)
    ensures r.Success? <==> TitleOf(config, Basename(collDir)).Success? && (config.pinned.Some? ==> AllStrings(config.pinned.value))
    ensures r.Success? ==>
      && fresh(r.value) && fresh(r.value.lists) && r.value.collDir == collDir
      && r.value.title == TitleOf(config, Basename(collDir)).value && !r.value.bookmarksRead
      && r.value.lists.pinnedFilters == OwnFilters(config)
  {
    var lists := new ClassLists();
    r := NewCollection(collDir, config, lists);
  }

  /** The stripped pinned filters of a configuration, none when it has none. */
  function OwnFilters(config: CollConfig): seq<string> {
    if config.pinned.Some? then PinnedPrefix(config.pinned.value) else []
  }

  /**
   * With a list per collection the filters no longer leak: after reading two valid
   * configurations each collection holds exactly its own filters.
   */
  method SeparatePinnedFilters(dirA: string, configA: CollConfig, dirB: string, configB: CollConfig)
    returns (a: Collection, b: Collection)
    requires TitleOf(configA, Basename(dirA)).Success? && (configA.pinned.Some? ==> AllStrings(configA.pinned.value))
    requires TitleOf(configB, Basename(dirB)).Success? && (configB.pinned.Some? ==> AllStrings(configB.pinned.value))
    ensures a.lists != b.lists
    ensures a.lists.pinnedFilters == OwnFilters(configA)
    ensures b.lists.pinnedFilters == OwnFilters(configB)
  {
    var ra := NewOwnCollection(dirA, configA);
    var rb := NewOwnCollection(dirB, configB);
    a, b := ra.value, rb.value;
  }

  // ---------------------------------------------------------------------------
  // Repo
  // ---------------------------------------------------------------------------

  class Repo {
    var collections: seq<Collection>
    const lists: ClassLists

    /** `Repo(None)`: a repo without collections. */
    constructor (lists: ClassLists)
      ensures collections == [] && this.lists == lists
    {
      collections := [];
      this.lists := lists;
    }

    /** `add_collection(coll_dir)`: a directory already present is refused, otherwise exactly one collection is appended. */
    method AddCollection(collDir: string, config: CollConfig) returns (r: Result<Collection, Raised>)
      modifies this, lists
      ensures (exists i :: 0 <= i < |old(collections)| && old(collections)[i].collDir == collDir) ==>
        && r == Failure(PagemarksError("Collection '" + Basename(collDir) + "' already exists"))
        && collections == old(collections) && lists.pinnedFilters == old(lists.pinnedFilters)
      ensures (forall i :: 0 <= i < |old(collections)| ==> old(collections)[i].collDir != collDir) ==>
        && (r.Success? <==> TitleOf(config, Basename(collDir)).Success? && (config.pinned.Some? ==> AllStrings(config.pinned.value)))
        && (r.Success? ==> fresh(r.value) && r.value.collDir == collDir && collections == old(collections) + [r.value])
        && (r.Success? ==> r.value.title == TitleOf(config, Basename(collDir)).value
                           && r.value.lists == lists && !r.value.bookmarksRead)
        && (r.Failure? ==> collections == old(collections))
        && (TitleOf(config, Basename(collDir)).Failure? ==> r == Failure(TitleOf(config, Basename(collDir)).error))
        && (TitleOf(config, Basename(collDir)).Success? && config.pinned.Some? ==>
              lists.pinnedFilters == old(lists.pinnedFilters) + PinnedPrefix(config.pinned.value))
        && (TitleOf(config, Basename(collDir)).Failure? || config.pinned.None? ==>
              lists.pinnedFilters == old(lists.pinnedFilters))
    {
      var i := 0;
      while i < |collections|
        invariant 0 <= i <= |collections|
        invariant forall j :: 0 <= j < i ==> collections[j].collDir != collDir
      {
        if collections[i].collDir == collDir {
          return Failure(PagemarksError("Collection '" + collections[i].name + "' already exists"));
        }
        i := i + 1;
      }
      var coll := NewCollection(collDir, config, lists);
      if coll.Success? {
        collections := collections + [coll.value];
      }
      return coll;
    }
  }
}
