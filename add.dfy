/**
 * The `add` command of the command line (pagemarks/commands/add.py): the record it
 * builds for a new bookmark, `clean_nones`, the tag-list encoder, `to_json` with the
 * post-processing that puts the tag list on one line, the commit message and the
 * decision whether an existing bookmark file is overwritten.
 */
module AddCommand {

  import opened Wrappers
  import opened Text
  import PyUtil
  import Sorting
  import JsonText
  import RecordText
  import JsValues
  import EditDialog
  import Repository

  // ---------------------------------------------------------------------------
  // The record (`execute`, lines 71-84)
  // ---------------------------------------------------------------------------

  /** A value of the record dictionary: a string, a `JsonTagList`, or `None`. */
  datatype PyVal = PStr(s: string) | PTags(tags: seq<string>) | PNone

  /** A dictionary, as its items in insertion order. */
  type Entry = (string, PyVal)

  function Keys(r: seq<Entry>): (ks: seq<string>)
    ensures |ks| == |r|
    ensures forall i :: 0 <= i < |r| ==> ks[i] == r[i].0
  {
    if r == [] then [] else [r[0].0] + Keys(r[1..])
  }

  /** `record[k]`, or `None` when the key is absent. */
  function Get(r: seq<Entry>, k: string): (v: Option<PyVal>)
    ensures v.Some? <==> k in Keys(r)
  {
    if r == [] then None else if r[0].0 == k then Some(r[0].1) else Get(r[1..], k)
  }

  /** The tags as the command line hands them to `normalize_tags`: all strings. */
  function CommandLineRaw(rawTags: seq<string>): (raw: seq<PyUtil.PyTag>)
    ensures |raw| == |rawTags|
    ensures forall i :: 0 <= i < |raw| ==> raw[i] == PyUtil.PyStr(rawTags[i])
  {
    seq(|rawTags|, i requires 0 <= i < |rawTags| => PyUtil.PyStr(rawTags[i]))
  }

  /** `normalize_tags(self.tags)`: command-line tags are strings, so normalising them never fails. */
  function CommandLineTags(rawTags: seq<string>, slugify: string -> string): (tags: seq<string>)
    ensures PyUtil.NormalizedTags(CommandLineRaw(rawTags), slugify) == Success(tags)
  {
    PyUtil.SlugsOfStrings(CommandLineRaw(rawTags), slugify);
    PyUtil.NormalizedTags(CommandLineRaw(rawTags), slugify).value
  }

  /**
   * The tags of a new bookmark are sorted, without repetitions, and are exactly the slugs
   * of the non-blank comma-separated pieces of the tags given on the command line.
   */
  lemma CommandLineTagsMeaning(rawTags: seq<string>, slugify: string -> string)
    ensures var tags := CommandLineTags(rawTags, slugify);
      && Sorting.Sorted(tags) && PyUtil.Distinct(tags)
      && forall x :: x in tags <==> PyUtil.IsSlugOfSome(x, CommandLineRaw(rawTags), slugify)
  {
    var raw := CommandLineRaw(rawTags);
    var tags := CommandLineTags(rawTags, slugify);
    PyUtil.SlugsOfStrings(raw, slugify);
    assert forall x :: x in tags <==> x in PyUtil.Elems(tags);
    assert forall x :: x in Slugs(raw, slugify).value <==> x in PyUtil.Elems(Slugs(raw, slugify).value);
  }

  function Slugs(raw: seq<PyUtil.PyTag>, slugify: string -> string): Result<seq<string>, string>
  {
    PyUtil.Slugs(raw, slugify)
  }

  function NamePart(name: Option<string>): seq<Entry>
  {
    if name.Some? then [("name", PStr(name.value))] else []
  }

  function TagsPart(tags: seq<string>): seq<Entry>
  {
    if |tags| > 0 then [("tags", PTags(tags))] else []
  }

  function NotesPart(notes: Option<string>): seq<Entry>
  {
    if notes.Some? then [("notes", PStr(notes.value))] else []
  }

  /** The record `execute` builds, in the order it inserts the keys. */
  function RecordOf(name: Option<string>, url: string, tags: seq<string>, date: string, notes: Option<string>): seq<Entry>
  {
    NamePart(name) + [("url", PStr(url))] + TagsPart(tags) + [("date_added", PStr(date))] + NotesPart(notes)
  }

  /** No key is repeated. */
  predicate DistinctKeys(r: seq<Entry>)
  {
    forall i, j :: 0 <= i < j < |r| ==> r[i].0 != r[j].0
  }

  lemma KeysAppend(a: seq<Entry>, b: seq<Entry>)
    ensures Keys(a + b) == Keys(a) + Keys(b)
  {
    assert |Keys(a + b)| == |Keys(a) + Keys(b)|;
    forall i | 0 <= i < |a + b|
      ensures Keys(a + b)[i] == (Keys(a) + Keys(b))[i]
    {
      if i < |a| {
        assert (a + b)[i] == a[i];
      } else {
        assert (a + b)[i] == b[i - |a|];
      }
    }
  }

  /** A key of the first part is found there; any other key in the second part. */
  lemma {:induction false} GetAppend(a: seq<Entry>, b: seq<Entry>, k: string)
    ensures Get(a + b, k) == if k in Keys(a) then Get(a, k) else Get(b, k)
    decreases |a|
  {
    if a != [] {
      assert (a + b)[1..] == a[1..] + b;
      GetAppend(a[1..], b, k);
      assert Keys(a) == [a[0].0] + Keys(a[1..]);
    } else {
      assert a + b == b;
    }
  }

  /** The keys of the record, in the order name, url, tags, date_added, notes. */
  function RecordKeys(name: Option<string>, tags: seq<string>, notes: Option<string>): seq<string>
  {
    (if name.Some? then ["name"] else []) + ["url"] + (if |tags| > 0 then ["tags"] else [])
    + ["date_added"] + (if notes.Some? then ["notes"] else [])
  }

  lemma RecordKeysOf(name: Option<string>, url: string, tags: seq<string>, date: string, notes: Option<string>)
    ensures Keys(RecordOf(name, url, tags, date, notes)) == RecordKeys(name, tags, notes)
  {
    var a := NamePart(name);
    var b := [("url", PStr(url))];
    var c := TagsPart(tags);
    var d := [("date_added", PStr(date))];
    var e := NotesPart(notes);
    KeysAppend(a, b);
    KeysAppend(a + b, c);
    KeysAppend(a + b + c, d);
    KeysAppend(a + b + c + d, e);
  }

  /**
   * `url` and `date_added` are always present; `tags` only when the normalised list is
   * not empty; `name` and `notes` only when the page gave them; no key is repeated and
   * no value is `None`.
   */
  lemma RecordMeaning(name: Option<string>, url: string, tags: seq<string>, date: string, notes: Option<string>)
    ensures var r := RecordOf(name, url, tags, date, notes);
      && Keys(r) == RecordKeys(name, tags, notes)
      && DistinctKeys(r)
      && (forall i :: 0 <= i < |r| ==> r[i].1 != PNone)
      && Get(r, "url") == Some(PStr(url))
      && Get(r, "date_added") == Some(PStr(date))
      && Get(r, "name") == (if name.Some? then Some(PStr(name.value)) else None)
      && Get(r, "tags") == (if |tags| > 0 then Some(PTags(tags)) else None)
      && Get(r, "notes") == (if notes.Some? then Some(PStr(notes.value)) else None)
  {
    RecordKeysOf(name, url, tags, date, notes);
    RecordDistinct(name, url, tags, date, notes);
    RecordGets(name, url, tags, date, notes);
    RecordValuesPresent(name, url, tags, date, notes);
  }

  lemma RecordValuesPresent(name: Option<string>, url: string, tags: seq<string>, date: string, notes: Option<string>)
    ensures var r := RecordOf(name, url, tags, date, notes); forall i :: 0 <= i < |r| ==> r[i].1 != PNone
  {
    var r := RecordOf(name, url, tags, date, notes);
    forall i | 0 <= i < |r|
      ensures r[i].1 != PNone
    {
      var n, t := |NamePart(name)|, |TagsPart(tags)|;
      if i < n {
        assert r[i] == NamePart(name)[i];
      } else if i == n {
        assert r[i] == ("url", PStr(url));
      } else if i < n + 1 + t {
        assert r[i] == TagsPart(tags)[i - n - 1];
      } else if i == n + 1 + t {
        assert r[i] == ("date_added", PStr(date));
      } else {
        assert r[i] == NotesPart(notes)[i - n - 2 - t];
      }
    }
  }

  lemma RecordDistinct(name: Option<string>, url: string, tags: seq<string>, date: string, notes: Option<string>)
    ensures DistinctKeys(RecordOf(name, url, tags, date, notes))
  {
    var r := RecordOf(name, url, tags, date, notes);
    RecordKeysOf(name, url, tags, date, notes);
    var ks := RecordKeys(name, tags, notes);
    RecordKeysDistinct(name, tags, notes);
    forall i, j | 0 <= i < j < |r|
      ensures r[i].0 != r[j].0
    {
      assert r[i].0 == ks[i] && r[j].0 == ks[j];
    }
  }

  /** The keys of a record: some of the five different keys, each at most once. */
  lemma RecordKeysDistinct(name: Option<string>, tags: seq<string>, notes: Option<string>)
    ensures var ks := RecordKeys(name, tags, notes);
      forall i, j :: 0 <= i < j < |ks| ==> ks[i] != ks[j]
  {
    var ks := RecordKeys(name, tags, notes);
    var n := if name.Some? then ["name"] else [];
    var t := if |tags| > 0 then ["tags"] else [];
    var o := if notes.Some? then ["notes"] else [];
    assert ks == n + ["url"] + t + ["date_added"] + o;
    forall i, j | 0 <= i < j < |ks|
      ensures ks[i] != ks[j]
    {
      assert KeyRank(ks[i]) < KeyRank(ks[j]) by {
        SelectedRanks(n, t, o, i, j);
      }
    }
  }

  /** The position of a key in the order `execute` writes them. */
  function KeyRank(k: string): nat {
    if k == "name" then 0 else if k == "url" then 1 else if k == "tags" then 2
    else if k == "date_added" then 3 else 4
  }

  lemma SelectedRanks(n: seq<string>, t: seq<string>, o: seq<string>, i: nat, j: nat)
    requires n == [] || n == ["name"]
    requires t == [] || t == ["tags"]
    requires o == [] || o == ["notes"]
    requires i < j < |n + ["url"] + t + ["date_added"] + o|
    ensures var ks := n + ["url"] + t + ["date_added"] + o; KeyRank(ks[i]) < KeyRank(ks[j])
  {
    var ks := n + ["url"] + t + ["date_added"] + o;
    assert KeyRank("name") == 0 && KeyRank("url") == 1 && KeyRank("tags") == 2;
    assert KeyRank("date_added") == 3 && KeyRank("notes") == 4;
    forall k | 0 <= k < |ks|
      ensures KeyRank(ks[k]) == (if k < |n| then 0 else if k == |n| then 1 else if k < |n| + 1 + |t| then 2
                                  else if k == |n| + 1 + |t| then 3 else 4)
    {
    }
  }

  lemma RecordGets(name: Option<string>, url: string, tags: seq<string>, date: string, notes: Option<string>)
    ensures var r := RecordOf(name, url, tags, date, notes);
      && Get(r, "url") == Some(PStr(url))
      && Get(r, "date_added") == Some(PStr(date))
      && Get(r, "name") == (if name.Some? then Some(PStr(name.value)) else None)
      && Get(r, "tags") == (if |tags| > 0 then Some(PTags(tags)) else None)
      && Get(r, "notes") == (if notes.Some? then Some(PStr(notes.value)) else None)
  {
    RecordKeysOf(name, url, tags, date, notes);
    RecordDistinct(name, url, tags, date, notes);
    RecordGetsFixed(name, url, tags, date, notes);
    RecordGetsOptional(name, url, tags, date, notes);
  }

  lemma RecordGetsFixed(name: Option<string>, url: string, tags: seq<string>, date: string, notes: Option<string>)
    requires DistinctKeys(RecordOf(name, url, tags, date, notes))
    ensures var r := RecordOf(name, url, tags, date, notes);
      && Get(r, "url") == Some(PStr(url))
      && Get(r, "date_added") == Some(PStr(date))
  {
    var r := RecordOf(name, url, tags, date, notes);
    var n := |NamePart(name)|;
    var t := |TagsPart(tags)|;
    GetAt(r, "url", n);
    GetAt(r, "date_added", n + 1 + t);
  }

  lemma RecordGetsOptional(name: Option<string>, url: string, tags: seq<string>, date: string, notes: Option<string>)
    requires DistinctKeys(RecordOf(name, url, tags, date, notes))
    requires Keys(RecordOf(name, url, tags, date, notes)) == RecordKeys(name, tags, notes)
    ensures var r := RecordOf(name, url, tags, date, notes);
      && Get(r, "name") == (if name.Some? then Some(PStr(name.value)) else None)
      && Get(r, "tags") == (if |tags| > 0 then Some(PTags(tags)) else None)
      && Get(r, "notes") == (if notes.Some? then Some(PStr(notes.value)) else None)
  {
    var r := RecordOf(name, url, tags, date, notes);
    if name.Some? {
      GetAt(r, "name", 0);
    } else {
      NotAKey(name, tags, notes, "name");
    }
    if |tags| > 0 {
      GetAt(r, "tags", |NamePart(name)| + 1);
    } else {
      NotAKey(name, tags, notes, "tags");
    }
    if notes.Some? {
      GetAt(r, "notes", |r| - 1);
    } else {
      NotAKey(name, tags, notes, "notes");
    }
  }

  /** An optional key that was not inserted is not among the keys. */
  lemma NotAKey(name: Option<string>, tags: seq<string>, notes: Option<string>, k: string)
    requires k == "name" ==> name.None?
    requires k == "tags" ==> |tags| == 0
    requires k == "notes" ==> notes.None?
    requires k in {"name", "tags", "notes"}
    ensures k !in RecordKeys(name, tags, notes)
  {
  }

  /** With distinct keys, `Get` finds the entry of its key. */
  lemma {:induction false} GetAt(r: seq<Entry>, k: string, i: nat)
    requires i < |r| && r[i].0 == k && DistinctKeys(r)
    ensures Get(r, k) == Some(r[i].1)
    decreases i
  {
    if i > 0 {
      GetAt(r[1..], k, i - 1);
    }
  }

  /**
   * `execute` (lines 73-82): the record of a page with title `name` and description
   * `notes`, added at `now`.
   */
  method BuildRecord(name: Option<string>, notes: Option<string>, url: string, rawTags: seq<string>,
                     slugify: string -> string, now: PyUtil.DateTime)
    returns (record: seq<Entry>)
    ensures record == RecordOf(name, url, CommandLineTags(rawTags, slugify), PyUtil.DateFormat(now), notes)
  {
    var normalized := PyUtil.NormalizeTags(CommandLineRaw(rawTags), slugify);
    ghost var expected := CommandLineTags(rawTags, slugify);
    var tags := normalized.value;
    record := NamePart(name);
    record := record + [("url", PStr(url))];
    if |tags| > 0 {
      record := record + [("tags", PTags(tags))];
    }
    assert record == NamePart(name) + [("url", PStr(url))] + TagsPart(tags);
    var date := PyUtil.NormalizeDate(Some(now));
    record := record + [("date_added", PStr(date.value))];
    record := record + NotesPart(notes);
  }

  /**
   * The command line writes `date_added` before `notes`; the browser's edit dialog
   * builds its record with `notes` before `date_added`.
   */
  lemma FieldOrderDiffers(name: string, url: string, tags: seq<string>, date: string, notes: string,
                          f: EditDialog.DialogFields, secs: int, parseTags: string -> seq<string>)
    requires |tags| > 0
    ensures Keys(RecordOf(Some(name), url, tags, date, Some(notes))) == ["name", "url", "tags", "date_added", "notes"]
    ensures JsValues.Keys(EditDialog.DialogEntries(f, Some(secs), parseTags)) == ["name", "url", "tags", "notes", "date_added"]
  {
    RecordKeysOf(Some(name), url, tags, date, Some(notes));
    EditDialog.DialogEntriesShape(f, Some(secs), parseTags);
  }

  // ---------------------------------------------------------------------------
  // clean_nones (lines 99-106)
  // ---------------------------------------------------------------------------

  /** The items whose value is not `None`, in their order. */
  function CleanNones(r: seq<Entry>): (c: seq<Entry>)
    ensures forall e :: e in c <==> e in r && e.1 != PNone
    ensures forall i :: 0 <= i < |c| ==> c[i].1 != PNone
    ensures (forall i :: 0 <= i < |r| ==> r[i].1 != PNone) ==> c == r
    ensures |c| <= |r|
  {
    if r == [] then []
    else if r[0].1 == PNone then CleanNones(r[1..])
    else [r[0]] + CleanNones(r[1..])
  }

  /** Removing the `None` values keeps the remaining keys in their order: the keys left are a sub-sequence. */
  lemma {:induction false} CleanNonesKeys(r: seq<Entry>)
    ensures Keys(CleanNones(r)) == KeptKeys(r)
    decreases |r|
  {
    if r != [] {
      CleanNonesKeys(r[1..]);
    }
  }

  function KeptKeys(r: seq<Entry>): seq<string>
  {
    if r == [] then [] else (if r[0].1 == PNone then [] else [r[0].0]) + KeptKeys(r[1..])
  }

  // ---------------------------------------------------------------------------
  // The tag list encoder (lines 38-51)
  // ---------------------------------------------------------------------------

  /** `str(tag_list)`: Python's `repr` of a list, with `strRepr` the `repr` of one string. */
  function ListRepr(tags: seq<string>, strRepr: string -> string): string
  {
    "[" + Join(Reprs(tags, strRepr), ", ") + "]"
  }

  function Reprs(tags: seq<string>, strRepr: string -> string): (r: seq<string>)
    ensures |r| == |tags|
    ensures forall i :: 0 <= i < |tags| ==> r[i] == strRepr(tags[i])
  {
    seq(|tags|, i requires 0 <= i < |tags| => strRepr(tags[i]))
  }

  /** What `JsonTagListEncoder.default` returns for a `JsonTagList`. */
  function EncodedTagList(tags: seq<string>, strRepr: string -> string): string
  {
    Repository.ReplaceAll("##<" + ListRepr(tags, strRepr) + ">##", '\'', "\"")
  }

  /** A slug: lower-case ASCII letters, digits and hyphens. */
  predicate IsSlug(t: string)
  {
    forall i :: 0 <= i < |t| ==> 'a' <= t[i] <= 'z' || '0' <= t[i] <= '9' || t[i] == '-'
  }

  /** Python's `repr` of a slug: the slug between single quotes. */
  predicate ReprOfSlugs(tags: seq<string>, strRepr: string -> string)
  {
    forall i :: 0 <= i < |tags| ==> IsSlug(tags[i]) && strRepr(tags[i]) == "'" + tags[i] + "'"
  }

  /** For slugs, the encoder gives the browser's tag text `["a", "b"]` between the two markers. */
  lemma EncodedSlugs(tags: seq<string>, strRepr: string -> string)
    requires ReprOfSlugs(tags, strRepr)
    ensures EncodedTagList(tags, strRepr) == "##<" + RecordText.TagText(tags) + ">##"
  {
    var reprs := Reprs(tags, strRepr);
    var quotes := RecordText.Quotes(tags);
    forall i | 0 <= i < |tags|
      ensures Repository.ReplaceAll(reprs[i], '\'', "\"") == quotes[i]
    {
      SlugReprQuoted(tags[i]);
    }
    ReplaceInJoin(reprs, quotes, ", ");
    BetweenMarkers(Join(reprs, ", "));
  }

  /** The single quotes around a slug become the double quotes of its JSON string. */
  lemma SlugReprQuoted(t: string)
    requires IsSlug(t)
    ensures Repository.ReplaceAll("'" + t + "'", '\'', "\"") == JsonText.Quote(t)
  {
    SlugPlain(t);
    JsonText.EscapePlain(t);
    Repository.ReplaceAllAppend("'" + t, "'", '\'', "\"");
    Repository.ReplaceAllAppend("'", t, '\'', "\"");
    Repository.ReplaceAllOne('\'', '\'', "\"");
    Repository.ReplaceAllAbsent(t, '\'', "\"");
  }

  /** The markers and brackets have no single quote. */
  lemma BetweenMarkers(inner: string)
    ensures Repository.ReplaceAll("##<" + ("[" + inner + "]") + ">##", '\'', "\"")
         == "##<" + ("[" + Repository.ReplaceAll(inner, '\'', "\"") + "]") + ">##"
  {
    assert '\'' !in "[" && '\'' !in "]" && '\'' !in "##<" && '\'' !in ">##";
    ReplaceBetween("[", inner, "]");
    ReplaceBetween("##<", "[" + inner + "]", ">##");
  }

  /** Replacing single quotes in `x` between two texts without any. */
  lemma ReplaceBetween(a: string, x: string, b: string)
    requires '\'' !in a && '\'' !in b
    ensures Repository.ReplaceAll(a + x + b, '\'', "\"") == a + Repository.ReplaceAll(x, '\'', "\"") + b
  {
    Repository.ReplaceAllAppend(a + x, b, '\'', "\"");
    Repository.ReplaceAllAppend(a, x, '\'', "\"");
    Repository.ReplaceAllAbsent(a, '\'', "\"");
    Repository.ReplaceAllAbsent(b, '\'', "\"");
  }

  lemma SlugPlain(t: string)
    requires IsSlug(t)
    ensures JsonText.Plain(t)
    ensures forall i :: 0 <= i < |t| ==> t[i] != '\''
  {
  }

  /** Replacing a character in joined pieces replaces it in each piece; the separator has none. */
  lemma {:induction false} ReplaceInJoin(xs: seq<string>, ys: seq<string>, sep: string)
    requires |xs| == |ys|
    requires forall i :: 0 <= i < |xs| ==> Repository.ReplaceAll(xs[i], '\'', "\"") == ys[i]
    requires forall i :: 0 <= i < |sep| ==> sep[i] != '\''
    ensures Repository.ReplaceAll(Join(xs, sep), '\'', "\"") == Join(ys, sep)
    decreases |xs|
  {
    if |xs| > 1 {
      var n := |xs| - 1;
      ReplaceInJoin(xs[..n], ys[..n], sep);
      Repository.ReplaceAllAppend(Join(xs[..n], sep) + sep, xs[n], '\'', "\"");
      Repository.ReplaceAllAppend(Join(xs[..n], sep), sep, '\'', "\"");
      Repository.ReplaceAllAbsent(sep, '\'', "\"");
    }
  }

  // ---------------------------------------------------------------------------
  // json.dumps and to_json (lines 109-119)
  // ---------------------------------------------------------------------------

  /** The text `json.dumps` writes for a value; with `ensure_ascii=False` it escapes what `JSON.stringify` escapes. */
  function ValueText(v: PyVal, strRepr: string -> string): string
  {
    match v
    case PStr(s) => JsonText.Quote(s)
    case PTags(tags) => JsonText.Quote(EncodedTagList(tags, strRepr))
    case PNone => "null"
  }

  /** The start of a member's line at indentation 4: the quoted key and the key separator. */
  function KeyPrefix(k: string): string
  {
    "    " + JsonText.Quote(k) + ": "
  }

  function MemberLine(e: Entry, strRepr: string -> string): string
  {
    KeyPrefix(e.0) + ValueText(e.1, strRepr)
  }

  /** The item separator: every line but the last ends with a comma. */
  function WithCommas(ls: seq<string>): (r: seq<string>)
    ensures |r| == |ls|
    ensures forall i :: 0 <= i < |ls| ==> r[i] == ls[i] + (if i < |ls| - 1 then "," else "")
  {
    seq(|ls|, i requires 0 <= i < |ls| => ls[i] + (if i < |ls| - 1 then "," else ""))
  }

  function MemberLines(r: seq<Entry>, strRepr: string -> string): (ls: seq<string>)
    ensures |ls| == |r|
    ensures forall i :: 0 <= i < |r| ==> ls[i] == MemberLine(r[i], strRepr)
  {
    seq(|r|, i requires 0 <= i < |r| => MemberLine(r[i], strRepr))
  }

  /** The lines of `json.dumps(record, indent=4, cls=JsonTagListEncoder, ensure_ascii=False)`. */
  function DumpLines(r: seq<Entry>, strRepr: string -> string): seq<string>
  {
    ["{"] + WithCommas(MemberLines(r, strRepr)) + ["}"]
  }

  function Dumps(r: seq<Entry>, strRepr: string -> string): string
  {
    if r == [] then "{}" else Join(DumpLines(r, strRepr), "\n")
  }

  /** The quote and marker that open the encoded tag list, and the ones that close it. */
  const OpenMarker: string := "\"##<"
  const CloseMarker: string := ">##\""

  /** Line 111: both markers, with the quotes of the encoded string, removed everywhere in the document. */
  function Unmarked(d: string): string
  {
    JsonText.ReplaceAll(JsonText.ReplaceAll(d, OpenMarker, ""), CloseMarker, "")
  }

  predicate IsTagsLine(line: string)
  {
    StartsWith(Trim(Py, line), "\"tags\":")
  }

  /** Lines 115-118: on the line of the tags `\"` becomes `"`; every other line stays as it is. */
  function Rewrite(line: string): string
  {
    if IsTagsLine(line) then JsonText.ReplaceAll(line, "\\\"", "\"") else line
  }

  /** The document the loop builds from `lines`: each line rewritten and followed by a line feed. */
  function LinesText(lines: seq<string>): (r: string)
    ensures lines != [] ==> |r| > 0 && r[|r| - 1] == '\n'
  {
    if lines == [] then "" else LinesText(lines[..|lines| - 1]) + Rewrite(lines[|lines| - 1]) + "\n"
  }

  /** `to_json` after `json.dumps` wrote `d`; the result ends with a line feed. */
  function ToJsonOf(d: string): (r: string)
    ensures |r| > 0 && r[|r| - 1] == '\n'
  {
    LinesText(PyUtil.Split(Unmarked(d), '\n'))
  }

  /** `to_json(record)`, with `strRepr` the `repr` of a string that `str(tag_list)` uses. */
  method ToJson(record: seq<Entry>, strRepr: string -> string) returns (doc: string)
    ensures doc == ToJsonOf(Dumps(CleanNones(record), strRepr))
  {
    var d := Dumps(CleanNones(record), strRepr);
    d := JsonText.ReplaceAll(JsonText.ReplaceAll(d, OpenMarker, ""), CloseMarker, "");
    var lines := PyUtil.Split(d, '\n');
    doc := "";
    var i := 0;
    while i < |lines|
      invariant 0 <= i <= |lines|
      invariant doc == LinesText(lines[..i])
    {
      if IsTagsLine(lines[i]) {
        doc := doc + JsonText.ReplaceAll(lines[i], "\\\"", "\"") + "\n";
      } else {
        doc := doc + lines[i] + "\n";
      }
      assert lines[..i + 1][..i] == lines[..i];
      i := i + 1;
    }
    assert lines[..i] == lines;
  }

  /** Each line followed by a line feed. */
  function Lines(lines: seq<string>): string
  {
    if lines == [] then "" else Lines(lines[..|lines| - 1]) + lines[|lines| - 1] + "\n"
  }

  /** The value as the bookmark file should show it: the tag list on one line as `["a", "b"]`. */
  function FileValue(v: PyVal): string
  {
    match v
    case PStr(s) => JsonText.Quote(s)
    case PTags(tags) => RecordText.TagText(tags)
    case PNone => "null"
  }

  function FileLines(r: seq<Entry>): (ls: seq<string>)
    ensures |ls| == |r|
    ensures forall i :: 0 <= i < |r| ==> ls[i] == KeyPrefix(r[i].0) + FileValue(r[i].1)
  {
    seq(|r|, i requires 0 <= i < |r| => KeyPrefix(r[i].0) + FileValue(r[i].1))
  }

  /** The bookmark file for record `r`: one member per line, indented by four, the tag list on one line. */
  function FileText(r: seq<Entry>): string
  {
    Lines(FileDocLines(r))
  }

  function FileDocLines(r: seq<Entry>): seq<string>
  {
    ["{"] + WithCommas(FileLines(r)) + ["}"]
  }

  // ---------------------------------------------------------------------------
  // Replacing a literal text: the steps the layout proofs use
  // ---------------------------------------------------------------------------

  /** A text without the first character of `p` is passed over. */
  lemma {:induction false} PassOver(a: string, rest: string, p: string, rep: string)
    requires |p| > 0 && forall i :: 0 <= i < |a| ==> a[i] != p[0]
    ensures JsonText.ReplaceAll(a + rest, p, rep) == a + JsonText.ReplaceAll(rest, p, rep)
    decreases |a|
  {
    if a == [] {
      assert a + rest == rest;
    } else {
      assert (a + rest)[1..] == a[1..] + rest;
      PassOver(a[1..], rest, p, rep);
    }
  }

  /** A character where no match starts is passed over. */
  lemma PassOne(c: char, rest: string, p: string, rep: string)
    requires |p| > 0 && !StartsWith([c] + rest, p)
    ensures JsonText.ReplaceAll([c] + rest, p, rep) == [c] + JsonText.ReplaceAll(rest, p, rep)
  {
    assert ([c] + rest)[1..] == rest;
  }

  /** A match at the start is replaced. */
  lemma MatchHere(p: string, rest: string, rep: string)
    requires |p| > 0
    ensures JsonText.ReplaceAll(p + rest, p, rep) == rep + JsonText.ReplaceAll(rest, p, rep)
  {
    assert (p + rest)[..|p|] == p;
    assert (p + rest)[|p|..] == rest;
  }

  /** A text that lacks one of the characters of `p` is left as it is. */
  lemma {:induction false} Unchanged(s: string, p: string, rep: string, j: nat)
    requires j < |p| && forall i :: 0 <= i < |s| ==> s[i] != p[j]
    ensures JsonText.ReplaceAll(s, p, rep) == s
    decreases |s|
  {
    if |s| >= |p| {
      assert s[..|p|][j] == s[j];
      Unchanged(s[1..], p, rep, j);
    }
  }

  /** Deleting matches adds no character. */
  lemma {:induction false} DeleteKeepsOut(s: string, p: string, c: char)
    requires |p| > 0 && c !in s
    ensures c !in JsonText.ReplaceAll(s, p, "")
    decreases |s|
  {
    if |s| >= |p| {
      if s[..|p|] == p {
        DeleteKeepsOut(s[|p|..], p, c);
      } else {
        DeleteKeepsOut(s[1..], p, c);
      }
    }
  }

  /** A character that is not in `p` splits the replacement in two. */
  lemma {:induction false} ReplaceAround(a: string, c: char, b: string, p: string, rep: string)
    requires |p| > 0 && c !in p
    ensures JsonText.ReplaceAll(a + [c] + b, p, rep) ==
            JsonText.ReplaceAll(a, p, rep) + [c] + JsonText.ReplaceAll(b, p, rep)
    decreases |a|
  {
    if a == [] {
      AroundEmpty(c, b, p, rep);
    } else if |a + [c] + b| < |p| {
      AroundShort(a, c, b, p, rep);
    } else if (a + [c] + b)[..|p|] == p {
      MatchInFront(a, c, b, p);
      ReplaceAround(a[|p|..], c, b, p, rep);
      MatchHere(p, a[|p|..] + [c] + b, rep);
      MatchHere(p, a[|p|..], rep);
    } else {
      ReplaceAround(a[1..], c, b, p, rep);
      NoMatchInFront(a, c, b, p, rep);
    }
  }

  lemma AroundEmpty(c: char, b: string, p: string, rep: string)
    requires |p| > 0 && c !in p
    ensures JsonText.ReplaceAll([] + [c] + b, p, rep) == JsonText.ReplaceAll([], p, rep) + [c] + JsonText.ReplaceAll(b, p, rep)
  {
    assert [] + [c] + b == [c] + b;
    assert ([c] + b)[0] != p[0];
    PassOne(c, b, p, rep);
  }

  lemma AroundShort(a: string, c: char, b: string, p: string, rep: string)
    requires |p| > 0 && |a + [c] + b| < |p|
    ensures JsonText.ReplaceAll(a + [c] + b, p, rep) == JsonText.ReplaceAll(a, p, rep) + [c] + JsonText.ReplaceAll(b, p, rep)
  {
    assert JsonText.ReplaceAll(a, p, rep) == a;
    assert JsonText.ReplaceAll(b, p, rep) == b;
  }

  /** A match at the start lies inside `a`, since `c` is not in `p`. */
  lemma MatchInFront(a: string, c: char, b: string, p: string)
    requires |p| > 0 && c !in p && |a + [c] + b| >= |p| && (a + [c] + b)[..|p|] == p
    ensures |p| <= |a| && a == p + a[|p|..] && a + [c] + b == p + (a[|p|..] + [c] + b)
  {
    var s := a + [c] + b;
    assert s[|a|] == c;
    assert |p| <= |a|;
    assert a[..|p|] == s[..|p|];
  }

  /** No match at the start: the first character is passed over on both sides. */
  lemma NoMatchInFront(a: string, c: char, b: string, p: string, rep: string)
    requires |p| > 0 && a != [] && |a + [c] + b| >= |p| && (a + [c] + b)[..|p|] != p
    requires JsonText.ReplaceAll(a[1..] + [c] + b, p, rep) ==
             JsonText.ReplaceAll(a[1..], p, rep) + [c] + JsonText.ReplaceAll(b, p, rep)
    ensures JsonText.ReplaceAll(a + [c] + b, p, rep) ==
            JsonText.ReplaceAll(a, p, rep) + [c] + JsonText.ReplaceAll(b, p, rep)
  {
    var t := a[1..] + [c] + b;
    FrontParts(a, c, b, p);
    PassOne(a[0], t, p, rep);
    PassOne(a[0], a[1..], p, rep);
    PrependAssoc(a[0], JsonText.ReplaceAll(a[1..], p, rep), c, JsonText.ReplaceAll(b, p, rep));
  }

  /** The first character of `a`, split off both texts, starts no match in either. */
  lemma FrontParts(a: string, c: char, b: string, p: string)
    requires |p| > 0 && a != [] && |a + [c] + b| >= |p| && (a + [c] + b)[..|p|] != p
    ensures a + [c] + b == [a[0]] + (a[1..] + [c] + b) && a == [a[0]] + a[1..]
    ensures !StartsWith([a[0]] + (a[1..] + [c] + b), p) && !StartsWith([a[0]] + a[1..], p)
  {
    var s := a + [c] + b;
    assert s == [a[0]] + (a[1..] + [c] + b);
    assert a == [a[0]] + a[1..];
    if |p| <= |a| {
      assert a[..|p|] == s[..|p|];
    }
  }

  lemma PrependAssoc(x: char, ra: string, c: char, rb: string)
    ensures [x] + (ra + [c] + rb) == ([x] + ra) + [c] + rb
  {
  }

  function ReplaceEach(xs: seq<string>, p: string, rep: string): (ys: seq<string>)
    requires |p| > 0
    ensures |ys| == |xs|
    ensures forall i :: 0 <= i < |xs| ==> ys[i] == JsonText.ReplaceAll(xs[i], p, rep)
  {
    seq(|xs|, i requires 0 <= i < |xs| => JsonText.ReplaceAll(xs[i], p, rep))
  }

  /** A pattern without a line feed is replaced line by line. */
  lemma {:induction false} ReplaceJoin(xs: seq<string>, p: string, rep: string)
    requires |p| > 0 && '\n' !in p
    ensures JsonText.ReplaceAll(Join(xs, "\n"), p, rep) == Join(ReplaceEach(xs, p, rep), "\n")
    decreases |xs|
  {
    if |xs| > 1 {
      var n := |xs| - 1;
      ReplaceJoin(xs[..n], p, rep);
      ReplaceAround(Join(xs[..n], "\n"), '\n', xs[n], p, rep);
      assert ReplaceEach(xs, p, rep)[..n] == ReplaceEach(xs[..n], p, rep);
    }
  }

  /** Splitting lines joined with line feeds gives the lines back. */
  lemma {:induction false} SplitJoined(xs: seq<string>)
    requires |xs| > 0 && forall i :: 0 <= i < |xs| ==> '\n' !in xs[i]
    ensures PyUtil.Split(Join(xs, "\n"), '\n') == xs
    decreases |xs|
  {
    if |xs| > 1 {
      PyUtil.JoinCons(xs[0], xs[1..], "\n");
      assert [xs[0]] + xs[1..] == xs;
      var s := Join(xs, "\n");
      var a := xs[0];
      assert s == a + "\n" + Join(xs[1..], "\n");
      assert s[|a|] == '\n';
      assert forall i :: 0 <= i < |a| ==> s[i] != '\n';
      assert IndexOf(s, '\n') == |a|;
      assert s[..|a|] == a;
      assert s[|a| + 1..] == Join(xs[1..], "\n");
      SplitJoined(xs[1..]);
    }
  }

  function UnmarkEach(xs: seq<string>): (ys: seq<string>)
    ensures |ys| == |xs|
    ensures forall i :: 0 <= i < |xs| ==> ys[i] == Unmarked(xs[i])
  {
    ReplaceEach(ReplaceEach(xs, OpenMarker, ""), CloseMarker, "")
  }

  /** `to_json` works line by line: the markers hold no line feed. */
  lemma ToJsonPerLine(xs: seq<string>)
    requires |xs| > 0 && forall i :: 0 <= i < |xs| ==> '\n' !in xs[i]
    ensures ToJsonOf(Join(xs, "\n")) == LinesText(UnmarkEach(xs))
  {
    var mid := ReplaceEach(xs, OpenMarker, "");
    ReplaceJoin(xs, OpenMarker, "");
    ReplaceJoin(mid, CloseMarker, "");
    var ys := UnmarkEach(xs);
    forall i | 0 <= i < |xs|
      ensures '\n' !in ys[i]
    {
      DeleteKeepsOut(xs[i], OpenMarker, '\n');
      DeleteKeepsOut(mid[i], CloseMarker, '\n');
    }
    SplitJoined(ys);
  }

  /** Rewriting each line into the line wanted gives the wanted document. */
  lemma {:induction false} LinesRewritten(ys: seq<string>, zs: seq<string>)
    requires |ys| == |zs| && forall i :: 0 <= i < |ys| ==> Rewrite(ys[i]) == zs[i]
    ensures LinesText(ys) == Lines(zs)
    decreases |ys|
  {
    if ys != [] {
      LinesRewritten(ys[..|ys| - 1], zs[..|zs| - 1]);
    }
  }

  // ---------------------------------------------------------------------------
  // The lines of the written bookmark file
  // ---------------------------------------------------------------------------

  /** A key as the record has them: plain text without `#` or `>`. */
  predicate KeyOk(k: string)
  {
    JsonText.Plain(k) && forall i :: 0 <= i < |k| ==> k[i] != '#' && k[i] != '>'
  }

  /** A string value with no marker at either end. */
  predicate ValueOk(s: string)
  {
    JsonText.Plain(s) && !StartsWith(s, "##<") && !EndsWith(s, ">##")
  }

  /** What follows a member on its line: a comma, or nothing after the last member. */
  predicate IsSep(suffix: string)
  {
    suffix == "" || suffix == ","
  }

  /** The characters of the one-line tag list of slugs, and of its escape. */
  predicate ListChar(c: char)
  {
    'a' <= c <= 'z' || '0' <= c <= '9' || c == '-' || c == '"' || c == ',' || c == ' ' || c == '[' || c == ']'
  }

  lemma KeyPrefixPlain(k: string)
    requires KeyOk(k)
    ensures KeyPrefix(k) == "    \"" + k + "\": "
  {
    JsonText.EscapePlain(k);
  }

  lemma KeyPrefixChars(k: string)
    requires KeyOk(k)
    ensures forall i :: 0 <= i < |KeyPrefix(k)| ==> KeyPrefix(k)[i] != '>' && KeyPrefix(k)[i] != '\\'
  {
    KeyPrefixPlain(k);
  }

  /** A line feed is always escaped. */
  lemma {:induction false} EscapeNoNewline(s: string)
    ensures '\n' !in JsonText.Escape(s)
    decreases |s|
  {
    if s != [] {
      EscapeNoNewline(s[1..]);
      var e := JsonText.EscapeChar(s[0]);
      assert '\n' !in e;
    }
  }

  /** No line of the dump holds a line feed. */
  lemma MemberLineNoNewline(e: Entry, strRepr: string -> string, suffix: string)
    requires IsSep(suffix)
    ensures '\n' !in MemberLine(e, strRepr) + suffix
  {
    QuotedNoNewline(e.0);
    match e.1 {
      case PStr(s) => QuotedNoNewline(s);
      case PTags(tags) => QuotedNoNewline(EncodedTagList(tags, strRepr));
      case PNone =>
    }
    NoNewlineConcat(KeyPrefix(e.0), ValueText(e.1, strRepr), suffix);
  }

  lemma QuotedNoNewline(s: string)
    ensures '\n' !in JsonText.Quote(s) && '\n' !in KeyPrefix(s)
  {
    EscapeNoNewline(s);
    NoNewlineConcat("\"", JsonText.Escape(s), "\"");
    NoNewlineConcat("    ", JsonText.Quote(s), ": ");
  }

  lemma NoNewlineConcat(a: string, b: string, c: string)
    requires '\n' !in a && '\n' !in b && (c == "" || c == "," || c == "\"" || c == ": ")
    ensures '\n' !in a + b + c
  {
    assert '\n' !in c;
  }

  /** Four spaces of indentation are stripped from a text that starts and ends with no space. */
  lemma TrimIndented(x: string)
    requires |x| > 0 && !IsPySpace(x[0]) && !IsPySpace(x[|x| - 1])
    ensures Trim(Py, "    " + x) == x
  {
    var s := "    " + x;
    assert s[1..] == "   " + x;
    assert s[2..] == "  " + x;
    assert s[3..] == " " + x;
    assert s[4..] == x;
    assert SpacePrefix(Py, x) == 0;
    assert SpacePrefix(Py, s) == 4;
    assert SpaceSuffix(Py, x) == 0;
  }

  /** A line whose key is not `tags` is not the line of the tags. */
  lemma NotTagsKey(k: string, rest: string)
    requires JsonText.Plain(k) && k != "tags"
    ensures !StartsWith("\"" + k + "\"" + rest, "\"tags\":")
  {
    var x := "\"" + k + "\"" + rest;
    var t := "\"tags\":";
    if |x| >= 7 {
      if |k| >= 5 {
        assert x[5] == k[4];
      } else if |k| == 4 {
        var j :| 0 <= j < 4 && k[j] != "tags"[j];
        assert x[j + 1] == k[j];
        assert t[j + 1] == "tags"[j];
        assert x[..7][j + 1] != t[j + 1];
      } else {
        assert x[1 + |k|] == '"';
      }
    }
  }

  /** A character that is not in `p` at the end of the text stays at the end. */
  lemma ReplaceSuffix(a: string, suffix: string, p: string, rep: string)
    requires |p| > 0 && IsSep(suffix) && ',' !in p
    ensures JsonText.ReplaceAll(a + suffix, p, rep) == JsonText.ReplaceAll(a, p, rep) + suffix
  {
    if suffix == "," {
      ReplaceAround(a, ',', "", p, rep);
      assert a + [','] + "" == a + suffix;
    } else {
      assert a + suffix == a;
    }
  }

  lemma UnmarkedSuffix(line: string, suffix: string)
    requires IsSep(suffix)
    ensures Unmarked(line + suffix) == Unmarked(line) + suffix
  {
    ReplaceSuffix(line, suffix, OpenMarker, "");
    ReplaceSuffix(JsonText.ReplaceAll(line, OpenMarker, ""), suffix, CloseMarker, "");
  }

  /** Where no match starts in `a`, `a` is passed over. */
  lemma {:induction false} PassNoStart(a: string, rest: string, p: string, rep: string)
    requires |p| > 0 && forall i :: 0 <= i < |a| ==> !StartsWith((a + rest)[i..], p)
    ensures JsonText.ReplaceAll(a + rest, p, rep) == a + JsonText.ReplaceAll(rest, p, rep)
    decreases |a|
  {
    if a == [] {
      assert a + rest == rest;
    } else {
      assert (a + rest)[1..] == a[1..] + rest;
      forall i | 0 <= i < |a[1..]|
        ensures !StartsWith((a[1..] + rest)[i..], p)
      {
        assert (a[1..] + rest)[i..] == (a + rest)[i + 1..];
      }
      PassNoStart(a[1..], rest, p, rep);
      assert (a + rest)[0..] == a + rest;
      PassOne(a[0], a[1..] + rest, p, rep);
      assert [a[0]] + (a[1..] + rest) == a + rest;
    }
  }

  /** The key prefix holds no open marker. */
  lemma KeyPrefixOpen(k: string, rest: string)
    requires KeyOk(k)
    ensures JsonText.ReplaceAll(KeyPrefix(k) + rest, OpenMarker, "") == KeyPrefix(k) + JsonText.ReplaceAll(rest, OpenMarker, "")
  {
    var t0 := "\"" + (k + ("\"" + (": " + rest)));
    KeyOpen(k, rest);
    IndentOpen(t0);
    KeyPrefixSplit(k, rest);
    KeyPrefixSplit(k, JsonText.ReplaceAll(rest, OpenMarker, ""));
  }

  lemma KeyPrefixSplit(k: string, rest: string)
    requires KeyOk(k)
    ensures KeyPrefix(k) + rest == "    " + ("\"" + (k + ("\"" + (": " + rest))))
  {
    KeyPrefixPlain(k);
  }

  lemma IndentOpen(t: string)
    ensures JsonText.ReplaceAll("    " + t, OpenMarker, "") == "    " + JsonText.ReplaceAll(t, OpenMarker, "")
  {
    PassOver("    ", t, OpenMarker, "");
  }

  /** The quoted key and the colon hold no open marker. */
  lemma KeyOpen(k: string, rest: string)
    requires KeyOk(k)
    ensures JsonText.ReplaceAll("\"" + (k + ("\"" + (": " + rest))), OpenMarker, "")
         == "\"" + (k + ("\"" + (": " + JsonText.ReplaceAll(rest, OpenMarker, ""))))
  {
    var r := JsonText.ReplaceAll(rest, OpenMarker, "");
    var t3 := ": " + rest;
    PassOver(": ", rest, OpenMarker, "");
    var t2 := "\"" + t3;
    assert !StartsWith(t2, OpenMarker) by {
      assert t2[1] == ':';
    }
    PassOne('"', t3, OpenMarker, "");
    var t1 := k + t2;
    PassOver(k, t2, OpenMarker, "");
    KeyQuoteOpen(k, t2);
    PassOne('"', t1, OpenMarker, "");
  }

  lemma KeyQuoteOpen(k: string, t2: string)
    requires KeyOk(k) && |t2| > 0 && t2[0] == '"'
    ensures !StartsWith("\"" + (k + t2), OpenMarker)
  {
    var t0 := "\"" + (k + t2);
    if k == [] {
      assert t0[1] == '"';
    } else {
      assert t0[1] == k[0];
    }
  }

  /** Removing the markers leaves the key prefix as it is. */
  lemma KeyPrefixUnmarked(k: string, rest: string)
    requires KeyOk(k)
    ensures Unmarked(KeyPrefix(k) + rest) == KeyPrefix(k) + Unmarked(rest)
  {
    KeyPrefixOpen(k, rest);
    KeyPrefixChars(k);
    PassOver(KeyPrefix(k), JsonText.ReplaceAll(rest, OpenMarker, ""), CloseMarker, "");
  }

  /** A plain text that does not end with `>##`, followed by a quote, holds no close marker. */
  lemma {:induction false} NoCloseBefore(s: string)
    requires JsonText.Plain(s) && !EndsWith(s, ">##")
    ensures JsonText.ReplaceAll(s + "\"", CloseMarker, "") == s + "\""
    decreases |s|
  {
    if |s| >= 3 {
      NoCloseAtStart(s);
      NoCloseTail(s);
      NoCloseBefore(s[1..]);
      var t := s[1..] + "\"";
      assert s + "\"" == [s[0]] + t;
      PassOne(s[0], t, CloseMarker, "");
    }
  }

  lemma NoCloseAtStart(s: string)
    requires JsonText.Plain(s) && !EndsWith(s, ">##") && |s| >= 3
    ensures !StartsWith(s + "\"", CloseMarker)
  {
    var x := s + "\"";
    if |s| >= 4 {
      assert x[..4][3] == s[3];
    } else {
      assert x[..4] == x;
      assert x[..3] == s == s[|s| - 3..];
      assert CloseMarker[..3] == ">##";
    }
  }

  lemma NoCloseTail(s: string)
    requires JsonText.Plain(s) && !EndsWith(s, ">##") && |s| >= 1
    ensures JsonText.Plain(s[1..]) && !EndsWith(s[1..], ">##")
  {
    if |s[1..]| >= 3 {
      assert s[1..][|s[1..]| - 3..] == s[|s| - 3..];
    }
  }

  lemma NoOpenAtQuote(s: string)
    requires ValueOk(s)
    ensures !StartsWith("\"" + (s + "\""), OpenMarker)
  {
    var q := "\"" + (s + "\"");
    if |q| >= 4 {
      if |s| >= 3 {
        var j :| 0 <= j < 3 && s[j] != "##<"[j];
        assert q[..4][j + 1] == s[j];
        assert OpenMarker[j + 1] == "##<"[j];
      } else {
        assert q[..4][3] == '"';
      }
    }
  }

  /** The quoted text of a string with no marker at its ends loses nothing. */
  lemma StringValueUnmarked(s: string)
    requires ValueOk(s)
    ensures Unmarked(JsonText.Quote(s)) == JsonText.Quote(s)
  {
    JsonText.EscapePlain(s);
    var q := JsonText.Quote(s);
    assert q == "\"" + (s + "\"");
    NoOpenAtQuote(s);
    PassOne('"', s + "\"", OpenMarker, "");
    PassOver(s, "\"", OpenMarker, "");
    assert JsonText.ReplaceAll(q, OpenMarker, "") == q;
    PassOne('"', s + "\"", CloseMarker, "");
    NoCloseBefore(s);
  }

  /** The tag list of slugs on one line: its characters. */
  lemma TagTextChars(tags: seq<string>)
    requires forall i :: 0 <= i < |tags| ==> IsSlug(tags[i])
    ensures var t := RecordText.TagText(tags);
      |t| >= 2 && t[0] == '[' && t[|t| - 1] == ']' && forall j :: 0 <= j < |t| ==> ListChar(t[j])
  {
    var qs := RecordText.Quotes(tags);
    forall i | 0 <= i < |qs|
      ensures forall j :: 0 <= j < |qs[i]| ==> ListChar(qs[i][j])
    {
      QuotedSlugChars(tags[i]);
    }
    JoinListChars(qs);
    BracketedListChars(Join(qs, ", "));
  }

  /** A quoted slug: letters, digits, `-` and the two quotes. */
  lemma QuotedSlugChars(t: string)
    requires IsSlug(t)
    ensures forall j :: 0 <= j < |JsonText.Quote(t)| ==> ListChar(JsonText.Quote(t)[j])
  {
    SlugPlain(t);
    JsonText.EscapePlain(t);
  }

  lemma BracketedListChars(x: string)
    requires forall j :: 0 <= j < |x| ==> ListChar(x[j])
    ensures var t := "[" + x + "]";
      |t| >= 2 && t[0] == '[' && t[|t| - 1] == ']' && forall j :: 0 <= j < |t| ==> ListChar(t[j])
  {
    var t := "[" + x + "]";
    forall j | 0 <= j < |t| ensures ListChar(t[j]) {
      if 0 < j < |t| - 1 {
        assert t[j] == x[j - 1];
      }
    }
  }

  lemma {:induction false} JoinListChars(xs: seq<string>)
    requires forall i :: 0 <= i < |xs| ==> forall j :: 0 <= j < |xs[i]| ==> ListChar(xs[i][j])
    ensures forall j :: 0 <= j < |Join(xs, ", ")| ==> ListChar(Join(xs, ", ")[j])
    decreases |xs|
  {
    if |xs| > 1 {
      JoinListChars(xs[..|xs| - 1]);
    }
  }

  /** The escape of such a text: a backslash before each quote, and nothing else. */
  lemma {:induction false} EscapedListChars(s: string)
    requires forall j :: 0 <= j < |s| ==> ListChar(s[j])
    ensures forall j :: 0 <= j < |JsonText.Escape(s)| ==> ListChar(JsonText.Escape(s)[j]) || JsonText.Escape(s)[j] == '\\'
    decreases |s|
  {
    if s != [] {
      EscapedListChars(s[1..]);
    }
  }

  /** `json.dumps` of the encoded tag list: the escaped list between the quoted markers. */
  lemma MarkedTagList(tags: seq<string>, strRepr: string -> string)
    requires ReprOfSlugs(tags, strRepr)
    ensures JsonText.Quote(EncodedTagList(tags, strRepr))
         == OpenMarker + (JsonText.Escape(RecordText.TagText(tags)) + CloseMarker)
  {
    EncodedSlugs(tags, strRepr);
    var tt := RecordText.TagText(tags);
    EscapeMarked(tt);
    QuoteMarked(JsonText.Escape(tt));
  }

  lemma EscapeMarked(t: string)
    ensures JsonText.Escape("##<" + t + ">##") == "##<" + JsonText.Escape(t) + ">##"
  {
    JsonText.EscapeAppend("##<" + t, ">##");
    JsonText.EscapeAppend("##<", t);
    JsonText.EscapePlain("##<");
    JsonText.EscapePlain(">##");
  }

  lemma QuoteMarked(e: string)
    ensures "\"" + ("##<" + e + ">##") + "\"" == OpenMarker + (e + CloseMarker)
  {
  }

  /** Removing the markers from the quoted tag list leaves the escaped list. */
  lemma TagValueUnmarked(e: string)
    requires |e| > 0 && e[|e| - 1] == ']'
    requires forall j :: 0 <= j < |e| ==> e[j] != '#' && e[j] != '>'
    ensures Unmarked(OpenMarker + (e + CloseMarker)) == e
  {
    OpenBeforeTags(e);
    CloseAfterTags(e);
  }

  lemma OpenBeforeTags(e: string)
    requires |e| > 0 && e[|e| - 1] == ']'
    requires forall j :: 0 <= j < |e| ==> e[j] != '#'
    ensures JsonText.ReplaceAll(OpenMarker + (e + CloseMarker), OpenMarker, "") == e + CloseMarker
  {
    OpenAtStart(e + CloseMarker);
    NoOpenInTags(e);
    PassNoStart(e, CloseMarker, OpenMarker, "");
    CloseHasNoOpen();
  }

  lemma CloseHasNoOpen()
    ensures JsonText.ReplaceAll(CloseMarker, OpenMarker, "") == CloseMarker
  {
    Unchanged(CloseMarker, OpenMarker, "", 3);
  }

  lemma OpenAtStart(x: string)
    ensures JsonText.ReplaceAll(OpenMarker + x, OpenMarker, "") == JsonText.ReplaceAll(x, OpenMarker, "")
  {
    MatchHere(OpenMarker, x, "");
    assert "" + JsonText.ReplaceAll(x, OpenMarker, "") == JsonText.ReplaceAll(x, OpenMarker, "");
  }

  lemma NoOpenInTags(e: string)
    requires |e| > 0 && e[|e| - 1] == ']'
    requires forall j :: 0 <= j < |e| ==> e[j] != '#'
    ensures forall i :: 0 <= i < |e| ==> !StartsWith((e + CloseMarker)[i..], OpenMarker)
  {
    var x := e + CloseMarker;
    forall i | 0 <= i < |e|
      ensures !StartsWith(x[i..], OpenMarker)
    {
      if i + 1 < |e| {
        assert x[i..][1] == e[i + 1];
      } else {
        assert x[i..][0] == ']';
      }
    }
  }

  lemma CloseAfterTags(e: string)
    requires forall j :: 0 <= j < |e| ==> e[j] != '>'
    ensures JsonText.ReplaceAll(e + CloseMarker, CloseMarker, "") == e
  {
    PassOver(e, CloseMarker, CloseMarker, "");
    MatchHere(CloseMarker, "", "");
    assert CloseMarker + "" == CloseMarker;
    assert e + "" == e;
  }

  /** The escaped tag list loses its backslashes on the line of the tags. */
  lemma TagsUnescaped(tags: seq<string>, suffix: string)
    requires forall i :: 0 <= i < |tags| ==> IsSlug(tags[i]) && IsSep(suffix)
    requires IsSep(suffix)
    ensures JsonText.ReplaceAll(JsonText.Escape(RecordText.TagText(tags)) + suffix, "\\\"", "\"")
         == RecordText.TagText(tags) + suffix
  {
    var tt := RecordText.TagText(tags);
    TagTextChars(tags);
    RecordText.UnescapeQuotes(tt);
    ReplaceSuffix(JsonText.Escape(tt), suffix, "\\\"", "\"");
  }

  /** The escaped tag list: no marker character, and the closing bracket last. */
  lemma EscapedTagText(tags: seq<string>)
    requires forall i :: 0 <= i < |tags| ==> IsSlug(tags[i])
    ensures var e := JsonText.Escape(RecordText.TagText(tags));
      && |e| > 0 && e[|e| - 1] == ']'
      && forall j :: 0 <= j < |e| ==> e[j] != '#' && e[j] != '>'
  {
    var tt := RecordText.TagText(tags);
    TagTextChars(tags);
    EscapedListChars(tt);
    EscapedClosingBracket(tt);
  }

  lemma EscapedClosingBracket(t: string)
    requires |t| > 0 && t[|t| - 1] == ']'
    ensures var e := JsonText.Escape(t); |e| > 0 && e[|e| - 1] == ']'
  {
    JsonText.EscapeAppend(t[..|t| - 1], "]");
    assert t[..|t| - 1] + "]" == t;
  }

  /** The line of the tags after the markers are removed. */
  lemma TagsLineUnmarked(tags: seq<string>, strRepr: string -> string, suffix: string)
    requires ReprOfSlugs(tags, strRepr) && IsSep(suffix)
    ensures Unmarked(MemberLine(("tags", PTags(tags)), strRepr) + suffix)
         == KeyPrefix("tags") + JsonText.Escape(RecordText.TagText(tags)) + suffix
  {
    var e := JsonText.Escape(RecordText.TagText(tags));
    var v := OpenMarker + (e + CloseMarker);
    var line := MemberLine(("tags", PTags(tags)), strRepr);
    TagsMemberLine(tags, strRepr);
    UnmarkedSuffix(line, suffix);
    TagsKeyOk();
    KeyPrefixUnmarked("tags", v);
    TagListUnmarked(tags);
  }

  /** Removing the markers around the escaped tag list leaves the escaped list. */
  lemma TagListUnmarked(tags: seq<string>)
    requires forall i :: 0 <= i < |tags| ==> IsSlug(tags[i])
    ensures var e := JsonText.Escape(RecordText.TagText(tags));
      Unmarked(OpenMarker + (e + CloseMarker)) == e
  {
    EscapedTagText(tags);
    TagValueUnmarked(JsonText.Escape(RecordText.TagText(tags)));
  }

  /** The member line of the tags: the key, and the escaped tag list between the markers. */
  lemma TagsMemberLine(tags: seq<string>, strRepr: string -> string)
    requires ReprOfSlugs(tags, strRepr)
    ensures MemberLine(("tags", PTags(tags)), strRepr)
         == KeyPrefix("tags") + (OpenMarker + (JsonText.Escape(RecordText.TagText(tags)) + CloseMarker))
  {
    MarkedTagList(tags, strRepr);
  }

  lemma TagsKeyOk()
    ensures KeyOk("tags")
  {
  }

  /** The line of the tags, markers removed, is recognised and rewritten into the file's line. */
  lemma TagsLineRewritten(tags: seq<string>, suffix: string)
    requires (forall i :: 0 <= i < |tags| ==> IsSlug(tags[i])) && IsSep(suffix)
    ensures var line := KeyPrefix("tags") + JsonText.Escape(RecordText.TagText(tags)) + suffix;
      IsTagsLine(line) && JsonText.ReplaceAll(line, "\\\"", "\"") == KeyPrefix("tags") + RecordText.TagText(tags) + suffix
  {
    var e := JsonText.Escape(RecordText.TagText(tags));
    EscapedTagsEnd(tags);
    TagsLineRecognised(e, suffix);
    TagsUnescaped(tags, suffix);
    TagsLineUnescaped(e, suffix, RecordText.TagText(tags));
  }

  lemma EscapedTagsEnd(tags: seq<string>)
    requires forall i :: 0 <= i < |tags| ==> IsSlug(tags[i])
    ensures var e := JsonText.Escape(RecordText.TagText(tags)); |e| > 0 && !IsPySpace(e[|e| - 1])
  {
    EscapedTagText(tags);
  }

  lemma TagsLineRecognised(e: string, suffix: string)
    requires |e| > 0 && !IsPySpace(e[|e| - 1]) && IsSep(suffix)
    ensures IsTagsLine(KeyPrefix("tags") + e + suffix)
  {
    var x := "\"tags\": " + e + suffix;
    TagsLineIndented(e, suffix);
    assert x[|x| - 1] == if suffix == "" then e[|e| - 1] else ',';
    TrimIndented(x);
    assert x[..7] == "\"tags\":";
  }

  lemma TagsLineIndented(e: string, suffix: string)
    ensures KeyPrefix("tags") + e + suffix == "    " + ("\"tags\": " + e + suffix)
  {
    KeyPrefixPlain("tags");
  }

  lemma TagsLineUnescaped(e: string, suffix: string, u: string)
    requires JsonText.ReplaceAll(e + suffix, "\\\"", "\"") == u + suffix
    ensures JsonText.ReplaceAll(KeyPrefix("tags") + e + suffix, "\\\"", "\"") == KeyPrefix("tags") + u + suffix
  {
    TagsLinePassOver(e, suffix);
    var p := KeyPrefix("tags");
    assert p + (u + suffix) == p + u + suffix;
  }

  lemma TagsLinePassOver(e: string, suffix: string)
    ensures JsonText.ReplaceAll(KeyPrefix("tags") + e + suffix, "\\\"", "\"")
         == KeyPrefix("tags") + JsonText.ReplaceAll(e + suffix, "\\\"", "\"")
  {
    KeyPrefixChars("tags");
    assert KeyPrefix("tags") + e + suffix == KeyPrefix("tags") + (e + suffix);
    PassOver(KeyPrefix("tags"), e + suffix, "\\\"", "\"");
  }

  /** A member whose value is a string: its line is neither changed by the markers nor rewritten. */
  lemma StringLine(k: string, v: string, suffix: string)
    requires KeyOk(k) && k != "tags" && IsSep(suffix) && |v| > 0 && v[|v| - 1] == '"'
    ensures var line := KeyPrefix(k) + v + suffix;
      !IsTagsLine(line) && Rewrite(line) == line
  {
    var rest := ": " + v + suffix;
    var x := "\"" + k + "\"" + rest;
    StringLineIndented(k, v, suffix);
    assert x[|x| - 1] == (if suffix == "" then '"' else ',');
    TrimIndented(x);
    NotTagsKey(k, rest);
  }

  lemma StringLineIndented(k: string, q: string, suffix: string)
    requires KeyOk(k)
    ensures KeyPrefix(k) + q + suffix == "    " + ("\"" + k + "\"" + (": " + q + suffix))
  {
    KeyPrefixPlain(k);
  }

  /** The entries `to_json` writes in the bookmark file's layout. */
  predicate WrittenOk(e: Entry, strRepr: string -> string)
  {
    KeyOk(e.0) &&
    match e.1
    case PStr(s) => e.0 != "tags" && ValueOk(s)
    case PTags(tags) => e.0 == "tags" && ReprOfSlugs(tags, strRepr)
    case PNone => false
  }

  /** One member's line as `to_json` writes it: the file's line. */
  lemma WrittenLine(e: Entry, strRepr: string -> string, suffix: string)
    requires WrittenOk(e, strRepr) && IsSep(suffix)
    ensures Rewrite(Unmarked(MemberLine(e, strRepr) + suffix)) == KeyPrefix(e.0) + FileValue(e.1) + suffix
  {
    match e.1
    case PStr(s) =>
      UnmarkedSuffix(MemberLine(e, strRepr), suffix);
      KeyPrefixUnmarked(e.0, JsonText.Quote(s));
      StringValueUnmarked(s);
      StringLine(e.0, JsonText.Quote(s), suffix);
    case PTags(tags) =>
      TagsLineUnmarked(tags, strRepr, suffix);
      TagsLineRewritten(tags, suffix);
  }


  /** The braces around the members are left as they are. */
  lemma BraceLines()
    ensures Unmarked("{") == "{" && !IsTagsLine("{") && Rewrite("{") == "{"
    ensures Unmarked("}") == "}" && !IsTagsLine("}") && Rewrite("}") == "}"
  {
    assert Trim(Py, "{") == "{";
    assert Trim(Py, "}") == "}";
  }

  /** No line of the dump holds a line feed. */
  lemma DumpLinesNoNewline(r: seq<Entry>, strRepr: string -> string)
    ensures forall i :: 0 <= i < |DumpLines(r, strRepr)| ==> '\n' !in DumpLines(r, strRepr)[i]
  {
    var xs := DumpLines(r, strRepr);
    forall i | 0 <= i < |xs|
      ensures '\n' !in xs[i]
    {
      if 0 < i < |xs| - 1 {
        MemberLineNoNewline(r[i - 1], strRepr, if i - 1 < |r| - 1 then "," else "");
      }
    }
  }

  /** `to_json` of a dump whose lines are each rewritten into the wanted line. */
  lemma DumpRewritten(r: seq<Entry>, strRepr: string -> string, ws: seq<string>)
    requires |r| > 0 && |ws| == |r| + 2
    requires forall i :: 0 <= i < |ws| ==> Rewrite(Unmarked(DumpLines(r, strRepr)[i])) == ws[i]
    ensures ToJsonOf(Dumps(r, strRepr)) == Lines(ws)
  {
    var xs := DumpLines(r, strRepr);
    DumpLinesNoNewline(r, strRepr);
    ToJsonPerLine(xs);
    LinesRewritten(UnmarkEach(xs), ws);
  }

  /** The dump of a record whose entries are all written in the file's layout. */
  lemma DumpLayout(r: seq<Entry>, strRepr: string -> string)
    requires |r| > 0 && forall i :: 0 <= i < |r| ==> WrittenOk(r[i], strRepr)
    ensures ToJsonOf(Dumps(r, strRepr)) == FileText(r)
  {
    var xs := DumpLines(r, strRepr);
    var zs := FileDocLines(r);
    DocLineAt(r, strRepr, 0);
    forall i | 0 <= i < |xs|
      ensures Rewrite(Unmarked(xs[i])) == zs[i]
    {
      DocLineAt(r, strRepr, i);
      if 0 < i < |xs| - 1 {
        WrittenLine(r[i - 1], strRepr, if i - 1 < |r| - 1 then "," else "");
      } else {
        BraceLines();
      }
    }
    DumpRewritten(r, strRepr, zs);
  }

  /** The entries of the record `execute` builds. */
  lemma RecordEntries(name: Option<string>, url: string, tags: seq<string>, date: string, notes: Option<string>)
    ensures var r := RecordOf(name, url, tags, date, notes);
      forall i :: 0 <= i < |r| ==>
        || r[i] == ("url", PStr(url))
        || r[i] == ("date_added", PStr(date))
        || (name.Some? && r[i] == ("name", PStr(name.value)))
        || (|tags| > 0 && r[i] == ("tags", PTags(tags)))
        || (notes.Some? && r[i] == ("notes", PStr(notes.value)))
  {
    var r := RecordOf(name, url, tags, date, notes);
    forall i | 0 <= i < |r|
      ensures r[i] in NamePart(name) + [("url", PStr(url))] + TagsPart(tags) + [("date_added", PStr(date))] + NotesPart(notes)
    {
    }
  }

  /**
   * `to_json` writes the record `execute` builds in the bookmark file's layout: one member
   * per line, indented by four, the tag list on one line as `["a", "b"]`. This holds when the
   * strings are plain and hold no marker at their ends and the tags are slugs.
   */
  lemma BookmarkFileLayout(name: Option<string>, url: string, tags: seq<string>, date: string, notes: Option<string>,
                           strRepr: string -> string)
    requires name.Some? ==> ValueOk(name.value)
    requires notes.Some? ==> ValueOk(notes.value)
    requires ValueOk(url) && ValueOk(date) && ReprOfSlugs(tags, strRepr)
    ensures var r := RecordOf(name, url, tags, date, notes);
      ToJsonOf(Dumps(CleanNones(r), strRepr)) == FileText(r)
  {
    var r := RecordOf(name, url, tags, date, notes);
    RecordWrittenOk(name, url, tags, date, notes, strRepr);
    assert CleanNones(r) == r;
    DumpLayout(r, strRepr);
  }

  lemma RecordWrittenOk(name: Option<string>, url: string, tags: seq<string>, date: string, notes: Option<string>,
                        strRepr: string -> string)
    requires name.Some? ==> ValueOk(name.value)
    requires notes.Some? ==> ValueOk(notes.value)
    requires ValueOk(url) && ValueOk(date) && ReprOfSlugs(tags, strRepr)
    ensures var r := RecordOf(name, url, tags, date, notes);
      forall i :: 0 <= i < |r| ==> WrittenOk(r[i], strRepr)
  {
    RecordEntries(name, url, tags, date, notes);
  }

  /** Documents whose lines differ in one place differ in length by as much as that line. */
  lemma {:induction false} LinesDiffer(a: seq<string>, b: seq<string>, j: nat)
    requires |a| == |b| && j < |a|
    requires forall i :: 0 <= i < |a| && i != j ==> a[i] == b[i]
    ensures |Lines(a)| - |a[j]| == |Lines(b)| - |b[j]|
    decreases |a|
  {
    var n := |a| - 1;
    if j == n {
      assert a[..n] == b[..n];
    } else {
      LinesDiffer(a[..n], b[..n], j);
    }
  }

  /** The quoted title that starts with the open marker. */
  lemma MarkedTitle(rest: string)
    requires ValueOk(rest)
    ensures JsonText.Quote("##<" + rest) == OpenMarker + (rest + "\"")
    ensures Unmarked(OpenMarker + (rest + "\"")) == rest + "\""
  {
    MarkedTitleQuote(rest);
    OpenAtStart(rest + "\"");
    PassOver(rest, "\"", OpenMarker, "");
    NoCloseBefore(rest);
  }

  lemma MarkedTitleQuote(rest: string)
    requires ValueOk(rest)
    ensures JsonText.Quote("##<" + rest) == OpenMarker + (rest + "\"")
  {
    var x := "##<" + rest;
    MarkerPlain(rest);
    JsonText.EscapePlain(x);
    OpenQuoted(rest);
  }

  lemma MarkerPlain(rest: string)
    requires JsonText.Plain(rest)
    ensures JsonText.Plain("##<" + rest)
  {
    var x := "##<" + rest;
    forall i | 0 <= i < |x|
      ensures x[i] != '"' && x[i] != '\\' && x[i] >= ' '
    {
      if i >= 3 {
        assert x[i] == rest[i - 3];
      }
    }
  }

  lemma OpenQuoted(rest: string)
    ensures "\"" + ("##<" + rest) + "\"" == OpenMarker + (rest + "\"")
  {
  }

  /** The line of the title that starts with the open marker: the marker and its quote are gone. */
  lemma MarkedTitleLine(rest: string, strRepr: string -> string)
    requires ValueOk(rest)
    ensures Rewrite(Unmarked(MemberLine(("name", PStr("##<" + rest)), strRepr) + ","))
         == KeyPrefix("name") + (rest + "\"") + ","
  {
    var line := MemberLine(("name", PStr("##<" + rest)), strRepr);
    MarkedTitle(rest);
    UnmarkedSuffix(line, ",");
    KeyPrefixUnmarked("name", OpenMarker + (rest + "\""));
    StringLine("name", rest + "\"", ",");
  }

  /**
   * A page title that starts with `##<` loses the marker and its quote: the file `to_json`
   * writes differs from the bookmark file's layout in the line of the title.
   */
  lemma MarkerInTitle(rest: string, url: string, tags: seq<string>, date: string, notes: Option<string>,
                      strRepr: string -> string)
    requires ValueOk(rest) && ValueOk(url) && ValueOk(date) && ReprOfSlugs(tags, strRepr)
    requires notes.Some? ==> ValueOk(notes.value)
    ensures var r := RecordOf(Some("##<" + rest), url, tags, date, notes);
      && ToJsonOf(Dumps(CleanNones(r), strRepr))
         == Lines(FileDocLines(r)[1 := KeyPrefix("name") + (rest + "\"") + ","])
      && ToJsonOf(Dumps(CleanNones(r), strRepr)) != FileText(r)
  {
    var r := RecordOf(Some("##<" + rest), url, tags, date, notes);
    var tail := RecordOf(None, url, tags, date, notes);
    TitleRecord(rest, url, tags, date, notes, strRepr);
    var zs := FileDocLines(r);
    var ws := zs[1 := KeyPrefix("name") + (rest + "\"") + ","];
    TitleWritten(rest, tail, strRepr, ws);
    TitleFileLine(rest, tail);
    LinesDiffer(ws, zs, 1);
  }

  lemma TitleRecord(rest: string, url: string, tags: seq<string>, date: string, notes: Option<string>,
                    strRepr: string -> string)
    requires ValueOk(url) && ValueOk(date) && ReprOfSlugs(tags, strRepr)
    requires notes.Some? ==> ValueOk(notes.value)
    ensures var r := RecordOf(Some("##<" + rest), url, tags, date, notes);
      var tail := RecordOf(None, url, tags, date, notes);
      && r == [("name", PStr("##<" + rest))] + tail
      && CleanNones(r) == r
      && forall i :: 0 <= i < |tail| ==> WrittenOk(tail[i], strRepr)
  {
    var r := RecordOf(Some("##<" + rest), url, tags, date, notes);
    var tail := RecordOf(None, url, tags, date, notes);
    RecordWrittenOk(None, url, tags, date, notes, strRepr);
    assert r == [("name", PStr("##<" + rest))] + tail;
    assert forall i :: 0 <= i < |r| ==> r[i].1 != PNone by {
      forall i | 0 <= i < |r|
        ensures r[i].1 != PNone
      {
        if i > 0 {
          assert r[i] == tail[i - 1];
        }
      }
    }
  }

  /** The file's line of the title keeps the marker and its quote. */
  lemma TitleFileLine(rest: string, tail: seq<Entry>)
    requires ValueOk(rest) && |tail| > 0
    ensures FileDocLines([("name", PStr("##<" + rest))] + tail)[1] == KeyPrefix("name") + (OpenMarker + (rest + "\"")) + ","
  {
    MarkedTitleQuote(rest);
  }

  lemma TitleWritten(rest: string, tail: seq<Entry>, strRepr: string -> string, ws: seq<string>)
    requires ValueOk(rest) && |tail| > 0 && forall i :: 0 <= i < |tail| ==> WrittenOk(tail[i], strRepr)
    requires ws == FileDocLines([("name", PStr("##<" + rest))] + tail)[1 := KeyPrefix("name") + (rest + "\"") + ","]
    ensures ToJsonOf(Dumps([("name", PStr("##<" + rest))] + tail, strRepr)) == Lines(ws)
  {
    var r := [("name", PStr("##<" + rest))] + tail;
    var xs := DumpLines(r, strRepr);
    var zs := FileDocLines(r);
    DocLineAt(r, strRepr, 0);
    forall i | 0 <= i < |xs|
      ensures Rewrite(Unmarked(xs[i])) == ws[i]
    {
      if i == 1 {
        TitleLineAt(rest, r, strRepr);
      } else {
        assert ws[i] == zs[i];
        OtherLineAt(r, strRepr, i);
      }
    }
    DumpRewritten(r, strRepr, ws);
  }

  /** The second line of the dump, the marked title, becomes the title's line in the file. */
  lemma TitleLineAt(rest: string, r: seq<Entry>, strRepr: string -> string)
    requires ValueOk(rest) && |r| > 1 && r[0] == ("name", PStr("##<" + rest))
    ensures Rewrite(Unmarked(DumpLines(r, strRepr)[1])) == KeyPrefix("name") + (rest + "\"") + ","
  {
    DocLineAt(r, strRepr, 1);
    MarkedTitleLine(rest, strRepr);
  }

  /** Every other line of the dump becomes the file's line. */
  lemma OtherLineAt(r: seq<Entry>, strRepr: string -> string, i: nat)
    requires |r| > 1 && i < |r| + 2 && i != 1
    requires forall j :: 1 <= j < |r| ==> WrittenOk(r[j], strRepr)
    ensures Rewrite(Unmarked(DumpLines(r, strRepr)[i])) == FileDocLines(r)[i]
  {
    DocLineAt(r, strRepr, i);
    if 1 < i < |r| + 1 {
      WrittenLine(r[i - 1], strRepr, if i - 1 < |r| - 1 then "," else "");
    } else {
      BraceLines();
    }
  }

  /** Line `i` of the dump and of the file: the braces, or member `i - 1` with its separator. */
  lemma DocLineAt(r: seq<Entry>, strRepr: string -> string, i: nat)
    requires i < |r| + 2
    ensures |DumpLines(r, strRepr)| == |r| + 2 == |FileDocLines(r)|
    ensures i == 0 ==> DumpLines(r, strRepr)[i] == "{" == FileDocLines(r)[i]
    ensures i == |r| + 1 ==> DumpLines(r, strRepr)[i] == "}" == FileDocLines(r)[i]
    ensures 0 < i <= |r| ==>
      var sep := if i - 1 < |r| - 1 then "," else "";
      && DumpLines(r, strRepr)[i] == MemberLine(r[i - 1], strRepr) + sep
      && FileDocLines(r)[i] == KeyPrefix(r[i - 1].0) + FileValue(r[i - 1].1) + sep
  {
  }

  // ---------------------------------------------------------------------------
  // to_json as evidently intended: the markers removed on the line of the tags only
  // ---------------------------------------------------------------------------

  /** On the line of the tags the markers and their quotes are removed and `\"` becomes `"`. */
  function FixLine(line: string): string
  {
    if IsTagsLine(line) then JsonText.ReplaceAll(Unmarked(line), "\\\"", "\"") else line
  }

  function FixedLinesText(lines: seq<string>): string
  {
    if lines == [] then "" else FixedLinesText(lines[..|lines| - 1]) + FixLine(lines[|lines| - 1]) + "\n"
  }

  /** The corrected `to_json` after `json.dumps` wrote `d`. */
  function FixedToJsonOf(d: string): string
  {
    FixedLinesText(PyUtil.Split(d, '\n'))
  }

  lemma {:induction false} FixedLinesEach(ys: seq<string>, zs: seq<string>)
    requires |ys| == |zs| && forall i :: 0 <= i < |ys| ==> FixLine(ys[i]) == zs[i]
    ensures FixedLinesText(ys) == Lines(zs)
    decreases |ys|
  {
    if ys != [] {
      FixedLinesEach(ys[..|ys| - 1], zs[..|zs| - 1]);
    }
  }

  /** The entries of the record: string values under keys other than `tags`, and the tags as slugs. */
  predicate FixedOk(e: Entry, strRepr: string -> string)
  {
    KeyOk(e.0) &&
    match e.1
    case PStr(_) => e.0 != "tags"
    case PTags(tags) => e.0 == "tags" && ReprOfSlugs(tags, strRepr)
    case PNone => false
  }

  /** One member's line as the corrected `to_json` writes it: the file's line. */
  lemma FixedLine(e: Entry, strRepr: string -> string, suffix: string)
    requires FixedOk(e, strRepr) && IsSep(suffix)
    ensures FixLine(MemberLine(e, strRepr) + suffix) == KeyPrefix(e.0) + FileValue(e.1) + suffix
  {
    match e.1
    case PStr(s) =>
      StringLine(e.0, JsonText.Quote(s), suffix);
    case PTags(tags) =>
      TagsLineRecognised(JsonText.Quote(EncodedTagList(tags, strRepr)), suffix);
      TagsLineUnmarked(tags, strRepr, suffix);
      TagsLineRewritten(tags, suffix);
  }

  lemma FixedDump(r: seq<Entry>, strRepr: string -> string)
    requires |r| > 0 && forall i :: 0 <= i < |r| ==> FixedOk(r[i], strRepr)
    ensures FixedToJsonOf(Dumps(r, strRepr)) == FileText(r)
  {
    var xs := DumpLines(r, strRepr);
    var zs := FileDocLines(r);
    DumpLinesNoNewline(r, strRepr);
    SplitJoined(xs);
    forall i | 0 <= i < |xs|
      ensures FixLine(xs[i]) == zs[i]
    {
      if 0 < i < |xs| - 1 {
        FixedLine(r[i - 1], strRepr, if i - 1 < |r| - 1 then "," else "");
      } else {
        BraceLines();
      }
    }
    FixedLinesEach(xs, zs);
  }

  lemma RecordFixedOk(name: Option<string>, url: string, tags: seq<string>, date: string, notes: Option<string>,
                      strRepr: string -> string)
    requires ReprOfSlugs(tags, strRepr)
    ensures var r := RecordOf(name, url, tags, date, notes);
      forall i :: 0 <= i < |r| ==> FixedOk(r[i], strRepr)
  {
    RecordEntries(name, url, tags, date, notes);
  }

  /**
   * The corrected `to_json` writes every record `execute` builds in the bookmark file's
   * layout, whatever its strings hold, as long as the tags are slugs.
   */
  lemma FixedLayout(name: Option<string>, url: string, tags: seq<string>, date: string, notes: Option<string>,
                    strRepr: string -> string)
    requires ReprOfSlugs(tags, strRepr)
    ensures var r := RecordOf(name, url, tags, date, notes);
      FixedToJsonOf(Dumps(CleanNones(r), strRepr)) == FileText(r)
  {
    var r := RecordOf(name, url, tags, date, notes);
    RecordFixedOk(name, url, tags, date, notes, strRepr);
    assert CleanNones(r) == r;
    FixedDump(r, strRepr);
  }

  // ---------------------------------------------------------------------------
  // commit_file (lines 176-182)
  // ---------------------------------------------------------------------------

  /** The longest subject line the commit message aims at. */
  const SubjectLimit: int := 72

  const Ellipsis: char := '\U{2026}'

  /** `s[:n]` in Python, where a negative `n` counts from the end. */
  function PySlice(s: string, n: int): (r: string)
    ensures |r| <= |s|
    ensures r == s[..|r|]
  {
    if n >= 0 then (if n <= |s| then s[..n] else s)
    else if |s| + n >= 0 then s[..|s| + n] else []
  }

  /** `max_url_len`: what is left of the 72 characters once the rest of the message is written. */
  function MaxUrlLen(coll: string): int
  {
    SubjectLimit - |"Add  (collection: " + coll + ")"|
  }

  /** The URL as the message shows it: cut to `max_url_len - 1` characters and an ellipsis when too long. */
  function MsgUrl(url: string, maxUrlLen: int): string
  {
    if |url| > maxUrlLen then PySlice(url, maxUrlLen - 1) + [Ellipsis] else url
  }

  /** `commit_message`: the URL, cut when too long, between `Add ` and the collection's name. */
  function CommitMessage(coll: string, url: string): (r: string)
    ensures StartsWith(r, "Add ") && EndsWith(r, " (collection: " + coll + ")")
    ensures |r| == |"Add  (collection: " + coll + ")"| + |MsgUrl(url, MaxUrlLen(coll))|
  {
    var m := MsgUrl(url, MaxUrlLen(coll));
    MessageParts("Add ", m, " (collection: " + coll + ")");
    "Add " + m + " (collection: " + coll + ")"
  }

  lemma MessageParts(a: string, m: string, b: string)
    ensures StartsWith(a + m + b, a) && EndsWith(a + m + b, b)
  {
    assert (a + m + b)[..|a|] == a;
    assert (a + m + b)[|a + m|..] == b;
  }

  /**
   * For a collection name of at most 52 characters the message fits in 72 characters:
   * a URL that fits is shown whole, a longer one as its first `max_url_len - 1`
   * characters and an ellipsis, which fills the 72 characters exactly.
   */
  lemma CommitMessageFits(coll: string, url: string)
    requires MaxUrlLen(coll) >= 1
    ensures |CommitMessage(coll, url)| <= SubjectLimit
    ensures |url| <= MaxUrlLen(coll) ==> CommitMessage(coll, url) == "Add " + url + " (collection: " + coll + ")"
    ensures |url| > MaxUrlLen(coll) ==>
      && |CommitMessage(coll, url)| == SubjectLimit
      && MsgUrl(url, MaxUrlLen(coll)) == url[..MaxUrlLen(coll) - 1] + [Ellipsis]
  {
  }

  /**
   * With a collection name of 54 characters or more `max_url_len` is negative and the
   * message is longer than 72 characters whatever the URL.
   */
  lemma LongCollectionName(coll: string, url: string)
    requires MaxUrlLen(coll) < 0
    ensures |CommitMessage(coll, url)| > SubjectLimit
    ensures |MsgUrl(url, MaxUrlLen(coll))| >= 1
  {
  }

  // ---------------------------------------------------------------------------
  // skip_existing_file (lines 185-204) and the page prompt (lines 149-155)
  // ---------------------------------------------------------------------------

  /** What ends the command early: `PagemarksAbort`, or a `PagemarksError` with its message. */
  datatype Stop = Abort | Bug(message: string)

  const MissedBranch: string := "Bug: missed branch"

  /**
   * Whether an existing bookmark file is left alone (`true`) or overwritten (`false`),
   * with the console lines `lines` to answer the prompt.
   */
  function SkipOutcome(isFile: bool, yes: bool, overwriteAll: bool, lines: seq<Option<string>>): (r: Result<bool, Stop>)
    ensures !isFile || yes || overwriteAll ==> r == Success(false)
    ensures r == Success(true) <==>
      isFile && !yes && !overwriteAll && PyUtil.PromptLoop(lines, PyUtil.No, true, true) == PyUtil.No
    ensures r == Failure(Abort) <==>
      isFile && !yes && !overwriteAll && PyUtil.PromptLoop(lines, PyUtil.No, true, true) == PyUtil.Quit
    ensures r.Failure? ==> r.error == Abort
  {
    if !isFile || yes || overwriteAll then Success(false)
    else match PyUtil.Prompt(yes, lines, PyUtil.No, true, true)
      case Yes => Success(false)
      case No => Success(true)
      case All => Success(false)
      case Quit => Failure(Abort)
  }

  /** The command-line options `add` reads and the one it sets. */
  class AddConfig {
    const yes: bool
    const gitCommit: bool
    var overwriteAllBookmarks: bool

    constructor(yes: bool, gitCommit: bool)
      ensures this.yes == yes && this.gitCommit == gitCommit && !overwriteAllBookmarks
    {
      this.yes := yes;
      this.gitCommit := gitCommit;
      overwriteAllBookmarks := false;
    }

    /**
     * `skip_existing_file`: answering ALL sets `overwrite_all_bookmarks`, and nothing
     * else changes it.
     */
    method SkipExistingFile(isFile: bool, lines: seq<Option<string>>) returns (r: Result<bool, Stop>)
      modifies this
      ensures r == SkipOutcome(isFile, yes, old(overwriteAllBookmarks), lines)
      ensures overwriteAllBookmarks == (old(overwriteAllBookmarks)
        || (isFile && !yes && PyUtil.PromptLoop(lines, PyUtil.No, true, true) == PyUtil.All))
    {
      if isFile {
        if yes || overwriteAllBookmarks {
          return Success(false);
        }
        var answer := PyUtil.PromptMethod(yes, lines, PyUtil.No, true, true);
        match answer {
          case Yes => r := Success(false);
          case No => r := Success(true);
          case All =>
            overwriteAllBookmarks := true;
            r := Success(false);
          case Quit => r := Failure(Abort);
        }
        return;
      }
      return Success(false);
    }
  }

  /**
   * `fetch_page` after a failed request, as written: EOF at the prompt gives QUIT, which
   * none of the branches expects.
   */
  function StillCreateAsWritten(yes: bool, lines: seq<Option<string>>): (r: Result<(), Stop>)
    ensures r.Success? <==> PyUtil.Prompt(yes, lines, PyUtil.No, false, false) == PyUtil.Yes
    ensures r == Failure(Abort) <==> PyUtil.Prompt(yes, lines, PyUtil.No, false, false) == PyUtil.No
    ensures r.Failure? ==> r == Failure(Abort) || r == Failure(Bug(MissedBranch))
  {
    match PyUtil.Prompt(yes, lines, PyUtil.No, false, false)
    case Yes => Success(())
    case No => Failure(Abort)
    case _ => Failure(Bug(MissedBranch))
  }

  /** End of input at the "Still create the bookmark?" prompt raises "Bug: missed branch". */
  lemma EofIsMissedBranch(lines: seq<Option<string>>)
    requires lines == [] || lines[0] == None
    ensures StillCreateAsWritten(false, lines) == Failure(Bug(MissedBranch))
  {
  }

  /** The page prompt as intended: YES creates the bookmark without the page, anything else aborts. */
  function StillCreate(yes: bool, lines: seq<Option<string>>): (r: Result<(), Stop>)
    ensures r.Success? <==> PyUtil.Prompt(yes, lines, PyUtil.No, false, false) == PyUtil.Yes
    ensures r.Failure? ==> r.error == Abort
  {
    if PyUtil.Prompt(yes, lines, PyUtil.No, false, false) == PyUtil.Yes then Success(()) else Failure(Abort)
  }

  /**
   * The two agree except where the code as written reports the missed branch, which
   * happens exactly at end of input.
   */
  lemma StillCreateAgrees(yes: bool, lines: seq<Option<string>>)
    ensures StillCreateAsWritten(yes, lines) == Failure(Bug(MissedBranch)) <==>
      !yes && PyUtil.PromptLoop(lines, PyUtil.No, false, false) == PyUtil.Quit
    ensures StillCreateAsWritten(yes, lines) != Failure(Bug(MissedBranch)) ==>
      StillCreateAsWritten(yes, lines) == StillCreate(yes, lines)
  {
    PyUtil.PromptAnswers(lines, PyUtil.No, false, false);
  }

  /**
   * `fetch_page` as written: `response` is the status and text of the GET request, or
   * `None` when it raised an `IOError`. The page text comes back when the status is 200;
   * otherwise the user decides whether to go on without it, and end of input at that
   * prompt ends the command with "Bug: missed branch".
   */
  function FetchPage(response: Option<(int, string)>, yes: bool, lines: seq<Option<string>>): (r: Result<Option<string>, Stop>)
    ensures response.Some? && response.value.0 == 200 ==> r == Success(Some(response.value.1))
    ensures r == Success(None) <==>
      !(response.Some? && response.value.0 == 200) && PyUtil.Prompt(yes, lines, PyUtil.No, false, false) == PyUtil.Yes
    ensures r == Failure(Bug(MissedBranch)) <==>
      !(response.Some? && response.value.0 == 200) && !yes && PyUtil.PromptLoop(lines, PyUtil.No, false, false) == PyUtil.Quit
    ensures r.Failure? ==> r.error == Abort || r.error == Bug(MissedBranch)
  {
    StillCreateAgrees(yes, lines);
    if response.Some? && response.value.0 == 200 then Success(Some(response.value.1))
    else match StillCreateAsWritten(yes, lines)
      case Success(_) => Success(None)
      case Failure(e) => Failure(e)
  }

  /**
   * `fetch_page` with the prompt as intended: the page text on status 200, otherwise
   * no page when the user answers YES and an abort on any other answer, end of input
   * included.
   */
  function FetchPageFixed(response: Option<(int, string)>, yes: bool, lines: seq<Option<string>>): (r: Result<Option<string>, Stop>)
    ensures r == Success(None) <==> !(response.Some? && response.value.0 == 200) && StillCreate(yes, lines).Success?
    ensures response.Some? && response.value.0 == 200 ==> r == Success(Some(response.value.1))
    ensures r.Failure? ==> r.error == Abort
  {
    if response.Some? && response.value.0 == 200 then Success(Some(response.value.1))
    else match StillCreate(yes, lines)
      case Success(_) => Success(None)
      case Failure(e) => Failure(e)
  }

  /** The two versions of `fetch_page` differ only where the code as written reports the missed branch. */
  lemma FetchPageAgrees(response: Option<(int, string)>, yes: bool, lines: seq<Option<string>>)
    ensures FetchPage(response, yes, lines) != Failure(Bug(MissedBranch)) ==>
      FetchPage(response, yes, lines) == FetchPageFixed(response, yes, lines)
    ensures FetchPage(response, yes, lines) == Failure(Bug(MissedBranch)) ==>
      FetchPageFixed(response, yes, lines) == Failure(Abort)
  {
    StillCreateAgrees(yes, lines);
  }
}
