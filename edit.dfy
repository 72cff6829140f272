/**
 * The edit dialog of the browser client (pagemarks/js/edit.js): reading the dialog into
 * a record, the card that shows a record, the search text, the conversions between a
 * card's id and the record's file, and the decision `saveBookmark` takes between doing
 * nothing, updating the record in place and moving it to the file of its new URL.
 * The page and the dialog are the fields of a `Page`; a backend call is recorded in
 * `calls` and answered by an abstract outcome.
 */
module EditDialog {

  import opened Wrappers
  import opened Text
  import opened JsValues
  import Sorting
  import UrlNormalize
  import Addressing
  import Base32
  import Records
  import JsonText
  import BookmarkDiffs

  // ---------------------------------------------------------------------------
  // Card ids and file locations
  // ---------------------------------------------------------------------------

  /** `s.replace(c, d)` with a one-character string pattern: only the first `c` is replaced. */
  function ReplaceFirst(s: string, c: char, d: char): (r: string)
    ensures |r| == |s|
    ensures IndexOf(s, c) < 0 ==> r == s
    ensures IndexOf(s, c) >= 0 ==> r == s[..IndexOf(s, c)] + [d] + s[IndexOf(s, c) + 1..]
  {
    var i := IndexOf(s, c);
    if i < 0 then s else s[..i] + [d] + s[i + 1..]
  }

  /** `s.slice(0, -n)` for `n > 0`: the last `n` characters cut off, nothing left when `s` is shorter. */
  function DropLast(s: string, n: nat): (r: string)
    ensures |s| >= n ==> s == r + s[|s| - n..]
    ensures |s| < n ==> r == ""
  {
    if |s| >= n then s[..|s| - n] else ""
  }

  /** The card id of the record stored under `filename` (edit.js line 419). */
  function NewId(filename: string): string {
    DropLast(ReplaceFirst(filename, '/', '-'), |".json"|)
  }

  /** The location in the repository of the record shown by card `id` (edit.js line 430). */
  function SourceLoc(collection: string, id: string): string {
    collection + "/" + ReplaceFirst(id, '-', '/') + ".json"
  }

  /** The location of the record stored under `filename` (edit.js line 431). */
  function TargetLoc(collection: string, filename: string): string {
    collection + "/" + filename
  }

  /**
   * A file name the id conversion can take apart: it ends with `.json` and has a `/`
   * before that ending, with no `-` in front of the first `/`.
   */
  predicate IdFilename(f: string) {
    EndsWith(f, ".json") && 0 <= IndexOf(f, '/') < |f| - 5
    && forall j :: 0 <= j < IndexOf(f, '/') ==> f[j] != '-'
  }

  /** An id the location conversion can take apart: a `-`, with no `/` in front of the first one. */
  predicate FileId(id: string) {
    IndexOf(id, '-') >= 0 && forall j :: 0 <= j < IndexOf(id, '-') ==> id[j] != '/'
  }

  lemma IndexOfAt(s: string, c: char, i: nat)
    requires i < |s| && s[i] == c && forall j :: 0 <= j < i ==> s[j] != c
    ensures IndexOf(s, c) == i
  {
  }

  /** The location rebuilt from the id of a file is that file's location. */
  lemma SourceOfNewId(collection: string, f: string)
    requires IdFilename(f)
    ensures FileId(NewId(f))
    ensures SourceLoc(collection, NewId(f)) == TargetLoc(collection, f)
  {
    var i := IndexOf(f, '/');
    var g := ReplaceFirst(f, '/', '-');
    var id := NewId(f);
    assert g == f[..i] + "-" + f[i + 1..];
    assert id == f[..i] + "-" + f[i + 1..|f| - 5];
    IndexOfAt(id, '-', i);
    assert ReplaceFirst(id, '-', '/') == f[..|f| - 5];
    assert f == f[..|f| - 5] + ".json";
  }

  /** The id rebuilt from the location of a card is that card's id. */
  lemma NewIdOfSource(id: string)
    requires FileId(id)
    ensures IdFilename(ReplaceFirst(id, '-', '/') + ".json")
    ensures NewId(ReplaceFirst(id, '-', '/') + ".json") == id
  {
    var i := IndexOf(id, '-');
    var f := ReplaceFirst(id, '-', '/') + ".json";
    assert f == id[..i] + "/" + id[i + 1..] + ".json";
    IndexOfAt(f, '/', i);
    assert ReplaceFirst(f, '/', '-') == id + ".json";
  }

  /** Every name `url2filename` gives can be taken apart into an id. */
  lemma DigestIdFilename(digest: seq<bv8>)
    requires |digest| == 20
    ensures IdFilename(Addressing.DigestFilename(digest))
  {
    var f := Addressing.DigestFilename(digest);
    Addressing.FilenameShape(digest);
    ShapedIdFilename(f);
  }

  lemma InvalidIdFilename()
    ensures IdFilename(Addressing.InvalidFilename)
  {
    var f := Addressing.InvalidFilename;
    assert f[0] == '0' && f[1] == '0' && f[2] == '/' && |f| == 30;
    assert f[25..] == ".json";
    ShapedIdFilename(f);
  }

  /** A two-character folder without `/` or `-`, a `/`, and a name ending in `.json`. */
  lemma ShapedIdFilename(f: string)
    requires |f| >= 8 && f[2] == '/' && f[|f| - 5..] == ".json"
    requires f[0] !in "/-" && f[1] !in "/-"
    ensures IdFilename(f)
  {
    IndexOfAt(f, '/', 2);
  }

  /** The file of any URL value `url2filename` is given: valid or the reserved name. */
  lemma FilenameIdFilename(url: JsValue, sha1: string -> Addressing.Sha1Words)
    ensures IdFilename(Addressing.Url2FilenameOf(url, sha1))
  {
    if url.Str? {
      DigestIdFilename(Addressing.Unpacked(sha1(UrlNormalize.NormalizeUrl(url.s))));
    } else {
      InvalidIdFilename();
    }
  }

  // ---------------------------------------------------------------------------
  // The name shown on a card
  // ---------------------------------------------------------------------------

  const MaxShownName: nat := 90
  const TruncatedLength: nat := 86

  /** The card title (edit.js line 136): a name of more than 90 characters is cut to 86 and ` ...`. */
  function ShownName(name: string): (r: string)
    ensures |r| <= MaxShownName || r == name
    ensures |name| <= MaxShownName ==> r == name
    ensures |name| > MaxShownName ==>
              |r| == MaxShownName && StartsWith(name, r[..TruncatedLength]) && r[TruncatedLength..] == " ..."
  {
    if |name| > MaxShownName then name[..TruncatedLength] + " ..." else name
  }

  // ---------------------------------------------------------------------------
  // The URL part of the search text
  // ---------------------------------------------------------------------------

  /** The first `|p|` characters of `u`, lower-cased, are `p` (`p` is lower-case ASCII). */
  predicate StartsWithCi(u: string, p: string) {
    |p| <= |u| && Lower(u[..|p|]) == p
  }

  /** The last `|e|` characters of `u`, lower-cased, are `e`. */
  predicate EndsWithCi(u: string, e: string) {
    |e| <= |u| && Lower(u[|u| - |e|..]) == e
  }

  /** `(?:https?|ftps?):\/\/` matches `p` under the `i` flag. */
  predicate IsProtocol(p: string) {
    var l := Lower(p);
    l == "http://" || l == "https://" || l == "ftp://" || l == "ftps://"
  }

  /**
   * What the first character of the stripped ending may be. edit.js line 116 writes the
   * pattern as a string literal, in which `\.` is just `.`, so the compiled pattern takes
   * any character but a line terminator there (`AnyChar`). `LiteralDot` is the pattern
   * as evidently intended, whose ending starts with a dot.
   */
  datatype Lead = AnyChar | LiteralDot

  predicate Leads(c: char, lead: Lead) {
    match lead
    case AnyChar => !UrlNormalize.IsLineTerminator(Js, c)
    case LiteralDot => c == '.'
  }

  /** `s?html?` matches the lower-cased `t`. */
  predicate IsHtmlTail(t: string) {
    t == "htm" || t == "html" || t == "shtm" || t == "shtml"
  }

  /** The optional ending `(?:.s?html?)?` (with a dot for `LiteralDot`) matches `e` under the `i` flag. */
  predicate IsExtension(e: string, lead: Lead) {
    e == "" || (|e| >= 4 && Leads(e[0], lead) && IsHtmlTail(Lower(e[1..])))
  }

  /** `r` ends with a lead character followed by `t`, case-insensitively. */
  predicate EndsWithEnding(r: string, t: string, lead: Lead) {
    |t| < |r| && Leads(r[|r| - |t| - 1], lead) && EndsWithCi(r, t)
  }

  /**
   * The length of the protocol the optional group takes: the pattern tries `https?`
   * before `ftps?` and `s` before no `s`.
   */
  function ProtocolLength(u: string): nat {
    if StartsWithCi(u, "https://") then 8
    else if StartsWithCi(u, "http://") then 7
    else if StartsWithCi(u, "ftps://") then 7
    else if StartsWithCi(u, "ftp://") then 6
    else 0
  }

  /** The length of the ending left to `(?:.s?html?)?$` by the lazy `(.*?)`: the longest one. */
  function ExtensionLength(r: string, lead: Lead): nat {
    if EndsWithEnding(r, "shtml", lead) then 6
    else if EndsWithEnding(r, "html", lead) || EndsWithEnding(r, "shtm", lead) then 5
    else if EndsWithEnding(r, "htm", lead) then 4
    else 0
  }

  /**
   * Group 1 of the pattern of edit.js line 116 (flag `i`) on `u`, lower-cased (lines
   * 116-119): `^(?:(?:https?|ftps?)://)?(.*?)(?:.s?html?)?$` as compiled for `AnyChar`,
   * with `\.` for `LiteralDot`. `None` when `exec` finds no match, which is when `u`
   * holds a line terminator, since `.` does not match one.
   */
  function UrlTerm(u: string, lead: Lead): (r: Option<string>)
    ensures r.Some? <==> UrlNormalize.NoLineTerminator(Js, u)
  {
    if !UrlNormalize.NoLineTerminator(Js, u) then None
    else
      var rest := u[ProtocolLength(u)..];
      Some(Lower(rest[..|rest| - ExtensionLength(rest, lead)]))
  }

  lemma LowerPrefix(u: string, k: nat, m: nat)
    requires k <= m <= |u|
    ensures Lower(u[..m])[..k] == Lower(u[..k])
  {
  }

  /** At most one protocol starts a text, and `ProtocolLength` finds it. */
  lemma ProtocolFound(u: string)
    ensures ProtocolLength(u) == 0 || IsProtocol(u[..ProtocolLength(u)])
    ensures forall k :: 0 < k <= |u| && IsProtocol(u[..k]) ==> k == ProtocolLength(u)
  {
    forall k | 0 < k <= |u| && IsProtocol(u[..k])
      ensures k == ProtocolLength(u)
    {
      var l := Lower(u[..k]);
      if l == "https://" {
        assert StartsWithCi(u, "https://");
      } else if l == "http://" {
        assert StartsWithCi(u, "http://");
        if |u| >= 8 {
          LowerPrefix(u, 7, 8);
          assert Lower(u[..8])[4] != "https://"[4];
        }
      } else if l == "ftps://" {
        assert StartsWithCi(u, "ftps://");
        ProtocolNotHttp(u, 7);
      } else {
        assert StartsWithCi(u, "ftp://");
        ProtocolNotHttp(u, 6);
        if |u| >= 7 {
          LowerPrefix(u, 6, 7);
          assert Lower(u[..7])[3] != "ftps://"[3];
        }
      }
    }
  }

  /** A text starting with `f` starts with neither `http://` nor `https://`. */
  lemma ProtocolNotHttp(u: string, k: nat)
    requires 0 < k <= |u| && Lower(u[..k])[0] == 'f'
    ensures !StartsWithCi(u, "https://") && !StartsWithCi(u, "http://")
  {
    if |u| >= 7 {
      LowerPrefix(u, 1, k);
      LowerPrefix(u, 1, 7);
    }
    if |u| >= 8 {
      LowerPrefix(u, 1, 8);
    }
  }

  /** The lazy group leaves the longest ending: no earlier remainder is an ending. */
  lemma ExtensionFound(r: string, lead: Lead)
    ensures ExtensionLength(r, lead) <= |r|
    ensures IsExtension(r[|r| - ExtensionLength(r, lead)..], lead)
    ensures forall k :: 0 <= k < |r| - ExtensionLength(r, lead) ==> !IsExtension(r[k..], lead)
  {
    ExtensionSuffix(r, ExtensionLength(r, lead), lead);
    forall k | 0 <= k < |r| - ExtensionLength(r, lead)
      ensures !IsExtension(r[k..], lead)
    {
      LongerNotExtension(r, |r| - k, lead);
    }
  }

  /** The last `|t| + 1` characters are the lead character `r[|r| - |t| - 1]` and then `t`. */
  lemma EndingParts(r: string, n: nat)
    requires 0 < n <= |r|
    ensures r[|r| - n..][0] == r[|r| - n] && r[|r| - n..][1..] == r[|r| - (n - 1)..]
  {
  }

  lemma ExtensionSuffix(r: string, n: nat, lead: Lead)
    requires n == ExtensionLength(r, lead)
    ensures n <= |r| && IsExtension(r[|r| - n..], lead)
  {
    if n == 0 {
      assert r[|r|..] == "";
    } else {
      EndingParts(r, n);
      var t := Lower(r[|r| - (n - 1)..]);
      if EndsWithEnding(r, "shtml", lead) {
        assert t == "shtml";
      } else if EndsWithEnding(r, "html", lead) {
        assert t == "html";
      } else if EndsWithEnding(r, "shtm", lead) {
        assert t == "shtm";
      } else {
        assert t == "htm";
      }
    }
  }

  /** A suffix longer than the ending found is no ending. */
  lemma LongerNotExtension(r: string, n: nat, lead: Lead)
    requires ExtensionLength(r, lead) < n <= |r|
    ensures !IsExtension(r[|r| - n..], lead)
  {
    EndingParts(r, n);
    assert |Lower(r[|r| - (n - 1)..])| == n - 1;
    if n == 6 {
      assert !EndsWithEnding(r, "shtml", lead);
    } else if n == 5 {
      assert !EndsWithEnding(r, "html", lead) && !EndsWithEnding(r, "shtm", lead);
    } else if n == 4 {
      assert !EndsWithEnding(r, "htm", lead);
    }
  }

  /**
   * `UrlTerm` is the group the pattern captures: the text is protocol, group and
   * extension, the protocol is the one the text starts with, and the group is the
   * shortest one after which an extension (possibly empty) ends the text.
   */
  lemma UrlTermMatch(u: string, lead: Lead) returns (p: nat, g: string, e: string)
    requires UrlNormalize.NoLineTerminator(Js, u)
    ensures p <= |u| && u == u[..p] + g + e && UrlTerm(u, lead) == Some(Lower(g))
    ensures p == 0 || IsProtocol(u[..p])
    ensures forall k :: 0 < k <= |u| && IsProtocol(u[..k]) ==> k == p
    ensures IsExtension(e, lead)
    ensures forall k :: 0 <= k < |g| ==> !IsExtension(g[k..] + e, lead)
  {
    p := ProtocolLength(u);
    ProtocolFound(u);
    g, e := GroupAndExtension(u[p..], lead);
    Reassemble(u, p, g, e);
  }

  lemma Reassemble(u: string, p: nat, g: string, e: string)
    requires p <= |u| && u[p..] == g + e
    ensures u == u[..p] + g + e
  {
    assert u == u[..p] + u[p..];
  }

  /** The remainder after the protocol, split into the lazy group and the extension. */
  lemma GroupAndExtension(rest: string, lead: Lead) returns (g: string, e: string)
    ensures rest == g + e && g == rest[..|rest| - ExtensionLength(rest, lead)]
    ensures IsExtension(e, lead)
    ensures forall k :: 0 <= k < |g| ==> !IsExtension(g[k..] + e, lead)
  {
    var n := ExtensionLength(rest, lead);
    ExtensionSuffix(rest, n, lead);
    var m := |rest| - n;
    g := rest[..m];
    e := rest[m..];
    SplitTail(rest, m, 0);
    forall k | 0 <= k < |g|
      ensures !IsExtension(g[k..] + e, lead)
    {
      SplitTail(rest, m, k);
      LongerNotExtension(rest, |rest| - k, lead);
    }
  }

  lemma SplitTail(r: string, m: nat, k: nat)
    requires k <= m <= |r|
    ensures r[..m][k..] + r[m..] == r[k..]
  {
  }

  /**
   * The compiled pattern strips more than a file extension: for any host `g`, the search
   * term of `https://<g>/html` is the host alone (`example.com` for
   * `https://example.com/html`), where the pattern as evidently intended keeps `/html`.
   */
  lemma SlashHtmlEnding(g: string)
    requires UrlNormalize.NoLineTerminator(Js, g)
    ensures UrlTerm("https://" + g + "/html", AnyChar) == Some(Lower(g))
    ensures UrlTerm("https://" + g + "/html", LiteralDot) == Some(Lower(g + "/html"))
  {
    var rest := g + "/html";
    assert "https://" + g + "/html" == "https://" + rest;
    NoLineTerminatorAround(g);
    UrlTermAfterHttps(rest, AnyChar);
    UrlTermAfterHttps(rest, LiteralDot);
    SlashHtmlRest(g);
    assert rest[..|rest| - 5] == g;
    assert rest[..|rest| - 0] == rest;
  }

  lemma UrlTermAfterHttps(rest: string, lead: Lead)
    requires UrlNormalize.NoLineTerminator(Js, "https://" + rest)
    ensures UrlTerm("https://" + rest, lead) == Some(Lower(rest[..|rest| - ExtensionLength(rest, lead)]))
  {
    ProtocolOfHttps(rest);
  }

  lemma ProtocolOfHttps(rest: string)
    ensures ProtocolLength("https://" + rest) == 8 && ("https://" + rest)[8..] == rest
  {
    var u := "https://" + rest;
    assert u[..8] == "https://";
    assert Lower("https://") == "https://";
  }

  lemma NoLineTerminatorAround(g: string)
    requires UrlNormalize.NoLineTerminator(Js, g)
    ensures UrlNormalize.NoLineTerminator(Js, "https://" + (g + "/html"))
  {
    var u := "https://" + (g + "/html");
    forall i | 0 <= i < |u|
      ensures !UrlNormalize.IsLineTerminator(Js, u[i])
    {
      if i < 8 {
        assert u[i] == "https://"[i];
      } else if i < 8 + |g| {
        assert u[i] == g[i - 8];
      } else {
        assert u[i] == (g + "/html")[i - 8];
      }
    }
  }

  /** The ending the two patterns find after `g`: `/html` for the compiled one, none for the intended one. */
  lemma SlashHtmlRest(g: string)
    ensures ExtensionLength(g + "/html", AnyChar) == 5
    ensures ExtensionLength(g + "/html", LiteralDot) == 0
  {
    var r := g + "/html";
    var n := |r|;
    assert r[n - 5..] == "/html" && r[n - 4..] == "html" && r[n - 3..] == "tml";
    assert r[n - 5] == '/';
    assert Lower("/html") == "/html" && Lower("html") == "html" && Lower("tml") == "tml";
    assert EndsWithEnding(r, "html", AnyChar);
    assert !EndsWithCi(r, "shtml") && !EndsWithCi(r, "shtm") && !EndsWithCi(r, "htm");
  }

  /**
   * The pattern as evidently intended strips only a file extension: the ending taken
   * off is empty or, lower-cased, one of `.htm`, `.html`, `.shtm` and `.shtml`.
   */
  lemma DotEndingOnly(u: string) returns (p: nat, g: string, e: string)
    requires UrlNormalize.NoLineTerminator(Js, u)
    ensures p <= |u| && u == u[..p] + g + e && UrlTerm(u, LiteralDot) == Some(Lower(g))
    ensures var l := Lower(e); l == "" || l == ".htm" || l == ".html" || l == ".shtm" || l == ".shtml"
  {
    p, g, e := UrlTermMatch(u, LiteralDot);
    DotExtensionText(e);
  }

  lemma DotExtensionText(e: string)
    requires IsExtension(e, LiteralDot)
    ensures var l := Lower(e); l == "" || l == ".htm" || l == ".html" || l == ".shtm" || l == ".shtml"
  {
    if e != "" {
      LowerDotCons(e);
      DotTail(Lower(e[1..]));
    }
  }

  lemma DotTail(t: string)
    requires IsHtmlTail(t)
    ensures var l := "." + t; l == ".htm" || l == ".html" || l == ".shtm" || l == ".shtml"
  {
  }

  lemma LowerDotCons(e: string)
    requires e != "" && e[0] == '.'
    ensures Lower(e) == "." + Lower(e[1..])
  {
    var l := Lower(e);
    assert l == [l[0]] + l[1..];
    assert l[1..] == Lower(e[1..]);
  }

  /**
   * Whatever the intended pattern strips, the compiled one strips too, so its term is a
   * prefix of the intended term.
   */
  lemma AsWrittenStripsMore(u: string)
    requires UrlNormalize.NoLineTerminator(Js, u)
    ensures UrlTerm(u, AnyChar).Some? && UrlTerm(u, LiteralDot).Some?
    ensures StartsWith(UrlTerm(u, LiteralDot).value, UrlTerm(u, AnyChar).value)
  {
    var rest := u[ProtocolLength(u)..];
    ExtensionLeq(rest);
    LowerPrefix(rest, |rest| - ExtensionLength(rest, AnyChar), |rest| - ExtensionLength(rest, LiteralDot));
  }

  lemma ExtensionLeq(r: string)
    ensures ExtensionLength(r, LiteralDot) <= ExtensionLength(r, AnyChar) <= |r|
  {
    EndingLeads(r, "shtml");
    EndingLeads(r, "html");
    EndingLeads(r, "shtm");
    EndingLeads(r, "htm");
  }

  lemma EndingLeads(r: string, t: string)
    ensures EndsWithEnding(r, t, LiteralDot) ==> EndsWithEnding(r, t, AnyChar)
  {
  }

  // ---------------------------------------------------------------------------
  // readBookmarkFromDialog
  // ---------------------------------------------------------------------------

  /** The input fields of the dialog; an input's `value` is always a string. */
  datatype DialogFields = DialogFields(id: string, name: string, url: string, tagsRaw: string, notes: string)

  /**
   * The tag list of the dialog (edit.js lines 84-88). `parseTags` stands for
   * `JSON.parse(tagsRaw)` followed by reading each entry's `value`.
   */
  function DialogTags(tagsRaw: string, parseTags: string -> seq<string>): seq<string> {
    if |Trim(Js, tagsRaw)| > 0 then Sorting.Sort(LowerAll(parseTags(tagsRaw))) else []
  }

  /** A list of strings as a JavaScript array. */
  function StrValues(ts: seq<string>): (r: seq<JsValue>)
    ensures |r| == |ts|
    ensures forall i :: 0 <= i < |ts| ==> r[i] == Str(ts[i])
  {
    if ts == [] then [] else [Str(ts[0])] + StrValues(ts[1..])
  }

  /**
   * The record the dialog yields (edit.js lines 68-103). `secs` is the card's
   * `data-date-added` attribute as whole seconds, `None` when it is absent or not a number.
   */
  function DialogEntries(f: DialogFields, secs: Option<int>, parseTags: string -> seq<string>): seq<(string, JsValue)> {
    [("name", Str(Trim(Js, f.name)))] + [("url", Str(Trim(Js, f.url)))]
    + [("tags", Arr(StrValues(DialogTags(f.tagsRaw, parseTags))))] + [("notes", Str(Trim(Js, f.notes)))]
    + (if secs.Some? then [("date_added", Date(secs.value * 1000))] else [])
  }

  /** `readBookmarkFromDialog()`: the record is built property by property. */
  method ReadBookmarkFromDialog(f: DialogFields, secs: Option<int>, parseTags: string -> seq<string>)
    returns (r: seq<(string, JsValue)>)
    ensures r == DialogEntries(f, secs, parseTags)
  {
    r := [("name", Str(Trim(Js, f.name)))];
    r := r + [("url", Str(Trim(Js, f.url)))];
    var tags: seq<string> := [];
    if |Trim(Js, f.tagsRaw)| > 0 {
      tags := Sorting.Sort(LowerAll(parseTags(f.tagsRaw)));
    }
    r := r + [("tags", Arr(StrValues(tags)))];
    r := r + [("notes", Str(Trim(Js, f.notes)))];
    var date: seq<(string, JsValue)> := [];
    if secs.Some? {
      date := [("date_added", Date(secs.value * 1000))];
    }
    r := r + date;
  }

  /**
   * What the dialog yields: the properties `name`, `url`, `tags`, `notes` and, when
   * the card has a date, `date_added`, in this order, each once.
   */
  lemma DialogEntriesShape(f: DialogFields, secs: Option<int>, parseTags: string -> seq<string>)
    ensures Keys(DialogEntries(f, secs, parseTags)) == ["name", "url", "tags", "notes"] + (if secs.Some? then ["date_added"] else [])
    ensures DistinctKeys(DialogEntries(f, secs, parseTags))
  {
    var e := DialogEntries(f, secs, parseTags);
    var ks := ["name", "url", "tags", "notes"] + (if secs.Some? then ["date_added"] else []);
    DialogKeys(f, secs, parseTags);
    DialogKeysDistinct(secs.Some?, ks);
    DistinctByKeys(e, ks);
  }

  lemma DialogKeys(f: DialogFields, secs: Option<int>, parseTags: string -> seq<string>)
    ensures Keys(DialogEntries(f, secs, parseTags)) == ["name", "url", "tags", "notes"] + (if secs.Some? then ["date_added"] else [])
  {
    var e := DialogEntries(f, secs, parseTags);
    assert Keys(e) == ["name", "url", "tags", "notes"] + (if secs.Some? then ["date_added"] else []);
  }

  lemma DialogKeysDistinct(dated: bool, ks: seq<string>)
    requires ks == ["name", "url", "tags", "notes"] + (if dated then ["date_added"] else [])
    ensures forall i, j :: 0 <= i < j < |ks| ==> ks[i] != ks[j]
  {
  }

  /** Properties whose keys are pairwise different have distinct keys. */
  lemma DistinctByKeys(e: seq<(string, JsValue)>, ks: seq<string>)
    requires Keys(e) == ks && forall i, j :: 0 <= i < j < |ks| ==> ks[i] != ks[j]
    ensures DistinctKeys(e)
  {
    forall i, j | 0 <= i < j < |e|
      ensures e[i].0 != e[j].0
    {
      assert e[i].0 == ks[i] && e[j].0 == ks[j];
    }
  }

  /** The tags of the dialog are lower-case, in ascending order, and a rearrangement of the tags entered. */
  lemma DialogTagsShape(tagsRaw: string, parseTags: string -> seq<string>)
    ensures Sorting.Sorted(DialogTags(tagsRaw, parseTags))
    ensures forall i :: 0 <= i < |DialogTags(tagsRaw, parseTags)| ==> IsLowerCase(DialogTags(tagsRaw, parseTags)[i])
    ensures |Trim(Js, tagsRaw)| > 0 ==> multiset(DialogTags(tagsRaw, parseTags)) == multiset(LowerAll(parseTags(tagsRaw)))
    ensures |Trim(Js, tagsRaw)| == 0 ==> DialogTags(tagsRaw, parseTags) == []
  {
    var t := DialogTags(tagsRaw, parseTags);
    if |Trim(Js, tagsRaw)| > 0 {
      var l := LowerAll(parseTags(tagsRaw));
      forall i | 0 <= i < |t|
        ensures IsLowerCase(t[i])
      {
        assert t[i] in multiset(l);
        var j :| 0 <= j < |l| && l[j] == t[i];
        LowerIsLowerCase(parseTags(tagsRaw)[j]);
      }
    }
  }

  // ---------------------------------------------------------------------------
  // The records the dialog produces
  // ---------------------------------------------------------------------------

  /** A property of a dialog record: a string name, URL or notes, a list of string tags, a date. */
  predicate DialogField(k: string, v: JsValue) {
    || ((k == "name" || k == "url" || k == "notes") && v.Str?)
    || (k == "tags" && v.Arr? && forall j :: 0 <= j < |v.elems| ==> v.elems[j].Str?)
    || (k == "date_added" && v.Date?)
  }

  predicate DialogRecord(e: seq<(string, JsValue)>) {
    forall i :: 0 <= i < |e| ==> DialogField(e[i].0, e[i].1)
  }

  lemma DialogEntriesRecord(f: DialogFields, secs: Option<int>, parseTags: string -> seq<string>)
    ensures DialogRecord(DialogEntries(f, secs, parseTags))
  {
  }

  /** `normalizeBookmark` keeps a dialog record a dialog record. */
  lemma {:induction false} NormalizedDialog(e: seq<(string, JsValue)>)
    requires DialogRecord(e)
    ensures DialogRecord(Records.NormalizedEntries(e))
  {
    if e != [] {
      var front := e[..|e| - 1];
      assert DialogRecord(front) by {
        forall i | 0 <= i < |front| ensures DialogField(front[i].0, front[i].1) {
          assert front[i] == e[i];
        }
      }
      NormalizedDialog(front);
      var last := e[|e| - 1];
      assert DialogField(last.0, last.1);
      var sv := Records.Survivor(last);
      assert forall i :: 0 <= i < |sv| ==> DialogField(sv[i].0, sv[i].1);
    }
  }

  /** A string value's text, `""` for any other value. */
  function TextOf(v: JsValue): string {
    if v.Str? then v.s else ""
  }

  /** `bookmark.hasOwnProperty('url') && bookmark.url.length > 0` for a string URL. */
  predicate HasUrl(e: seq<(string, JsValue)>) {
    Lookup(e, "url").Str? && |Lookup(e, "url").s| > 0
  }

  /** The string elements of a list value, `[]` for any other value. */
  function TagList(v: JsValue): seq<string> {
    if v.Arr? then Strings(v.elems) else []
  }

  // ---------------------------------------------------------------------------
  // buildSearchText
  // ---------------------------------------------------------------------------

  /** The lower-cased trimmed name, `""` when the name is not a string. */
  function NameTerm(name: JsValue): string {
    if name.Str? then Lower(Trim(Js, name.s)) else ""
  }

  /** A space and the tags joined by spaces, `""` without tags. */
  function TagsTerm(tags: JsValue): string {
    if tags.Arr? && |tags.elems| > 0 then " " + Join(Strings(tags.elems), " ") else ""
  }

  /**
   * A space and the URL without protocol and extension, lower-cased; `""` without a URL.
   * `decodeUri` is `decodeURI`, `None` where it throws a `URIError` (a malformed escape);
   * then there is no URL part and no search text at all.
   */
  function UrlPart(url: JsValue, decodeUri: string -> Option<string>): Option<string> {
    if url.Str? && |url.s| > 0 then
      match decodeUri(url.s)
      case None => None
      case Some(d) => Some(if UrlTerm(d, AnyChar).Some? then " " + UrlTerm(d, AnyChar).value else "")
    else Some("")
  }

  /**
   * The search text of a record: name, tags and URL, in this order; `None` when
   * `decodeURI` throws on the record's URL.
   */
  function SearchTextOf(e: seq<(string, JsValue)>, decodeUri: string -> Option<string>): (r: Option<string>)
    ensures r.None? <==> HasUrl(e) && decodeUri(Lookup(e, "url").s).None?
  {
    match UrlPart(Lookup(e, "url"), decodeUri)
    case None => None
    case Some(u) => Some(NameTerm(Lookup(e, "name")) + TagsTerm(Lookup(e, "tags")) + u)
  }

  /** Without a URL the search text is the name and tags terms alone. */
  lemma SearchTextNoUrl(e: seq<(string, JsValue)>, decodeUri: string -> Option<string>)
    requires !HasUrl(e)
    ensures SearchTextOf(e, decodeUri) == Some(NameTerm(Lookup(e, "name")) + TagsTerm(Lookup(e, "tags")))
  {
    SearchTextParts(e, decodeUri, "");
    assert NameTerm(Lookup(e, "name")) + TagsTerm(Lookup(e, "tags")) + "" == NameTerm(Lookup(e, "name")) + TagsTerm(Lookup(e, "tags"));
  }

  /**
   * A URL that decodes to a text without line terminators ends the search text with a
   * space and its captured group, lower-cased: the decoded URL is protocol, group and
   * ending as the compiled pattern of edit.js line 116 takes it apart, so any character
   * before `s?html?` goes with the ending (`…/html` and `…xhtml` lose it too).
   */
  lemma SearchTextUrl(e: seq<(string, JsValue)>, decodeUri: string -> Option<string>) returns (p: nat, g: string, x: string)
    requires HasUrl(e) && decodeUri(Lookup(e, "url").s).Some?
    requires UrlNormalize.NoLineTerminator(Js, decodeUri(Lookup(e, "url").s).value)
    ensures var d := decodeUri(Lookup(e, "url").s).value;
      p <= |d| && d == d[..p] + g + x && (p == 0 || IsProtocol(d[..p])) && IsExtension(x, AnyChar)
    ensures forall k :: 0 <= k < |g| ==> !IsExtension(g[k..] + x, AnyChar)
    ensures SearchTextOf(e, decodeUri) == Some(NameTerm(Lookup(e, "name")) + TagsTerm(Lookup(e, "tags")) + (" " + Lower(g)))
  {
    var url := Lookup(e, "url");
    var d := decodeUri(url.s).value;
    p, g, x := UrlTermMatch(d, AnyChar);
    DecodedUrlPart(url, decodeUri, d, Lower(g));
    SearchTextParts(e, decodeUri, " " + Lower(g));
  }

  lemma SearchTextParts(e: seq<(string, JsValue)>, decodeUri: string -> Option<string>, u: string)
    requires UrlPart(Lookup(e, "url"), decodeUri) == Some(u)
    ensures SearchTextOf(e, decodeUri) == Some(NameTerm(Lookup(e, "name")) + TagsTerm(Lookup(e, "tags")) + u)
  {
  }

  lemma DecodedUrlPart(url: JsValue, decodeUri: string -> Option<string>, d: string, t: string)
    requires url.Str? && |url.s| > 0 && decodeUri(url.s) == Some(d) && UrlTerm(d, AnyChar) == Some(t)
    ensures UrlPart(url, decodeUri) == Some(" " + t)
  {
  }

  /**
   * `buildSearchText(bookmark)` (edit.js lines 106-123) on a dialog record, `None`
   * where `decodeURI` throws.
   */
  method BuildSearchText(e: seq<(string, JsValue)>, decodeUri: string -> Option<string>) returns (r: Option<string>)
    ensures r == SearchTextOf(e, decodeUri)
  {
    var name := Lookup(e, "name");
    var nameText := "";
    if name.Str? {
      nameText := Lower(Trim(Js, name.s));
    }
    var tags := Lookup(e, "tags");
    var tagsText := "";
    if tags.Arr? && |tags.elems| > 0 {
      tagsText := " " + Join(Strings(tags.elems), " ");
    }
    var url := Lookup(e, "url");
    var urlText := "";
    if url.Str? && |url.s| > 0 {
      var decoded := decodeUri(url.s);
      if decoded.None? {
        return None;
      }
      var m := UrlTerm(decoded.value, AnyChar);
      if m.Some? {
        urlText := " " + m.value;
      }
    }
    r := Some(nameText + tagsText + urlText);
  }

  // ---------------------------------------------------------------------------
  // The page: cards, the dialog and the backend calls
  // ---------------------------------------------------------------------------

  /**
   * What a card shows: the full name (`data-pm-full-name`), the displayed title, the
   * `title` tooltip when the card has one, the tags, the notes, the search text and
   * the link.
   */
  datatype Card = Card(fullName: string, shownName: string, title: Option<string>, tags: seq<string>,
                       notes: string, searchText: string, href: string)

  /** A call to the backend, with the URL value and the base-64 record it carries. */
  datatype Call =
    | UpdateCall(id: string, url: JsValue, content: string)
    | MoveCall(url: JsValue, source: string, target: string, content: string)

  /** What the backend answers. */
  datatype Outcome = Ok | UrlExists | Fail(status: int)

  /**
   * The state of the page: the cards by id, whether the dialog is open, whether Save
   * is enabled, the "URL exists" message, the error message, and the calls made so far.
   */
  datatype Screen = Screen(cards: map<string, Card>, dialogOpen: bool, saveEnabled: bool,
                           urlExistsShown: bool, error: Option<string>, calls: seq<Call>)

  /**
   * What the page does not decide itself: demo mode, the collection's name, SHA-1,
   * `decodeURI`, the date parser of `new Date(string)`, base 64, and the parse of the
   * tag input.
   */
  datatype Env = Env(demo: bool, collection: string, sha1: string -> Addressing.Sha1Words,
                     decodeUri: string -> Option<string>, parse: string -> Option<int>, base64: string -> string,
                     parseTags: string -> seq<string>)

  const ErrorOpening: string := "Remote backend call failed for bookmark '"
  const ErrorClosing: string :=
    "'. Normally, this happens when we are out of sync with the server. Consider refreshing the page."

  /** The message `errorHandler` shows (edit.js lines 206-210). */
  function ErrorMessage(id: string): string {
    ErrorOpening + id + ErrorClosing
  }

  /**
   * The card after `writeBookmarkToHtmlCard` (edit.js lines 126-185) shows `e`. When
   * `decodeURI` throws, the name, tags and notes are already written and the search
   * text and the link are not.
   */
  function CardOf(c: Card, e: seq<(string, JsValue)>, decodeUri: string -> Option<string>): Card {
    var name := TextOf(Lookup(e, "name"));
    var c1 := c.(fullName := name, shownName := ShownName(name), title := if c.title.Some? then Some(name) else None,
                 tags := TagList(Lookup(e, "tags")), notes := TextOf(Lookup(e, "notes")));
    match SearchTextOf(e, decodeUri)
    case None => c1
    case Some(t) => c1.(searchText := t, href := if HasUrl(e) then Lookup(e, "url").s else c.href)
  }

  /** Whether `writeBookmarkToHtmlCard` runs to its end, which is when `decodeURI` does not throw. */
  predicate WriteCompletes(e: seq<(string, JsValue)>, decodeUri: string -> Option<string>) {
    SearchTextOf(e, decodeUri).Some?
  }

  /** The dialog closed and cleared (`hideModal`, `clearModal`). */
  function Hidden(s: Screen): Screen {
    s.(dialogOpen := false, urlExistsShown := false, error := None)
  }

  /**
   * The cards with card `id` rewritten to show `e`; it takes the id `newId` when `e` has
   * a URL and the write is not cut short.
   */
  function WrittenCards(cards: map<string, Card>, id: string, e: seq<(string, JsValue)>, newId: string,
                        decodeUri: string -> Option<string>): map<string, Card> {
    if id !in cards then cards
    else (cards - {id})[WrittenKey(id, e, newId, decodeUri) := CardOf(cards[id], e, decodeUri)]
  }

  /** The id of the card written: the new one only when `e` has a URL and the write completes. */
  function WrittenKey(id: string, e: seq<(string, JsValue)>, newId: string, decodeUri: string -> Option<string>): string {
    if HasUrl(e) && WriteCompletes(e, decodeUri) then newId else id
  }

  /** The page after `writeBookmarkToHtmlCard`: only the cards change. */
  function Written(s: Screen, id: string, e: seq<(string, JsValue)>, newId: string, decodeUri: string -> Option<string>): Screen {
    s.(cards := WrittenCards(s.cards, id, e, newId, decodeUri))
  }

  /** `writeBookmarkToHtmlCard` followed by `hideModal()`, which an exception of the former skips. */
  function WrittenAndHidden(s: Screen, id: string, e: seq<(string, JsValue)>, newId: string, decodeUri: string -> Option<string>): Screen {
    var w := Written(s, id, e, newId, decodeUri);
    if WriteCompletes(e, decodeUri) then Hidden(w) else w
  }

  /**
   * What the card write leaves (edit.js lines 126-185): the record's name, tags and
   * notes in any case, all other cards as they were; the search text, the link and the
   * new id only when `decodeURI` accepts the URL, and otherwise the card's old ones.
   */
  lemma WrittenCard(s: Screen, id: string, e: seq<(string, JsValue)>, newId: string, decodeUri: string -> Option<string>)
    requires id in s.cards
    ensures var r := Written(s, id, e, newId, decodeUri);
      var key := WrittenKey(id, e, newId, decodeUri);
      && r.cards.Keys == s.cards.Keys - {id} + {key}
      && r.cards[key].fullName == TextOf(Lookup(e, "name"))
      && r.cards[key].shownName == ShownName(TextOf(Lookup(e, "name")))
      && r.cards[key].tags == TagList(Lookup(e, "tags"))
      && r.cards[key].notes == TextOf(Lookup(e, "notes"))
      && (WriteCompletes(e, decodeUri) ==> Some(r.cards[key].searchText) == SearchTextOf(e, decodeUri))
      && (WriteCompletes(e, decodeUri) && HasUrl(e) ==> r.cards[key].href == Lookup(e, "url").s)
      && (!WriteCompletes(e, decodeUri) ==>
            r.cards[key].searchText == s.cards[id].searchText && r.cards[key].href == s.cards[id].href)
      && (forall k :: k in s.cards && k != id && k != key ==> r.cards[k] == s.cards[k])
      && r.dialogOpen == s.dialogOpen && r.calls == s.calls
  {
    CardWritten(s.cards[id], e, decodeUri);
  }

  /** The fields `CardOf` writes in any case and those it writes only on a completed write. */
  lemma CardWritten(c: Card, e: seq<(string, JsValue)>, decodeUri: string -> Option<string>)
    ensures var r := CardOf(c, e, decodeUri);
      && r.fullName == TextOf(Lookup(e, "name")) && r.shownName == ShownName(TextOf(Lookup(e, "name")))
      && r.tags == TagList(Lookup(e, "tags")) && r.notes == TextOf(Lookup(e, "notes"))
      && (WriteCompletes(e, decodeUri) ==> Some(r.searchText) == SearchTextOf(e, decodeUri))
      && (WriteCompletes(e, decodeUri) && HasUrl(e) ==> r.href == Lookup(e, "url").s)
      && (!WriteCompletes(e, decodeUri) ==> r.searchText == c.searchText && r.href == c.href)
  {
  }

  /** "URL exists" shown and Save enabled again. */
  function UrlExistsShown(s: Screen): Screen {
    s.(urlExistsShown := true, saveEnabled := true)
  }

  function ErrorShown(s: Screen, id: string): Screen {
    s.(error := Some(ErrorMessage(id)))
  }

  /** `updateBookmarkSameUrl` (edit.js lines 401-413). */
  function SameUrlOf(s: Screen, id: string, e: seq<(string, JsValue)>, content: string, env: Env, outcome: Outcome): Screen {
    if env.demo then WrittenAndHidden(s, id, e, id, env.decodeUri)
    else
      var s1 := s.(calls := s.calls + [UpdateCall(id, Lookup(e, "url"), content)]);
      if outcome.Ok? then WrittenAndHidden(s1, id, e, id, env.decodeUri) else ErrorShown(s1, id)
  }

  /** The file of the new URL. */
  function NewFilename(e: seq<(string, JsValue)>, env: Env): string {
    Addressing.Url2FilenameOf(Lookup(e, "url"), env.sha1)
  }

  /** `updateBookmarkUrlChanged` (edit.js lines 416-446). */
  function UrlChangedOf(s: Screen, id: string, e: seq<(string, JsValue)>, content: string, env: Env, outcome: Outcome): Screen {
    var filename := NewFilename(e, env);
    var newid := NewId(filename);
    if newid in s.cards then UrlExistsShown(s)
    else if env.demo then WrittenAndHidden(s, id, e, newid, env.decodeUri)
    else
      var call := MoveCall(Lookup(e, "url"), SourceLoc(env.collection, id), TargetLoc(env.collection, filename), content);
      var s1 := s.(calls := s.calls + [call]);
      match outcome
      case Ok => WrittenAndHidden(s1, id, e, newid, env.decodeUri)
      case UrlExists => UrlExistsShown(s1)
      case Fail(_) => ErrorShown(s1, id)
  }

  /** `normalizeBookmark(readBookmarkFromDialog())`. */
  function NewRecord(f: DialogFields, secs: Option<int>, env: Env): (e: seq<(string, JsValue)>)
    ensures DialogRecord(e)
  {
    DialogEntriesRecord(f, secs, env.parseTags);
    NormalizedDialog(DialogEntries(f, secs, env.parseTags));
    Records.NormalizedEntries(DialogEntries(f, secs, env.parseTags))
  }

  /**
   * `saveBookmark()` (edit.js lines 449-478). `original` is the record the dialog was
   * opened with; a `TypeError` in `bookmarkDiff` or an invalid date in
   * `bookmarkToBase64` ends it with Save disabled.
   */
  function SaveOf(s: Screen, f: DialogFields, secs: Option<int>, original: JsValue, env: Env, outcome: Outcome): Screen {
    SaveRecordOf(s.(saveEnabled := false), f.id, NewRecord(f, secs, env), original, env, outcome)
  }

  /** `saveBookmark()` from the point where the new record `e` is known. */
  function SaveRecordOf(s: Screen, id: string, e: seq<(string, JsValue)>, original: JsValue, env: Env, outcome: Outcome): Screen {
    match BookmarkDiffs.BookmarkDiffOf(original, Obj(e))
    case Failure(_) => s
    case Success(diff) =>
      if diff == [] then Hidden(s)
      else
        match JsonText.BookmarkText(Obj(e), env.parse)
        case Failure(_) => s
        case Success(text) =>
          if "url" in diff then UrlChangedOf(s, id, e, env.base64(text), env, outcome)
          else SameUrlOf(s, id, e, env.base64(text), env, outcome)
  }

  /** The page's cards and dialog, which the handlers change step by step. */
  class Page {
    var cards: map<string, Card>
    var dialogOpen: bool
    var saveEnabled: bool
    var urlExistsShown: bool
    var error: Option<string>
    var calls: seq<Call>

    function State(): Screen
      reads this
    {
      Screen(cards, dialogOpen, saveEnabled, urlExistsShown, error, calls)
    }

    /** A page showing `cards`, with the dialog open on one of them. */
    constructor (cards: map<string, Card>)
      ensures State() == Screen(cards, true, true, false, None, [])
    {
      this.cards := cards;
      dialogOpen := true;
      saveEnabled := true;
      urlExistsShown := false;
      error := None;
      calls := [];
    }

    method EnableSaveButton(enable: bool)
      modifies this
      ensures State() == old(State()).(saveEnabled := enable)
    {
      saveEnabled := enable;
    }

    method DisplayUrlExistsMessage(display: bool)
      modifies this
      ensures State() == old(State()).(urlExistsShown := display)
    {
      urlExistsShown := display;
    }

    method DisplayErrorMsgInModal(msg: Option<string>)
      modifies this
      ensures State() == old(State()).(error := msg)
    {
      error := msg;
    }

    method ErrorHandler(id: string)
      modifies this
      ensures State() == ErrorShown(old(State()), id)
    {
      DisplayErrorMsgInModal(Some(ErrorMessage(id)));
    }

    /** `hideModal()` with `clearModal()`. */
    method HideModal()
      modifies this
      ensures State() == Hidden(old(State()))
    {
      dialogOpen := false;
      DisplayUrlExistsMessage(false);
      DisplayErrorMsgInModal(None);
    }

    /**
     * `writeBookmarkToHtmlCard(bookmarkId, bookmark, bookmarkIdNew)`: on a missing card
     * nothing is written; `completed` is false when `decodeURI` throws, which ends the
     * write after the notes.
     */
    method WriteBookmarkToHtmlCard(id: string, e: seq<(string, JsValue)>, newId: string, decodeUri: string -> Option<string>)
      returns (completed: bool)
      modifies this
      ensures completed == WriteCompletes(e, decodeUri)
      ensures State() == Written(old(State()), id, e, newId, decodeUri)
    {
      if id !in cards {
        var searchText := BuildSearchText(e, decodeUri);
        return searchText.Some?;
      }
      var card := cards[id];
      ghost var c0 := card;
      var name := Lookup(e, "name");
      if name.Str? {
        card := card.(fullName := name.s, shownName := ShownName(name.s));
        if card.title.Some? {
          card := card.(title := Some(name.s));
        }
      } else {
        card := card.(fullName := "", shownName := "");
        if card.title.Some? {
          card := card.(title := Some(""));
        }
      }
      var tags := Lookup(e, "tags");
      card := card.(tags := TagList(tags));
      var notes := Lookup(e, "notes");
      card := card.(notes := TextOf(notes));
      var searchText := BuildSearchText(e, decodeUri);
      if searchText.None? {
        assert card == CardOf(c0, e, decodeUri);
        cards := (cards - {id})[id := card];
        return false;
      }
      card := card.(searchText := searchText.value);
      var key := id;
      var url := Lookup(e, "url");
      if url.Str? && |url.s| > 0 {
        card := card.(href := url.s);
        key := newId;
      }
      assert card == CardOf(c0, e, decodeUri);
      cards := (cards - {id})[key := card];
      completed := true;
    }

    /** A backend call goes out; its answer is `outcome`. */
    method Request(call: Call)
      modifies this
      ensures State() == old(State()).(calls := old(calls) + [call])
    {
      calls := calls + [call];
    }

    method UpdateBookmarkSameUrl(id: string, e: seq<(string, JsValue)>, content: string, env: Env, outcome: Outcome)
      modifies this
      ensures State() == SameUrlOf(old(State()), id, e, content, env, outcome)
    {
      if env.demo {
        var completed := WriteBookmarkToHtmlCard(id, e, id, env.decodeUri);
        if completed {
          HideModal();
        }
      } else {
        Request(UpdateCall(id, Lookup(e, "url"), content));
        if outcome.Ok? {
          var completed := WriteBookmarkToHtmlCard(id, e, id, env.decodeUri);
          if completed {
            HideModal();
          }
        } else {
          ErrorHandler(id);
        }
      }
    }

    method UpdateBookmarkUrlChanged(id: string, e: seq<(string, JsValue)>, content: string, env: Env, outcome: Outcome)
      modifies this
      ensures State() == UrlChangedOf(old(State()), id, e, content, env, outcome)
    {
      var newFilename := Addressing.Url2Filename(Lookup(e, "url"), env.sha1);
      var newid := NewId(newFilename);
      if newid in cards {
        DisplayUrlExistsMessage(true);
        EnableSaveButton(true);
        return;
      } else if env.demo {
        var completed := WriteBookmarkToHtmlCard(id, e, newid, env.decodeUri);
        if completed {
          HideModal();
        }
      } else {
        var sourceLoc := env.collection + "/" + ReplaceFirst(id, '-', '/') + ".json";
        var targetLoc := env.collection + "/" + newFilename;
        Request(MoveCall(Lookup(e, "url"), sourceLoc, targetLoc, content));
        match outcome
        case Ok =>
          var completed := WriteBookmarkToHtmlCard(id, e, newid, env.decodeUri);
          if completed {
            HideModal();
          }
        case Fail(_) =>
          ErrorHandler(id);
        case UrlExists =>
          DisplayUrlExistsMessage(true);
          EnableSaveButton(true);
      }
    }

    /** `saveBookmark()`; `original` is the record decoded from `data-pm-original64`. */
    method SaveBookmark(f: DialogFields, secs: Option<int>, original: JsValue, env: Env, outcome: Outcome)
      modifies this
      ensures State() == SaveOf(old(State()), f, secs, original, env, outcome)
    {
      EnableSaveButton(false);
      var entries := ReadBookmarkFromDialog(f, secs, env.parseTags);
      var bookmark := new Records.Bookmark(entries);
      bookmark.Normalize();
      assert bookmark.entries == NewRecord(f, secs, env);
      SaveRecord(f.id, bookmark.entries, original, env, outcome);
    }

    method SaveRecord(id: string, bookmarkNew: seq<(string, JsValue)>, original: JsValue, env: Env, outcome: Outcome)
      modifies this
      ensures State() == SaveRecordOf(old(State()), id, bookmarkNew, original, env, outcome)
    {
      var diff := BookmarkDiffs.BookmarkDiff(original, Obj(bookmarkNew));
      if diff.Failure? {
        return;
      }
      if |diff.value| > 0 {
        var text := JsonText.BookmarkText(Obj(bookmarkNew), env.parse);
        if text.Failure? {
          return;
        }
        var bookmarkNew64 := env.base64(text.value);
        if "url" in diff.value {
          UpdateBookmarkUrlChanged(id, bookmarkNew, bookmarkNew64, env, outcome);
        } else {
          UpdateBookmarkSameUrl(id, bookmarkNew, bookmarkNew64, env, outcome);
        }
      } else {
        HideModal();
      }
    }
  }

  // ---------------------------------------------------------------------------
  // The decisions of saveBookmark
  // ---------------------------------------------------------------------------

  /** An unchanged record: the dialog closes and no backend call is made (edit.js lines 460-475). */
  lemma SaveUnchanged(s: Screen, id: string, e: seq<(string, JsValue)>, original: JsValue, env: Env, outcome: Outcome)
    requires BookmarkDiffs.BookmarkDiffOf(original, Obj(e)) == Success([])
    ensures SaveRecordOf(s, id, e, original, env, outcome) == Hidden(s)
    ensures SaveRecordOf(s, id, e, original, env, outcome).calls == s.calls
    ensures !SaveRecordOf(s, id, e, original, env, outcome).dialogOpen
  {
  }

  /**
   * A change of anything but the URL, the lone inconsistency sentinel included, is
   * an update in place: outside demo mode exactly one update of the card's own file
   * goes out, and the "URL exists" message is never shown (edit.js lines 461-470).
   * The dialog stays open on a failed update, and also when `decodeURI` throws on the
   * URL while the card is written, which skips `hideModal`.
   */
  lemma SaveSameUrl(s: Screen, id: string, e: seq<(string, JsValue)>, original: JsValue, env: Env, outcome: Outcome)
    requires BookmarkDiffs.BookmarkDiffOf(original, Obj(e)).Success?
    requires var diff := BookmarkDiffs.BookmarkDiffOf(original, Obj(e)).value; diff != [] && "url" !in diff
    requires JsonText.BookmarkText(Obj(e), env.parse).Success?
    ensures var r := SaveRecordOf(s, id, e, original, env, outcome);
      && (env.demo ==> r.calls == s.calls)
      && (!env.demo ==> r.calls == s.calls + [UpdateCall(id, Lookup(e, "url"), env.base64(JsonText.BookmarkText(Obj(e), env.parse).value))])
      && (r.urlExistsShown ==> s.urlExistsShown)
      && (r.dialogOpen <==> s.dialogOpen && ((!env.demo && !outcome.Ok?) || !WriteCompletes(e, env.decodeUri)))
      && (r.error.Some? <==> (!env.demo && !outcome.Ok?) || (!WriteCompletes(e, env.decodeUri) && s.error.Some?))
  {
  }

  /** A changed URL whose file is already on the page: "URL exists", Save enabled, no backend call (edit.js lines 420-423). */
  lemma UrlAlreadyOnPage(s: Screen, id: string, e: seq<(string, JsValue)>, content: string, env: Env, outcome: Outcome)
    requires NewId(NewFilename(e, env)) in s.cards
    ensures UrlChangedOf(s, id, e, content, env, outcome) == s.(urlExistsShown := true, saveEnabled := true)
    ensures UrlChangedOf(s, id, e, content, env, outcome).calls == s.calls
  {
  }

  /**
   * The move of a record to the file of its new URL (edit.js lines 429-444): one move
   * call from the card's location to the new file; success shows the record under the
   * new id and closes the dialog, "URL exists" leaves the cards alone and enables
   * Save again, and any other failure shows the error for the old id. When the move
   * succeeds but `decodeURI` throws on the new URL, the card keeps its old id and the
   * dialog stays as it was, although the server already holds the record under the
   * new file.
   */
  lemma MoveOutcomes(s: Screen, id: string, e: seq<(string, JsValue)>, content: string, env: Env, outcome: Outcome)
    requires NewId(NewFilename(e, env)) !in s.cards && !env.demo
    ensures var r := UrlChangedOf(s, id, e, content, env, outcome);
      && r.calls == s.calls + [MoveCall(Lookup(e, "url"), SourceLoc(env.collection, id),
                                        TargetLoc(env.collection, NewFilename(e, env)), content)]
      && (outcome.Ok? && WriteCompletes(e, env.decodeUri) ==>
            !r.dialogOpen && r.error.None?
            && (id in s.cards && HasUrl(e) ==> NewId(NewFilename(e, env)) in r.cards && id !in r.cards))
      && (outcome.Ok? && !WriteCompletes(e, env.decodeUri) ==>
            r.dialogOpen == s.dialogOpen && r.error == s.error && r.cards.Keys == s.cards.Keys)
      && (outcome.UrlExists? ==> r.urlExistsShown && r.saveEnabled && r.cards == s.cards && r.error == s.error)
      && (outcome.Fail? ==> r.error == Some(ErrorMessage(id)) && r.cards == s.cards && r.dialogOpen == s.dialogOpen)
  {
  }

  /**
   * After a successful move the card's new id locates the very file the move wrote:
   * the conversions of edit.js lines 419 and 430-431 are inverse on every name
   * `url2filename` gives.
   */
  lemma MovedIdLocatesTarget(e: seq<(string, JsValue)>, env: Env)
    ensures FileId(NewId(NewFilename(e, env)))
    ensures SourceLoc(env.collection, NewId(NewFilename(e, env))) == TargetLoc(env.collection, NewFilename(e, env))
  {
    FilenameIdFilename(Lookup(e, "url"), env.sha1);
    SourceOfNewId(env.collection, NewFilename(e, env));
  }
}
