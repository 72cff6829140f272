/**
 * The browser's record serialiser (pagemarks/js/globals.js, `bookmarkToBase64`):
 * `JSON.stringify` with a replacer and an indentation of four spaces, as section 25.5.2
 * of ECMA-262 defines it for the values of this model, followed by the post-processing
 * that puts the tag list on one line. The text is what goes into base 64.
 */
module JsonText {

  import opened Wrappers
  import opened Text
  import opened JsValues
  import Records

  // ---------------------------------------------------------------------------
  // Strings (QuoteJSONString)
  // ---------------------------------------------------------------------------

  function HexDigit(n: nat): (c: char)
    requires n < 16
  {
    if n < 10 then ('0' as int + n) as char else ('a' as int + n - 10) as char
  }

  /** The escape of one character: `"` and `\`, the named control characters, `\u00XX` for the other controls. */
  function EscapeChar(c: char): (r: string)
    ensures |r| >= 1
    ensures r[0] == c || r[0] == '\\'
    ensures c != '"' && c != '\\' && c >= ' ' ==> r == [c]
    ensures forall i :: 0 <= i < |r| ==> r[i] != '_' || c == '_'
  {
    if c == '"' then "\\\""
    else if c == '\\' then "\\\\"
    else if c == '\U{0008}' then "\\b"
    else if c == '\U{000C}' then "\\f"
    else if c == '\n' then "\\n"
    else if c == '\r' then "\\r"
    else if c == '\t' then "\\t"
    else if c < ' ' then "\\u00" + [HexDigit(c as int / 16), HexDigit(c as int % 16)]
    else [c]
  }

  function Escape(s: string): (r: string)
    ensures |r| >= |s|
  {
    if s == [] then [] else EscapeChar(s[0]) + Escape(s[1..])
  }

  /** `JSON.stringify` of a string. */
  function Quote(s: string): (r: string)
    ensures |r| >= 2 && r[0] == '"' && r[|r| - 1] == '"'
  {
    "\"" + Escape(s) + "\""
  }

  lemma {:induction false} EscapeAppend(a: string, b: string)
    ensures Escape(a + b) == Escape(a) + Escape(b)
  {
    if a != [] {
      assert (a + b)[1..] == a[1..] + b;
      EscapeAppend(a[1..], b);
    } else {
      assert a + b == b;
    }
  }

  /** No character that needs an escape. */
  predicate Plain(s: string) {
    forall i :: 0 <= i < |s| ==> s[i] != '"' && s[i] != '\\' && s[i] >= ' '
  }

  lemma {:induction false} EscapePlain(s: string)
    requires Plain(s)
    ensures Escape(s) == s
  {
    if s != [] {
      EscapePlain(s[1..]);
    }
  }

  /** The character a JSON escape sequence after the backslash stands for. */
  function UnescapeChar(s: string): (r: Option<(char, nat)>)
    ensures r.Some? ==> 1 <= r.value.1 <= |s|
  {
    if |s| == 0 then None
    else if s[0] == '"' then Some(('"', 1))
    else if s[0] == '\\' then Some(('\\', 1))
    else if s[0] == '/' then Some(('/', 1))
    else if s[0] == 'b' then Some(('\U{0008}', 1))
    else if s[0] == 'f' then Some(('\U{000C}', 1))
    else if s[0] == 'n' then Some(('\n', 1))
    else if s[0] == 'r' then Some(('\r', 1))
    else if s[0] == 't' then Some(('\t', 1))
    else if |s| >= 5 && s[0] == 'u' && s[1] == '0' && s[2] == '0' && HexValue(s[3]).Some? && HexValue(s[4]).Some? then
      Some(((16 * HexValue(s[3]).value + HexValue(s[4]).value) as char, 5))
    else None
  }

  function HexValue(c: char): (r: Option<nat>)
    ensures r.Some? ==> r.value < 16
  {
    if '0' <= c <= '9' then Some(c as int - '0' as int)
    else if 'a' <= c <= 'f' then Some(c as int - 'a' as int + 10)
    else if 'A' <= c <= 'F' then Some(c as int - 'A' as int + 10)
    else None
  }

  /** The contents of a JSON string literal, as `JSON.parse` reads them (code points up to U+00FF in `\u` escapes). */
  function Unescape(s: string): (r: Option<string>)
    decreases |s|
  {
    if s == [] then Some([])
    else if s[0] == '"' || s[0] < ' ' then None
    else if s[0] != '\\' then
      (match Unescape(s[1..]) case None => None case Some(t) => Some([s[0]] + t))
    else
      match UnescapeChar(s[1..])
      case None => None
      case Some((c, n)) =>
        match Unescape(s[1 + n..])
        case None => None
        case Some(t) => Some([c] + t)
  }

  lemma UnescapeEscapeChar(c: char, rest: string)
    ensures Unescape(EscapeChar(c) + rest) == (match Unescape(rest) case None => None case Some(t) => Some([c] + t))
  {
    if c == '"' {
      UnescapeNamed(c, '"', rest);
    } else if c == '\\' {
      UnescapeNamed(c, '\\', rest);
    } else if c == '\U{0008}' {
      UnescapeNamed(c, 'b', rest);
    } else if c == '\U{000C}' {
      UnescapeNamed(c, 'f', rest);
    } else if c == '\n' {
      UnescapeNamed(c, 'n', rest);
    } else if c == '\r' {
      UnescapeNamed(c, 'r', rest);
    } else if c == '\t' {
      UnescapeNamed(c, 't', rest);
    } else if c < ' ' {
      UnescapeHex(c, rest);
    } else {
      assert ([c] + rest)[1..] == rest;
    }
  }

  /** A two-character escape `\d` standing for `c`. */
  lemma UnescapeNamed(c: char, d: char, rest: string)
    requires EscapeChar(c) == ['\\', d] && UnescapeChar([d]) == Some((c, 1))
    ensures Unescape(EscapeChar(c) + rest) == (match Unescape(rest) case None => None case Some(t) => Some([c] + t))
  {
    var s := ['\\', d] + rest;
    assert s[1..] == [d] + rest && s[2..] == rest;
    assert UnescapeChar([d] + rest) == UnescapeChar([d]);
  }

  /** A control character without a name, written `\u00XX`. */
  lemma UnescapeHex(c: char, rest: string)
    requires c < ' ' && c != '\U{0008}' && c != '\U{000C}' && c != '\n' && c != '\r' && c != '\t'
    ensures Unescape(EscapeChar(c) + rest) == (match Unescape(rest) case None => None case Some(t) => Some([c] + t))
  {
    var h := c as int / 16;
    var l := c as int % 16;
    var e := EscapeChar(c);
    assert e == ['\\', 'u', '0', '0', HexDigit(h), HexDigit(l)];
    assert HexValue(HexDigit(h)) == Some(h);
    assert HexValue(HexDigit(l)) == Some(l);
    var s := e + rest;
    assert s[1..] == e[1..] + rest && s[6..] == rest;
    assert (16 * h + l) as char == c;
  }

  /** Quoting round-trips: `JSON.parse(JSON.stringify(s)) === s` for every string. */
  lemma {:induction false} UnescapeEscape(s: string)
    ensures Unescape(Escape(s)) == Some(s)
  {
    if s != [] {
      UnescapeEscape(s[1..]);
      assert Escape(s) == EscapeChar(s[0]) + Escape(s[1..]);
      UnescapeEscapeChar(s[0], Escape(s[1..]));
      assert [s[0]] + s[1..] == s;
    }
  }

  // ---------------------------------------------------------------------------
  // JSON.stringify
  // ---------------------------------------------------------------------------

  /**
   * A call of `JSON.stringify`: whether it passes the replacer of `bookmarkToBase64`,
   * and its indentation unit (`""` for the compact form).
   */
  datatype Mode = Mode(record: bool, gap: string)

  /** `JSON.stringify(v)`. */
  const Compact: Mode := Mode(false, "")

  /** `JSON.stringify(bookmark, replacer, 4)` in `bookmarkToBase64`. */
  const RecordMode: Mode := Mode(true, "    ")

  /** The text the replacer wraps around the compact tag list. */
  const Marker: string := "____,:,____"

  function Size(v: JsValue): (r: nat)
    ensures r >= 1
  {
    match v
    case Arr(elems) => 1 + ElemsSize(elems)
    case Obj(entries) => 1 + EntriesSize(entries)
    case _ => 1
  }

  function ElemsSize(elems: seq<JsValue>): (r: nat)
    ensures r >= 1
  {
    if elems == [] then 1 else Size(elems[0]) + ElemsSize(elems[1..])
  }

  function EntriesSize(entries: seq<(string, JsValue)>): (r: nat)
    ensures r >= 1
  {
    if entries == [] then 1
    else
      var (_, v) := entries[0];
      assert v < entries[0];
      Size(v) + EntriesSize(entries[1..])
  }

  /** `toJSON`: a `Date` serialises as its ISO string. */
  function ToJson(v: JsValue): (r: JsValue)
    ensures Size(r) == Size(v)
  {
    if v.Date? then Str(Records.IsoString(v.time)) else v
  }

  /** A number as `JSON.stringify` writes an integral one. */
  function NumberText(n: int): string {
    if n < 0 then "-" + Decimal(-n) else Decimal(n)
  }

  /** A member of an object in the output: its key and the text of its value. */
  datatype Member = Member(key: string, value: string)

  function MemberText(m: Mode, mb: Member): string {
    Quote(mb.key) + (if |m.gap| > 0 then ": " else ":") + mb.value
  }

  function MemberTexts(m: Mode, ms: seq<Member>): (r: seq<string>)
    ensures |r| == |ms|
    ensures forall i :: 0 <= i < |ms| ==> r[i] == MemberText(m, ms[i])
  {
    if ms == [] then [] else [MemberText(m, ms[0])] + MemberTexts(m, ms[1..])
  }

  function MemberKeys(ms: seq<Member>): (r: seq<string>)
    ensures |r| == |ms|
    ensures forall i :: 0 <= i < |ms| ==> r[i] == ms[i].key
  {
    if ms == [] then [] else [ms[0].key] + MemberKeys(ms[1..])
  }

  /** The brackets around the items of an array or an object, one item per line when indenting. */
  function Layout(open: string, close: string, items: seq<string>, indent: string, gap: string): string {
    if items == [] then open + close
    else if gap == "" then open + Join(items, ",") + close
    else open + "\n" + indent + gap + Join(items, ",\n" + indent + gap) + "\n" + indent + close
  }

  /**
   * SerializeJSONProperty for the property `key` with value `v`: `toJSON`, then the
   * replacer, then the value. `None` is `undefined`; a `Failure` is an exception.
   */
  function Property(m: Mode, parse: string -> Option<int>, key: string, v: JsValue, indent: string): (r: Result<Option<string>, string>)
    decreases if m.record then 1 else 0, Size(v), 3
  {
    var v1 := ToJson(v);
    var replaced := if m.record then Replacer(parse, key, v1) else Success(Some(v1));
    match replaced
    case Failure(e) => Failure(e)
    case Success(None) => Success(None)
    case Success(Some(w)) => Value(m, parse, w, indent)
  }

  /**
   * The replacer of `bookmarkToBase64` (lines 136-149): it wraps `tags` in markers
   * around its compact form, drops `id`, and normalises a string `date_added` through
   * `new Date`, which `parse` stands for (`None` is an invalid date, on which
   * `toISOString` throws).
   */
  function Replacer(parse: string -> Option<int>, key: string, v: JsValue): (r: Result<Option<JsValue>, string>)
    ensures r.Success? && r.value.Some? ==> Size(r.value.value) <= Size(v)
    decreases 1, Size(v), 2
  {
    if key == "tags" then Success(Some(Str(Marker + CompactText(parse, v) + Marker)))
    else if key == "id" then Success(None)
    else if key == "date_added" && v.Str? then
      match parse(v.s)
      case None => Failure("RangeError")
      case Some(t) =>
        match Records.NormalizeDate(t)
        case Failure(e) => Failure(e)
        case Success(d) => Success(Some(Str(d)))
    else Success(Some(v))
  }

  /** `JSON.stringify(v)` inside a string concatenation: `undefined` reads as `"undefined"`. */
  function CompactText(parse: string -> Option<int>, v: JsValue): string
    decreases 1, Size(v), 1
  {
    match Property(Compact, parse, "", v, "")
    case Success(Some(text)) => text
    case _ => "undefined"
  }

  /** SerializeJSONProperty after the replacer: the text of a value. */
  function Value(m: Mode, parse: string -> Option<int>, v: JsValue, indent: string): (r: Result<Option<string>, string>)
    decreases if m.record then 1 else 0, Size(v), 1
  {
    match v
    case Undefined => Success(None)
    case Null => Success(Some("null"))
    case Bool(b) => Success(Some(if b then "true" else "false"))
    case Num(n) => Success(Some(NumberText(n)))
    case Str(s) => Success(Some(Quote(s)))
    case Date(t) => Success(Some(Quote(Records.IsoString(t))))
    case Arr(elems) =>
      (match Elements(m, parse, elems, 0, indent + m.gap)
       case Failure(e) => Failure(e)
       case Success(items) => Success(Some(Layout("[", "]", items, indent, m.gap))))
    case Obj(entries) =>
      (match Members(m, parse, entries, indent + m.gap)
       case Failure(e) => Failure(e)
       case Success(ms) => Success(Some(Layout("{", "}", MemberTexts(m, ms), indent, m.gap))))
  }

  /** SerializeJSONArray: element `from + i` is written, `null` when undefined. */
  function Elements(m: Mode, parse: string -> Option<int>, elems: seq<JsValue>, from: nat, indent: string): (r: Result<seq<string>, string>)
    ensures r.Success? ==> |r.value| == |elems|
    decreases if m.record then 1 else 0, ElemsSize(elems), 0
  {
    if elems == [] then Success([])
    else
      match Property(m, parse, Decimal(from), elems[0], indent)
      case Failure(e) => Failure(e)
      case Success(p) =>
        match Elements(m, parse, elems[1..], from + 1, indent)
        case Failure(e) => Failure(e)
        case Success(rest) => Success([p.GetOr("null")] + rest)
  }

  /** SerializeJSONObject: the members whose value is not undefined, in property order. */
  function Members(m: Mode, parse: string -> Option<int>, entries: seq<(string, JsValue)>, indent: string): (r: Result<seq<Member>, string>)
    ensures r.Success? ==> |r.value| <= |entries|
    decreases if m.record then 1 else 0, EntriesSize(entries), 0
  {
    if entries == [] then Success([])
    else
      match Property(m, parse, entries[0].0, entries[0].1, indent)
      case Failure(e) => Failure(e)
      case Success(p) =>
        match Members(m, parse, entries[1..], indent)
        case Failure(e) => Failure(e)
        case Success(rest) => if p.Some? then Success([Member(entries[0].0, p.value)] + rest) else Success(rest)
  }

  /**
   * `JSON.stringify(v)` and `JSON.stringify(v, replacer, 4)`: the value under the key
   * `""`. The compact form never throws, and with the replacer the root value other
   * than a date is written as it is.
   */
  function Stringify(m: Mode, parse: string -> Option<int>, v: JsValue): (r: Result<Option<string>, string>)
    ensures m == Compact ==> r.Success?
    ensures m == RecordMode && !v.Date? ==> r == Value(RecordMode, parse, v, "")
  {
    CompactTotal(parse, v, "", "");
    RootReplaced(parse, v);
    Property(m, parse, "", v, "")
  }

  /** At the root the replacer sees the key `""` and returns the value itself. */
  lemma RootReplaced(parse: string -> Option<int>, v: JsValue)
    ensures !v.Date? ==> ToJson(v) == v && Replacer(parse, "", v) == Success(Some(v))
  {
  }

  // ---------------------------------------------------------------------------
  // The post-processing of bookmarkToBase64
  // ---------------------------------------------------------------------------

  /** `s.indexOf(p, k)` for `k <= s.length`. */
  function IndexOfFrom(s: string, p: string, k: nat): (r: int)
    ensures r == -1 || (k <= r && OccursAt(s, p, r))
    decreases |s| - k
  {
    if k + |p| > |s| then -1
    else if s[k..k + |p|] == p then k
    else IndexOfFrom(s, p, k + 1)
  }

  /** `s.indexOf(p)`. */
  function IndexOfText(s: string, p: string): (r: int)
    ensures r == -1 || (r >= 0 && OccursAt(s, p, r))
  {
    IndexOfFrom(s, p, 0)
  }

  /** The search from `k` finds something exactly when `p` occurs at `k` or later. */
  lemma {:induction false} IndexOfFromFinds(s: string, p: string, k: nat)
    ensures IndexOfFrom(s, p, k) != -1 <==> exists i :: k <= i <= |s| && OccursAt(s, p, i)
    decreases |s| - k
  {
    if k + |p| <= |s| && s[k..k + |p|] != p {
      IndexOfFromFinds(s, p, k + 1);
      if exists i :: k <= i <= |s| && OccursAt(s, p, i) {
        var i :| k <= i <= |s| && OccursAt(s, p, i);
        assert i != k;
      }
    }
  }

  /** `s.indexOf(p) !== -1` exactly when `p` is a substring of `s`. */
  lemma IndexOfTextFinds(s: string, p: string)
    ensures IndexOfText(s, p) != -1 <==> Contains(s, p)
  {
    IndexOfFromFinds(s, p, 0);
  }

  /** `s.lastIndexOf(p)`, looking at positions `k` and below. */
  function LastIndexOfFrom(s: string, p: string, k: int): (r: int)
    ensures r == -1 || (0 <= r <= k && OccursAt(s, p, r))
    decreases k
  {
    if k < 0 then -1
    else if k + |p| <= |s| && s[k..k + |p|] == p then k
    else LastIndexOfFrom(s, p, k - 1)
  }

  function LastIndexOfText(s: string, p: string): (r: int)
    ensures r == -1 || (r >= 0 && OccursAt(s, p, r))
  {
    LastIndexOfFrom(s, p, |s| - |p|)
  }

  /** `s.slice(a, e)` for non-negative `a` and `e`. */
  function Slice(s: string, a: int, e: int): (r: string)
    requires 0 <= a && 0 <= e
    ensures a <= e <= |s| ==> r == s[a..e]
  {
    var a' := if a < |s| then a else |s|;
    var e' := if e < |s| then e else |s|;
    if a' >= e' then "" else s[a'..e']
  }

  /** `s.replace(/p/g, rep)` for a literal pattern: non-overlapping, left to right. */
  function ReplaceAll(s: string, p: string, rep: string): string
    requires |p| > 0
  {
    if |s| < |p| then s
    else if s[..|p|] == p then rep + ReplaceAll(s[|p|..], p, rep)
    else [s[0]] + ReplaceAll(s[1..], p, rep)
  }

  /** Lines 151-158: the tag list between the markers loses its escapes and gets a space after each comma. */
  function TagsOnOneLine(b: string): string {
    var p1 := IndexOfText(b, "\"" + Marker);
    var p2 := LastIndexOfText(b, Marker + "\"");
    if p1 > 0 && p2 > p1 then
      var bs := Slice(b, 0, p1);
      var be := Slice(b, p2 + |Marker| + 1, |b|);
      var bt := Slice(b, p1 + |Marker| + 1, p2);
      bs + ReplaceAll(ReplaceAll(bt, "\\\"", "\""), ",", ", ") + be
    else b
  }

  /** The text `bookmarkToBase64` encodes (lines 135-159); the base-64 step itself is not modelled. */
  function BookmarkText(bookmark: JsValue, parse: string -> Option<int>): (r: Result<string, string>)
    ensures r.Failure? <==> Stringify(RecordMode, parse, bookmark).Failure?
    ensures r.Failure? ==> r.error == Stringify(RecordMode, parse, bookmark).error
    ensures r.Success? ==> EndsWith(r.value, "\n")
  {
    match Stringify(RecordMode, parse, bookmark)
    case Failure(e) => Failure(e)
    case Success(text) =>
      var b := text.GetOr("undefined") + "\n";
      assert b[|b| - 1] == '\n';
      TagsKeepLineFeed(b);
      Success(TagsOnOneLine(b))
  }

  // ---------------------------------------------------------------------------
  // Properties
  // ---------------------------------------------------------------------------

  /** The compact form never throws: it has no replacer. */
  lemma {:induction false} CompactTotal(parse: string -> Option<int>, v: JsValue, key: string, indent: string)
    ensures Property(Compact, parse, key, v, indent).Success?
    decreases Size(v), 2
  {
    ValueTotal(parse, ToJson(v), indent);
  }

  lemma {:induction false} ValueTotal(parse: string -> Option<int>, v: JsValue, indent: string)
    ensures Value(Compact, parse, v, indent).Success?
    decreases Size(v), 1
  {
    match v
    case Arr(elems) => ElementsTotal(parse, elems, 0, indent + Compact.gap);
    case Obj(entries) => MembersTotal(parse, entries, indent + Compact.gap);
    case _ =>
  }

  lemma {:induction false} ElementsTotal(parse: string -> Option<int>, elems: seq<JsValue>, from: nat, indent: string)
    ensures Elements(Compact, parse, elems, from, indent).Success?
    decreases ElemsSize(elems), 0
  {
    if elems != [] {
      CompactTotal(parse, elems[0], Decimal(from), indent);
      ElementsTotal(parse, elems[1..], from + 1, indent);
    }
  }

  lemma {:induction false} MembersTotal(parse: string -> Option<int>, entries: seq<(string, JsValue)>, indent: string)
    ensures Members(Compact, parse, entries, indent).Success?
    decreases EntriesSize(entries), 0
  {
    if entries != [] {
      CompactTotal(parse, entries[0].1, entries[0].0, indent);
      MembersTotal(parse, entries[1..], indent);
    }
  }

  /** The keys `bookmarkToBase64` writes: all but `id` and the undefined values (`tags` is always a string). */
  function VisibleKeys(entries: seq<(string, JsValue)>): (r: seq<string>)
    ensures forall i :: 0 <= i < |r| ==> r[i] != "id"
  {
    if entries == [] then []
    else
      var (k, v) := entries[0];
      (if k != "id" && (k == "tags" || !v.Undefined?) then [k] else []) + VisibleKeys(entries[1..])
  }

  /** One property in the record form is skipped exactly when it is `id` or undefined (and not `tags`). */
  lemma PropertyOmitted(parse: string -> Option<int>, k: string, v: JsValue, indent: string)
    requires Property(RecordMode, parse, k, v, indent).Success?
    ensures Property(RecordMode, parse, k, v, indent).value.None? <==> k == "id" || (k != "tags" && v.Undefined?)
  {
    var v1 := ToJson(v);
    var r := Replacer(parse, k, v1);
    RecordProperty(parse, k, v, indent);
    if r.value.Some? {
      ValueNone(RecordMode, parse, r.value.value, indent);
      if k != "tags" {
        ReplacedDefined(parse, k, v1);
      }
    }
  }

  /** In the record form a property is the replacer's result, written out unless it is nothing. */
  lemma RecordProperty(parse: string -> Option<int>, k: string, v: JsValue, indent: string)
    requires Property(RecordMode, parse, k, v, indent).Success?
    ensures var r := Replacer(parse, k, ToJson(v));
      && r.Success?
      && Property(RecordMode, parse, k, v, indent) == (if r.value.None? then Success(None) else Value(RecordMode, parse, r.value.value, indent))
  {
  }

  /** In the record form a property the replacer turns into `w` is written as `w`. */
  lemma ReplacedProperty(parse: string -> Option<int>, k: string, v: JsValue, indent: string, w: JsValue)
    requires Replacer(parse, k, ToJson(v)) == Success(Some(w))
    ensures Property(RecordMode, parse, k, v, indent) == Value(RecordMode, parse, w, indent)
  {
  }

  /** A string is written quoted. */
  lemma StrValue(m: Mode, parse: string -> Option<int>, s: string, indent: string)
    ensures Value(m, parse, Str(s), indent) == Success(Some(Quote(s)))
  {
  }

  /** Of the values, only `undefined` is written as nothing. */
  lemma ValueNone(m: Mode, parse: string -> Option<int>, w: JsValue, indent: string)
    requires Value(m, parse, w, indent).Success?
    ensures Value(m, parse, w, indent).value.None? <==> w.Undefined?
  {
  }

  /** Apart from `tags` and `id`, the replacer keeps whether the value is `undefined`. */
  lemma ReplacedDefined(parse: string -> Option<int>, k: string, v: JsValue)
    requires k != "tags" && k != "id" && Replacer(parse, k, v).Success?
    ensures Replacer(parse, k, v).value.Some? && (Replacer(parse, k, v).value.value.Undefined? <==> v.Undefined?)
  {
  }

  /** `bookmarkToBase64` writes exactly the visible keys, in order, and never `id`. */
  lemma {:induction false} MembersKeys(parse: string -> Option<int>, entries: seq<(string, JsValue)>, indent: string)
    requires Members(RecordMode, parse, entries, indent).Success?
    ensures MemberKeys(Members(RecordMode, parse, entries, indent).value) == VisibleKeys(entries)
  {
    if entries != [] {
      PropertyOmitted(parse, entries[0].0, entries[0].1, indent);
      MembersKeys(parse, entries[1..], indent);
      var ms := Members(RecordMode, parse, entries, indent).value;
      var rest := Members(RecordMode, parse, entries[1..], indent).value;
      if Property(RecordMode, parse, entries[0].0, entries[0].1, indent).value.Some? {
        assert ms == [Member(entries[0].0, Property(RecordMode, parse, entries[0].0, entries[0].1, indent).value.value)] + rest;
        assert MemberKeys(ms) == [entries[0].0] + MemberKeys(rest);
      }
    }
  }

  /** The text of a record object before post-processing: its visible members, one per line. */
  lemma RecordLayout(parse: string -> Option<int>, entries: seq<(string, JsValue)>)
    requires Stringify(RecordMode, parse, Obj(entries)).Success?
    ensures Members(RecordMode, parse, entries, "    ").Success?
    ensures var ms := Members(RecordMode, parse, entries, "    ").value;
            MemberKeys(ms) == VisibleKeys(entries) &&
            Stringify(RecordMode, parse, Obj(entries)) == Success(Some(Layout("{", "}", MemberTexts(RecordMode, ms), "", "    ")))
  {
    assert "" + RecordMode.gap == "    ";
    MembersKeys(parse, entries, "    ");
  }

  /** The rewrite keeps the last character of a text that ends with a line feed. */
  lemma TagsKeepLineFeed(b: string)
    requires |b| > 0 && b[|b| - 1] == '\n'
    ensures EndsWith(TagsOnOneLine(b), "\n")
  {
    var p1 := IndexOfText(b, "\"" + Marker);
    var p2 := LastIndexOfText(b, Marker + "\"");
    if p1 > 0 && p2 > p1 {
      var be := Slice(b, p2 + |Marker| + 1, |b|);
      var front := Slice(b, 0, p1) + ReplaceAll(ReplaceAll(Slice(b, p1 + |Marker| + 1, p2), "\\\"", "\""), ",", ", ");
      MarkedLine(b, p1, p2);
      ClosingTail(b, p2);
      LineFeedAfter(front, be);
    } else {
      UnmarkedLine(b, p1, p2);
      EndsWithLineFeed(b);
    }
  }

  /** With both markers in place, the rewrite is the text before, the rewritten list, and the text after. */
  lemma MarkedLine(b: string, p1: int, p2: int)
    requires p1 == IndexOfText(b, "\"" + Marker) && p2 == LastIndexOfText(b, Marker + "\"") && p1 > 0 && p2 > p1
    ensures TagsOnOneLine(b) ==
      (Slice(b, 0, p1) + ReplaceAll(ReplaceAll(Slice(b, p1 + |Marker| + 1, p2), "\\\"", "\""), ",", ", "))
      + Slice(b, p2 + |Marker| + 1, |b|)
  {
  }

  lemma UnmarkedLine(b: string, p1: int, p2: int)
    requires p1 == IndexOfText(b, "\"" + Marker) && p2 == LastIndexOfText(b, Marker + "\"") && !(p1 > 0 && p2 > p1)
    ensures TagsOnOneLine(b) == b
  {
  }

  lemma LineFeedAfter(front: string, be: string)
    requires |be| > 0 && be[|be| - 1] == '\n'
    ensures EndsWith(front + be, "\n")
  {
    var x := front + be;
    assert x[|x| - 1] == '\n';
    EndsWithLineFeed(x);
  }

  lemma EndsWithLineFeed(x: string)
    requires |x| > 0 && x[|x| - 1] == '\n'
    ensures EndsWith(x, "\n")
  {
    assert x[|x| - 1..] == [x[|x| - 1]];
  }

  /** What follows the closing marker and quote keeps the final line feed. */
  lemma ClosingTail(b: string, p2: int)
    requires |b| > 0 && b[|b| - 1] == '\n' && p2 >= 0 && OccursAt(b, Marker + "\"", p2)
    ensures var be := Slice(b, p2 + |Marker| + 1, |b|); |be| > 0 && be[|be| - 1] == '\n'
  {
    assert b[p2..p2 + 12] == Marker + "\"";
    assert b[p2 + 11] == '"';
    var be := Slice(b, p2 + |Marker| + 1, |b|);
    assert be == b[p2 + 12..];
  }
}
