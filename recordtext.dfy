/**
 * What `bookmarkToBase64` writes for a flat bookmark record: one member per line,
 * no `id`, the date through `normalizeDate`, and the tag list on one line as
 * `["a", "b"]`. `RecordText(Lines(entries))` states the text directly; the
 * theorem `FlatRecordText` proves that `JSON.stringify` with the replacer and the
 * marker rewrite produce exactly that text.
 */
module RecordText {

  import opened Wrappers
  import opened Text
  import opened JsValues
  import Records
  import opened JsonText

  // ---------------------------------------------------------------------------
  // The reference text
  // ---------------------------------------------------------------------------

  /** No two underscores in a row: the marker has them, the record's own text does not. */
  predicate NoDouble(s: string) {
    forall i :: 0 <= i < |s| - 1 ==> !(s[i] == '_' && s[i + 1] == '_')
  }

  predicate NoUnderscore(s: string) {
    forall i :: 0 <= i < |s| ==> s[i] != '_'
  }

  /** A tag the rewrite leaves intact: nothing to escape and no comma. */
  predicate PlainTag(t: string) {
    Plain(t) && forall i :: 0 <= i < |t| ==> t[i] != ','
  }

  function Quotes(ts: seq<string>): (r: seq<string>)
    ensures |r| == |ts|
    ensures forall i :: 0 <= i < |ts| ==> r[i] == Quote(ts[i])
  {
    if ts == [] then [] else [Quote(ts[0])] + Quotes(ts[1..])
  }

  /** A tag list on one line: `["a", "b"]`. */
  function TagText(tags: seq<string>): string {
    "[" + Join(Quotes(tags), ", ") + "]"
  }

  /** `normalizeDate` of a date, as `NormalizeDateShape` states it. */
  function DateText(t: int): string {
    if Records.SecondOfDay(t) == 0 then Records.DatePart(t)
    else Records.DatePart(t) + " " + Records.TimePart(t)
  }

  /**
   * The fields a bookmark has: `tags` an array of plain strings, `date_added` a
   * `Date` that `new Date` reads back from its ISO string, `id` anything, and the
   * others primitives or dates. No key or string has two underscores in a row.
   */
  predicate FlatField(k: string, v: JsValue, parse: string -> Option<int>) {
    NoDouble(k) &&
    if k == "id" then true
    else if k == "tags" then v.Arr? && forall i :: 0 <= i < |v.elems| ==> v.elems[i].Str? && PlainTag(v.elems[i].s)
    else if k == "date_added" then v.Date? && parse(Records.IsoString(v.time)) == Some(v.time)
    else !v.Arr? && !v.Obj? && (v.Str? ==> NoDouble(v.s))
  }

  predicate FlatFields(entries: seq<(string, JsValue)>, parse: string -> Option<int>) {
    forall i :: 0 <= i < |entries| ==> FlatField(entries[i].0, entries[i].1, parse)
  }

  predicate FlatRecord(entries: seq<(string, JsValue)>, parse: string -> Option<int>) {
    DistinctKeys(entries) && FlatFields(entries, parse)
  }

  predicate NoTags(entries: seq<(string, JsValue)>) {
    forall i :: 0 <= i < |entries| ==> entries[i].0 != "tags"
  }

  predicate Visible(k: string, v: JsValue) {
    k != "id" && (k == "tags" || !v.Undefined?)
  }

  /** The text after `"key": ` of a visible field. */
  function FieldText(k: string, v: JsValue): string {
    if k == "tags" && v.Arr? then TagText(Strings(v.elems))
    else if k == "date_added" && v.Date? then Quote(DateText(v.time))
    else
      match v
      case Null => "null"
      case Bool(b) => if b then "true" else "false"
      case Num(n) => NumberText(n)
      case Str(s) => Quote(s)
      case Date(t) => Quote(Records.IsoString(t))
      case _ => ""
  }

  /** The lines of the record's members, in property order. */
  function Lines(entries: seq<(string, JsValue)>): seq<string> {
    if entries == [] then [] else FieldLine(entries[0]) + Lines(entries[1..])
  }

  /** The line of one field, or none when `JSON.stringify` skips it. */
  function FieldLine(e: (string, JsValue)): seq<string> {
    if Visible(e.0, e.1) then [Quote(e.0) + ": " + FieldText(e.0, e.1)] else []
  }

  /** An object with four-space indentation, followed by the final line feed. */
  function RecordText(lines: seq<string>): string {
    if lines == [] then "{}\n" else "{\n    " + Join(lines, ",\n    ") + "\n}\n"
  }

  // ---------------------------------------------------------------------------
  // What JSON.stringify writes before the rewrite
  // ---------------------------------------------------------------------------

  /** The compact `JSON.stringify` of a list of strings. */
  function CompactList(tags: seq<string>): string {
    "[" + Join(Quotes(tags), ",") + "]"
  }

  /** The text after `"key": ` before the rewrite: the tags are a marked string. */
  function RawText(k: string, v: JsValue): string {
    if k == "tags" && v.Arr? then Quote(Marker + CompactList(Strings(v.elems)) + Marker) else FieldText(k, v)
  }

  /** The raw lines: the member texts before the rewrite. */
  function RawLines(entries: seq<(string, JsValue)>): seq<string> {
    if entries == [] then [] else RawLine(entries[0]) + RawLines(entries[1..])
  }

  function RawLine(e: (string, JsValue)): seq<string> {
    if Visible(e.0, e.1) then [Quote(e.0) + ": " + RawText(e.0, e.1)] else []
  }

  /** The members `JSON.stringify` writes for such a record, before they are laid out. */
  function RawMembers(entries: seq<(string, JsValue)>): seq<Member> {
    if entries == [] then []
    else
      var (k, v) := entries[0];
      (if Visible(k, v) then [Member(k, RawText(k, v))] else []) + RawMembers(entries[1..])
  }

  lemma {:induction false} RawMemberTexts(entries: seq<(string, JsValue)>)
    ensures MemberTexts(RecordMode, RawMembers(entries)) == RawLines(entries)
  {
    if entries != [] {
      RawMemberTexts(entries[1..]);
      var (k, v) := entries[0];
      var rest := RawMembers(entries[1..]);
      if Visible(k, v) {
        assert RawMembers(entries) == [Member(k, RawText(k, v))] + rest;
        assert MemberText(RecordMode, Member(k, RawText(k, v))) == Quote(k) + ": " + RawText(k, v);
        assert MemberTexts(RecordMode, [Member(k, RawText(k, v))] + rest) ==
               [MemberText(RecordMode, Member(k, RawText(k, v)))] + MemberTexts(RecordMode, rest) by {
          assert ([Member(k, RawText(k, v))] + rest)[1..] == rest;
        }
      } else {
        assert RawMembers(entries) == rest;
      }
    }
  }

  /** A compact array of strings is the quoted strings between brackets, comma-separated. */
  lemma {:induction false} CompactStrings(parse: string -> Option<int>, elems: seq<JsValue>, from: nat)
    requires forall i :: 0 <= i < |elems| ==> elems[i].Str?
    ensures Elements(Compact, parse, elems, from, "") == Success(Quotes(Strings(elems)))
  {
    if elems != [] {
      CompactStrings(parse, elems[1..], from + 1);
      assert ToJson(elems[0]) == elems[0];
      assert Value(Compact, parse, elems[0], "") == Success(Some(Quote(elems[0].s)));
      assert Property(Compact, parse, Decimal(from), elems[0], "") == Success(Some(Quote(elems[0].s)));
      assert Strings(elems) == [elems[0].s] + Strings(elems[1..]);
    }
  }

  /** The compact text of the tag list. */
  lemma CompactTags(parse: string -> Option<int>, elems: seq<JsValue>)
    requires forall i :: 0 <= i < |elems| ==> elems[i].Str?
    ensures CompactText(parse, Arr(elems)) == CompactList(Strings(elems))
  {
    var items := Quotes(Strings(elems));
    CompactStrings(parse, elems, 0);
    assert "" + Compact.gap == "";
    CompactArray(parse, elems, items);
    CompactLayout(items);
  }

  /** Without a gap the layout is the bracketed items joined by commas, `[]` when there are none. */
  lemma CompactLayout(items: seq<string>)
    ensures Layout("[", "]", items, "", "") == "[" + Join(items, ",") + "]"
  {
    if items == [] {
      assert Join(items, ",") == "";
    }
  }

  /** The compact text of an array whose elements have the texts `items`. */
  lemma CompactArray(parse: string -> Option<int>, elems: seq<JsValue>, items: seq<string>)
    requires Elements(Compact, parse, elems, 0, "") == Success(items)
    ensures CompactText(parse, Arr(elems)) == Layout("[", "]", items, "", "")
  {
    assert "" + Compact.gap == "";
    assert Value(Compact, parse, Arr(elems), "") == Success(Some(Layout("[", "]", items, "", "")));
    assert ToJson(Arr(elems)) == Arr(elems);
    assert Property(Compact, parse, "", Arr(elems), "") == Success(Some(Layout("[", "]", items, "", "")));
  }

  /** The `tags` field: the marked compact list as a string. */
  lemma TagsProperty(parse: string -> Option<int>, v: JsValue)
    requires FlatField("tags", v, parse)
    ensures Property(RecordMode, parse, "tags", v, "    ") == Success(Some(RawText("tags", v)))
  {
    assert v.Arr?;
    CompactTags(parse, v.elems);
    var t := Marker + CompactList(Strings(v.elems)) + Marker;
    assert ToJson(v) == v;
    assert Replacer(parse, "tags", v) == Success(Some(Str(t)));
    ReplacedProperty(parse, "tags", v, "    ", Str(t));
    StrValue(RecordMode, parse, t, "    ");
  }

  /** The `date_added` field: its ISO string, read back and normalised. */
  lemma DateProperty(parse: string -> Option<int>, v: JsValue)
    requires FlatField("date_added", v, parse)
    ensures Property(RecordMode, parse, "date_added", v, "    ") == Success(Some(RawText("date_added", v)))
  {
    assert v.Date?;
    Records.NormalizeDateShape(v.time);
    var iso := Records.IsoString(v.time);
    var t := DateText(v.time);
    assert ToJson(v) == Str(iso);
    assert Replacer(parse, "date_added", Str(iso)) == Success(Some(Str(t)));
    ReplacedProperty(parse, "date_added", v, "    ", Str(t));
    StrValue(RecordMode, parse, t, "    ");
  }

  /** Any other field: the replacer passes it through. */
  lemma OtherProperty(parse: string -> Option<int>, k: string, v: JsValue)
    requires FlatField(k, v, parse) && k != "tags" && k != "date_added" && k != "id"
    ensures Property(RecordMode, parse, k, v, "    ") ==
            if Visible(k, v) then Success(Some(RawText(k, v))) else Success(None)
  {
    assert Replacer(parse, k, ToJson(v)) == Success(Some(ToJson(v)));
  }

  /** One field in the record form: skipped, or written as its raw text. */
  lemma FieldProperty(parse: string -> Option<int>, k: string, v: JsValue)
    requires FlatField(k, v, parse)
    ensures Property(RecordMode, parse, k, v, "    ") ==
            if Visible(k, v) then Success(Some(RawText(k, v))) else Success(None)
  {
    if k == "tags" {
      TagsProperty(parse, v);
    } else if k == "date_added" {
      DateProperty(parse, v);
    } else if k == "id" {
      assert Replacer(parse, k, ToJson(v)) == Success(None);
    } else {
      OtherProperty(parse, k, v);
    }
  }

  lemma {:induction false} MembersFlat(parse: string -> Option<int>, entries: seq<(string, JsValue)>)
    requires FlatFields(entries, parse)
    ensures Members(RecordMode, parse, entries, "    ") == Success(RawMembers(entries))
  {
    if entries != [] {
      var (k, v) := entries[0];
      FieldProperty(parse, k, v);
      MembersFlat(parse, entries[1..]);
      var rest := RawMembers(entries[1..]);
      if Visible(k, v) {
        assert RawMembers(entries) == [Member(k, RawText(k, v))] + rest;
      } else {
        assert RawMembers(entries) == rest;
      }
    }
  }

  lemma {:induction false} StringifyFlat(parse: string -> Option<int>, entries: seq<(string, JsValue)>)
    requires FlatFields(entries, parse)
    ensures Stringify(RecordMode, parse, Obj(entries)).Success?
    ensures Stringify(RecordMode, parse, Obj(entries)).value.GetOr("undefined") + "\n" == RecordText(RawLines(entries))
  {
    MembersFlat(parse, entries);
    RawMemberTexts(entries);
    RecordObject(parse, entries, RawMembers(entries));
    RecordLayoutText(RawLines(entries));
  }

  /** The four-space layout of an object's lines, with the final line feed. */
  lemma RecordLayoutText(items: seq<string>)
    ensures Layout("{", "}", items, "", "    ") + "\n" == RecordText(items)
  {
    if items != [] {
      assert ",\n" + "" + "    " == ",\n    ";
      var j := Join(items, ",\n    ");
      assert "{" + "\n" + "" + "    " + j + "\n" + "" + "}" + "\n" == "{\n    " + j + "\n}\n";
    }
  }

  /** The record form of an object whose members are `ms`. */
  lemma {:induction false} RecordObject(parse: string -> Option<int>, entries: seq<(string, JsValue)>, ms: seq<Member>)
    requires Members(RecordMode, parse, entries, "    ") == Success(ms)
    ensures Stringify(RecordMode, parse, Obj(entries)) == Success(Some(Layout("{", "}", MemberTexts(RecordMode, ms), "", "    ")))
  {
    assert "" + RecordMode.gap == "    ";
  }

  // ---------------------------------------------------------------------------
  // Lines of parts of the record
  // ---------------------------------------------------------------------------

  lemma LinesAppend(a: seq<(string, JsValue)>, b: seq<(string, JsValue)>)
    ensures Lines(a + b) == Lines(a) + Lines(b)
    ensures RawLines(a + b) == RawLines(a) + RawLines(b)
  {
    FieldLinesAppend(a, b);
    RawLinesAppend(a, b);
  }

  lemma {:induction false} FieldLinesAppend(a: seq<(string, JsValue)>, b: seq<(string, JsValue)>)
    ensures Lines(a + b) == Lines(a) + Lines(b)
  {
    if a == [] {
      assert a + b == b;
    } else {
      var ab := a + b;
      assert ab[0] == a[0] && ab[1..] == a[1..] + b;
      FieldLinesAppend(a[1..], b);
      var h := FieldLine(a[0]);
      assert h + (Lines(a[1..]) + Lines(b)) == (h + Lines(a[1..])) + Lines(b);
    }
  }

  lemma {:induction false} RawLinesAppend(a: seq<(string, JsValue)>, b: seq<(string, JsValue)>)
    ensures RawLines(a + b) == RawLines(a) + RawLines(b)
  {
    if a == [] {
      assert a + b == b;
    } else {
      var ab := a + b;
      assert ab[0] == a[0] && ab[1..] == a[1..] + b;
      RawLinesAppend(a[1..], b);
      var h := RawLine(a[0]);
      assert h + (RawLines(a[1..]) + RawLines(b)) == (h + RawLines(a[1..])) + RawLines(b);
    }
  }

  /** Without a `tags` field the raw lines are the lines. */
  lemma {:induction false} RawLinesNoTags(entries: seq<(string, JsValue)>)
    requires NoTags(entries)
    ensures RawLines(entries) == Lines(entries)
  {
    if entries != [] {
      RawLinesNoTags(entries[1..]);
      var (k, v) := entries[0];
      assert RawText(k, v) == FieldText(k, v);
    }
  }

  // ---------------------------------------------------------------------------
  // No double underscores in the record's own text
  // ---------------------------------------------------------------------------

  lemma NoDoubleCat(a: string, b: string)
    requires NoDouble(a) && NoDouble(b)
    requires |a| == 0 || |b| == 0 || a[|a| - 1] != '_' || b[0] != '_'
    ensures NoDouble(a + b)
  {
    var s := a + b;
    forall i | 0 <= i < |s| - 1
      ensures !(s[i] == '_' && s[i + 1] == '_')
    {
      if i + 1 < |a| {
        assert s[i] == a[i] && s[i + 1] == a[i + 1];
      } else if i >= |a| {
        assert s[i] == b[i - |a|] && s[i + 1] == b[i + 1 - |a|];
      }
    }
  }

  lemma NoUnderscoreNoDouble(s: string)
    requires NoUnderscore(s)
    ensures NoDouble(s)
  {
  }

  lemma {:induction false} EscapeNoDouble(s: string)
    requires NoDouble(s)
    ensures NoDouble(Escape(s))
    ensures |s| > 0 ==> Escape(s)[0] == s[0] || Escape(s)[0] == '\\'
  {
    if s != [] {
      var rest := s[1..];
      assert NoDouble(rest) by {
        forall i | 0 <= i < |rest| - 1
          ensures !(rest[i] == '_' && rest[i + 1] == '_')
        {
          assert rest[i] == s[i + 1] && rest[i + 1] == s[i + 2];
        }
      }
      EscapeNoDouble(rest);
      var e := EscapeChar(s[0]);
      assert NoDouble(e) by {
        if s[0] != '_' {
          assert NoUnderscore(e);
        }
      }
      if |rest| > 0 {
        assert s[1] == rest[0];
      }
      NoDoubleCat(e, Escape(rest));
    }
  }

  lemma QuoteNoDouble(s: string)
    requires NoDouble(s)
    ensures NoDouble(Quote(s))
  {
    EscapeNoDouble(s);
    NoDoubleCat("\"", Escape(s));
    NoDoubleCat("\"" + Escape(s), "\"");
  }

  lemma {:induction false} JoinNoDouble(xs: seq<string>, sep: string)
    requires forall i :: 0 <= i < |xs| ==> NoDouble(xs[i])
    requires |sep| > 0 && NoUnderscore(sep)
    ensures NoDouble(Join(xs, sep))
  {
    if |xs| > 1 {
      var front := xs[..|xs| - 1];
      JoinNoDouble(front, sep);
      NoDoubleCat(Join(front, sep), sep);
      NoDoubleCat(Join(front, sep) + sep, xs[|xs| - 1]);
    }
  }

  lemma DigitsNoUnderscore(n: int, w: nat)
    ensures NoUnderscore(Records.Digits(n, w))
  {
    var d := Records.Digits(n, w);
    forall i | 0 <= i < |d|
      ensures d[i] != '_'
    {
      assert IsDigit(d[i]);
    }
  }

  lemma DecimalNoUnderscore(n: nat)
    ensures NoUnderscore(Decimal(n))
  {
    var d := Decimal(n);
    forall i | 0 <= i < |d|
      ensures d[i] != '_'
    {
      assert IsDigit(d[i]);
    }
  }

  lemma DateNoDouble(t: int)
    ensures NoDouble(DateText(t))
    ensures NoDouble(Records.IsoString(t))
  {
    DatePartClean(t);
    TimePartClean(t);
    DigitsNoUnderscore(t % Records.MsPerDay % 1000, 3);
    var date, time := Records.DatePart(t), Records.TimePart(t);
    var ms := Records.Digits(t % Records.MsPerDay % 1000, 3);
    if Records.SecondOfDay(t) != 0 {
      CleanCat3(date, " ", time);
    }
    CleanCat3(date, "T", time);
    CleanCat3(date + "T" + time, ".", ms);
    CleanCat(date + "T" + time + "." + ms, "Z");
    NoUnderscoreNoDouble(DateText(t));
    NoUnderscoreNoDouble(Records.IsoString(t));
  }

  lemma DatePartClean(t: int)
    ensures NoUnderscore(Records.DatePart(t))
  {
    var (y, m, d) := Records.CivilFromDays(t / Records.MsPerDay);
    var ys := Records.YearString(y);
    assert NoUnderscore(ys) by {
      if 0 <= y <= 9999 {
        DigitsNoUnderscore(y, 4);
      } else if y < 0 {
        DigitsNoUnderscore(-y, 6);
        CleanCat("-", Records.Digits(-y, 6));
      } else {
        DigitsNoUnderscore(y, 6);
        CleanCat("+", Records.Digits(y, 6));
      }
    }
    DigitsNoUnderscore(m, 2);
    DigitsNoUnderscore(d, 2);
    CleanCat3(ys, "-", Records.Digits(m, 2));
    CleanCat3(ys + "-" + Records.Digits(m, 2), "-", Records.Digits(d, 2));
  }

  lemma TimePartClean(t: int)
    ensures NoUnderscore(Records.TimePart(t))
  {
    var s := Records.SecondOfDay(t);
    var h, m, c := Records.Digits(s / 3600, 2), Records.Digits(s / 60 % 60, 2), Records.Digits(s % 60, 2);
    DigitsNoUnderscore(s / 3600, 2);
    DigitsNoUnderscore(s / 60 % 60, 2);
    DigitsNoUnderscore(s % 60, 2);
    CleanCat3(h, ":", m);
    CleanCat3(h + ":" + m, ":", c);
  }

  lemma CleanCat(a: string, b: string)
    requires NoUnderscore(a) && NoUnderscore(b)
    ensures NoUnderscore(a + b)
  {
    var s := a + b;
    forall i | 0 <= i < |s| ensures s[i] != '_' {
      if i < |a| {
        assert s[i] == a[i];
      } else {
        assert s[i] == b[i - |a|];
      }
    }
  }

  /** Two clean texts around a one-character separator that is not an underscore. */
  lemma CleanCat3(a: string, sep: string, b: string)
    requires NoUnderscore(a) && NoUnderscore(b) && |sep| == 1 && sep[0] != '_'
    ensures NoUnderscore(a + sep + b)
  {
    CleanCat(a, sep);
    CleanCat(a + sep, b);
  }

  /** A line of a field the rewrite does not touch has no double underscore. */
  lemma LineNoDouble(k: string, v: JsValue, parse: string -> Option<int>)
    requires FlatField(k, v, parse) && k != "tags" && Visible(k, v)
    ensures NoDouble(Quote(k) + ": " + FieldText(k, v))
  {
    QuoteNoDouble(k);
    NoDoubleCat(Quote(k), ": ");
    var f := FieldText(k, v);
    assert NoDouble(f) by {
      if k == "date_added" {
        DateNoDouble(v.time);
        QuoteNoDouble(DateText(v.time));
      } else {
        match v
        case Num(n) =>
          DecimalNoUnderscore(if n < 0 then -n else n);
          assert NoUnderscore(NumberText(n));
        case Str(s) => QuoteNoDouble(s);
        case Date(t) =>
          DateNoDouble(t);
          QuoteNoDouble(Records.IsoString(t));
        case _ =>
      }
    }
    NoDoubleCat(Quote(k) + ": ", f);
  }

  lemma {:induction false} LinesNoDouble(entries: seq<(string, JsValue)>, parse: string -> Option<int>)
    requires FlatFields(entries, parse) && NoTags(entries)
    ensures forall i :: 0 <= i < |Lines(entries)| ==> NoDouble(Lines(entries)[i])
  {
    if entries != [] {
      LinesNoDouble(entries[1..], parse);
      var (k, v) := entries[0];
      if Visible(k, v) {
        LineNoDouble(k, v, parse);
      }
    }
  }

  // ---------------------------------------------------------------------------
  // The marker search
  // ---------------------------------------------------------------------------

  /** `s.indexOf(p, k)` is `j` when `p` occurs at `j` and nowhere in between. */
  lemma {:induction false} IndexOfFirst(s: string, p: string, k: nat, j: nat)
    requires k <= j && OccursAt(s, p, j)
    requires forall i :: k <= i < j ==> !OccursAt(s, p, i)
    ensures IndexOfFrom(s, p, k) == j
    decreases j - k
  {
    if k < j {
      IndexOfFirst(s, p, k + 1, j);
    }
  }

  lemma {:induction false} IndexOfNone(s: string, p: string, k: nat)
    requires forall i :: k <= i <= |s| ==> !OccursAt(s, p, i)
    ensures IndexOfFrom(s, p, k) == -1
    decreases |s| - k
  {
    if k + |p| <= |s| {
      assert !OccursAt(s, p, k);
      IndexOfNone(s, p, k + 1);
    }
  }

  /** `s.lastIndexOf(p)` is `j` when `p` occurs at `j` and at no later position. */
  lemma {:induction false} LastIndexOfLast(s: string, p: string, k: int, j: nat)
    requires j <= k && OccursAt(s, p, j)
    requires forall i :: j < i <= k ==> !OccursAt(s, p, i)
    ensures LastIndexOfFrom(s, p, k) == j
    decreases k
  {
    if k > j {
      assert !OccursAt(s, p, k);
      LastIndexOfLast(s, p, k - 1, j);
    }
  }

  /** Without a double underscore there is no marker, and the rewrite changes nothing. */
  lemma NoMarker(b: string)
    requires NoDouble(b)
    ensures TagsOnOneLine(b) == b
  {
    var p := "\"" + Marker;
    assert p[1] == '_' && p[2] == '_';
    forall i | 0 <= i <= |b|
      ensures !OccursAt(b, p, i)
    {
      if i + 2 < |b| {
        assert !(b[i + 1] == '_' && b[i + 2] == '_');
      }
    }
    IndexOfNone(b, p, 0);
  }

  /** The marked string `"____,:,____…____,:,____"` after a text `a` without double underscores. */
  lemma FirstMarker(a: string, rest: string)
    requires |a| > 0 && NoDouble(a)
    ensures IndexOfText(a + "\"" + Marker + rest, "\"" + Marker) == |a|
  {
    var s := a + "\"" + Marker + rest;
    var p := "\"" + Marker;
    assert p[1] == '_' && p[2] == '_';
    assert s[|a|..|a| + 12] == p;
    forall i | 0 <= i < |a|
      ensures !OccursAt(s, p, i)
    {
      if i + 2 < |a| {
        assert a[i + 1] == s[i + 1] && a[i + 2] == s[i + 2];
        assert !(s[i + 1] == '_' && s[i + 2] == '_');
      } else {
        assert s[|a|] == '"';
      }
    }
    IndexOfFirst(s, p, 0, |a|);
  }

  /** The position, in an occurrence of `____,:,____"` shifted by `d`, of a character that disagrees. */
  function Mismatch(d: int): int {
    if d <= 4 then 4 - d else if d <= 6 then 0 else 11 - d
  }

  /** The closing marker does not overlap itself. */
  lemma MarkerOverlap(d: int)
    requires 1 <= d <= 11
    ensures 0 <= Mismatch(d) && d + Mismatch(d) < 12
    ensures (Marker + "\"")[d + Mismatch(d)] != (Marker + "\"")[Mismatch(d)]
  {
    var p := Marker + "\"";
    assert p == ['_', '_', '_', '_', ',', ':', ',', '_', '_', '_', '_', '"'];
  }

  /** The closing marker followed by a text `b` without double underscores is the last one. */
  lemma LastMarker(pre: string, b: string)
    requires NoDouble(b)
    ensures LastIndexOfText(pre + Marker + "\"" + b, Marker + "\"") == |pre|
  {
    var s := pre + Marker + "\"" + b;
    var p := Marker + "\"";
    var n := |pre|;
    assert s[n..n + 12] == p;
    forall i | n < i <= |s| - |p|
      ensures !OccursAt(s, p, i)
    {
      if i >= n + 12 {
        NoMarkerInTail(pre, b, i);
      } else {
        NoMarkerOverlap(pre, b, i);
      }
    }
    LastIndexOfLast(s, p, |s| - |p|, n);
  }

  lemma NoMarkerInTail(pre: string, b: string, i: int)
    requires NoDouble(b) && |pre| + 12 <= i <= |pre| + |b|
    ensures !OccursAt(pre + Marker + "\"" + b, Marker + "\"", i)
  {
    var s := pre + Marker + "\"" + b;
    var p := Marker + "\"";
    var j := i - |pre| - 12;
    assert p[0] == '_' && p[1] == '_';
    assert b[j] == s[i] && b[j + 1] == s[i + 1];
    assert !(b[j] == '_' && b[j + 1] == '_');
  }

  lemma NoMarkerOverlap(pre: string, b: string, i: int)
    requires |pre| < i < |pre| + 12
    ensures !OccursAt(pre + Marker + "\"" + b, Marker + "\"", i)
  {
    var s := pre + Marker + "\"" + b;
    var p := Marker + "\"";
    var n := |pre|;
    MarkerOverlap(i - n);
    var o := Mismatch(i - n);
    assert s[i + o] == p[i - n + o];
  }

  /** The rewrite on a text with one marked string: the string's escapes and commas are rewritten in place. */
  lemma Rewrite(a: string, e: string, b: string)
    requires |a| > 0 && NoDouble(a) && NoDouble(b)
    ensures TagsOnOneLine(a + "\"" + Marker + e + Marker + "\"" + b) ==
            a + ReplaceAll(ReplaceAll(e, "\\\"", "\""), ",", ", ") + b
  {
    var s := a + "\"" + Marker + e + Marker + "\"" + b;
    MarkedParts(s, a, e, b);
    FirstMarker(a, e + Marker + "\"" + b);
    LastMarker(a + "\"" + Marker + e, b);
    var p2 := |a| + 12 + |e|;
    TagsOnOneLineAt(s, |a|, p2);
    assert s[..|a|] == a && s[|a| + 12..p2] == e && s[p2 + 12..] == b;
  }

  /** The pieces of a text with one marked string. */
  lemma MarkedParts(s: string, a: string, e: string, b: string)
    requires s == a + "\"" + Marker + e + Marker + "\"" + b
    ensures s == a + "\"" + Marker + (e + Marker + "\"" + b)
    ensures s == (a + "\"" + Marker + e) + Marker + "\"" + b
    ensures |s| == |a| + 24 + |e| + |b|
    ensures s[..|a|] == a && s[|a| + 12..|a| + 12 + |e|] == e && s[|a| + 12 + |e| + 12..] == b
  {
    var p2 := |a| + 12 + |e|;
    assert s[..|a|] == a;
    assert s[|a| + 12..p2] == e;
    assert s[p2 + 12..] == b;
  }

  /** The rewrite where the first opening and the last closing marker are at `p1` and `p2`. */
  lemma TagsOnOneLineAt(s: string, p1: int, p2: int)
    requires p1 == IndexOfText(s, "\"" + Marker) && p2 == LastIndexOfText(s, Marker + "\"")
    requires 0 < p1 && p1 + 12 <= p2 && p2 + 12 <= |s|
    ensures TagsOnOneLine(s) == s[..p1] + ReplaceAll(ReplaceAll(s[p1 + 12..p2], "\\\"", "\""), ",", ", ") + s[p2 + 12..]
  {
  }

  // ---------------------------------------------------------------------------
  // The tag list between the markers
  // ---------------------------------------------------------------------------

  /** A text without backslashes and control characters: removing `\` before `"` undoes the escapes. */
  lemma {:induction false} UnescapeQuotes(s: string)
    requires forall i :: 0 <= i < |s| ==> s[i] != '\\' && s[i] >= ' '
    ensures ReplaceAll(Escape(s), "\\\"", "\"") == s
  {
    if s != [] {
      var rest := s[1..];
      UnescapeQuotes(rest);
      var er := Escape(rest);
      if s[0] == '"' {
        assert Escape(s) == "\\\"" + er;
        assert (Escape(s))[2..] == er;
      } else {
        assert Escape(s) == [s[0]] + er;
        if |Escape(s)| >= 2 {
          assert Escape(s)[1..] == er;
        }
      }
    }
  }

  lemma CommaFree(s: string)
    requires forall i :: 0 <= i < |s| ==> s[i] != ','
    ensures ReplaceAll(s, ",", ", ") == s
  {
  }

  lemma {:induction false} CommaAppend(a: string, b: string)
    ensures ReplaceAll(a + b, ",", ", ") == ReplaceAll(a, ",", ", ") + ReplaceAll(b, ",", ", ")
  {
    if a == [] {
      assert a + b == b;
    } else {
      assert (a + b)[1..] == a[1..] + b;
      assert (a + b)[..1] == a[..1];
      CommaAppend(a[1..], b);
    }
  }

  lemma {:induction false} CommaJoin(xs: seq<string>)
    requires forall i, j :: 0 <= i < |xs| && 0 <= j < |xs[i]| ==> xs[i][j] != ','
    ensures ReplaceAll(Join(xs, ","), ",", ", ") == Join(xs, ", ")
  {
    if |xs| == 1 {
      CommaFree(xs[0]);
    } else if |xs| > 1 {
      var front := xs[..|xs| - 1];
      CommaJoin(front);
      CommaAppend(Join(front, ",") + ",", xs[|xs| - 1]);
      CommaAppend(Join(front, ","), ",");
      CommaFree(xs[|xs| - 1]);
    }
  }

  lemma {:induction false} PlainQuotes(tags: seq<string>)
    requires forall i :: 0 <= i < |tags| ==> PlainTag(tags[i])
    ensures forall i, j :: 0 <= i < |tags| && 0 <= j < |Quotes(tags)[i]| ==> Quotes(tags)[i][j] != ',' && Quotes(tags)[i][j] != '\\' && Quotes(tags)[i][j] >= ' '
  {
    forall i | 0 <= i < |tags|
      ensures forall j :: 0 <= j < |Quote(tags[i])| ==> Quote(tags[i])[j] != ',' && Quote(tags[i])[j] != '\\' && Quote(tags[i])[j] >= ' '
    {
      EscapePlain(tags[i]);
    }
  }

  lemma {:induction false} JoinChars(xs: seq<string>, sep: string)
    requires forall i, j :: 0 <= i < |xs| && 0 <= j < |xs[i]| ==> xs[i][j] != '\\' && xs[i][j] >= ' '
    requires forall j :: 0 <= j < |sep| ==> sep[j] != '\\' && sep[j] >= ' '
    ensures forall j :: 0 <= j < |Join(xs, sep)| ==> Join(xs, sep)[j] != '\\' && Join(xs, sep)[j] >= ' '
  {
    if |xs| > 1 {
      JoinChars(xs[..|xs| - 1], sep);
    }
  }

  /** Between the markers the escaped compact list becomes the one-line list. */
  lemma {:induction false} TagListRewrite(tags: seq<string>)
    requires forall i :: 0 <= i < |tags| ==> PlainTag(tags[i])
    ensures ReplaceAll(ReplaceAll(Escape(CompactList(tags)), "\\\"", "\""), ",", ", ") == TagText(tags)
  {
    var qs := Quotes(tags);
    PlainQuotes(tags);
    JoinChars(qs, ",");
    var j := Join(qs, ",");
    BracketChars(j);
    UnescapeQuotes(CompactList(tags));
    CommaJoin(qs);
    CommaBrackets(j);
  }

  /** Brackets around a text without backslashes and control characters add none. */
  lemma BracketChars(j: string)
    requires forall i :: 0 <= i < |j| ==> j[i] != '\\' && j[i] >= ' '
    ensures forall i :: 0 <= i < |"[" + j + "]"| ==> ("[" + j + "]")[i] != '\\' && ("[" + j + "]")[i] >= ' '
  {
  }

  /** The comma rewrite passes over the brackets. */
  lemma CommaBrackets(j: string)
    ensures ReplaceAll("[" + j + "]", ",", ", ") == "[" + ReplaceAll(j, ",", ", ") + "]"
  {
    CommaAppend("[" + j, "]");
    CommaAppend("[", j);
    assert ReplaceAll("]", ",", ", ") == "]";
    assert ReplaceAll("[", ",", ", ") == "[";
  }

  /** The escaped marked string: the markers need no escapes. */
  lemma MarkedQuote(mk: string, c: string)
    requires Plain(mk)
    ensures Quote(mk + c + mk) == "\"" + mk + Escape(c) + mk + "\""
  {
    EscapeAppend(mk + c, mk);
    EscapeAppend(mk, c);
    EscapePlain(mk);
    QuoteParts(mk, Escape(c));
  }

  lemma QuoteParts(mk: string, ec: string)
    ensures "\"" + (mk + ec + mk) + "\"" == "\"" + mk + ec + mk + "\""
  {
  }

  // ---------------------------------------------------------------------------
  // The theorem
  // ---------------------------------------------------------------------------

  lemma {:induction false} JoinSplit(xs: seq<string>, x: string, ys: seq<string>, sep: string)
    ensures Join(xs + [x] + ys, sep) ==
            (if xs == [] then "" else Join(xs, sep) + sep) + x + (if ys == [] then "" else sep + Join(ys, sep))
    decreases |ys|
  {
    if ys == [] {
      assert xs + [x] + ys == xs + [x];
      if xs != [] {
        assert (xs + [x])[..|xs + [x]| - 1] == xs;
      }
    } else {
      var ys' := ys[..|ys| - 1];
      var y := ys[|ys| - 1];
      assert xs + [x] + ys == (xs + [x] + ys') + [y];
      assert (xs + [x] + ys)[..|xs + [x] + ys| - 1] == xs + [x] + ys';
      JoinSplit(xs, x, ys', sep);
      if ys' != [] {
        assert ys[..|ys| - 1] == ys';
      }
    }
  }

  /** The record's text with the tag line `t` between the lines `l1` and `l2`. */
  lemma {:induction false} TextAround(l1: seq<string>, t: string, l2: seq<string>)
    ensures RecordText(l1 + [t] + l2) ==
            "{\n    " + (if l1 == [] then "" else Join(l1, ",\n    ") + ",\n    ") + t +
            ((if l2 == [] then "" else ",\n    " + Join(l2, ",\n    ")) + "\n}\n")
  {
    JoinSplit(l1, t, l2, ",\n    ");
  }

  lemma {:induction false} AroundNoDouble(l1: seq<string>, l2: seq<string>)
    requires forall i :: 0 <= i < |l1| ==> NoDouble(l1[i])
    requires forall i :: 0 <= i < |l2| ==> NoDouble(l2[i])
    ensures NoDouble("{\n    " + (if l1 == [] then "" else Join(l1, ",\n    ") + ",\n    ") + "\"tags\": ")
    ensures NoDouble((if l2 == [] then "" else ",\n    " + Join(l2, ",\n    ")) + "\n}\n")
  {
    var sep := ",\n    ";
    JoinNoDouble(l1, sep);
    JoinNoDouble(l2, sep);
    var j1 := if l1 == [] then "" else Join(l1, sep) + sep;
    if l1 != [] {
      NoDoubleCat(Join(l1, sep), sep);
    }
    NoDoubleCat("{\n    ", j1);
    NoDoubleCat("{\n    " + j1, "\"tags\": ");
    var j2 := if l2 == [] then "" else sep + Join(l2, sep);
    if l2 != [] {
      NoDoubleCat(sep, Join(l2, sep));
    }
    NoDoubleCat(j2, "\n}\n");
  }

  /** The tag line before and after the rewrite. */
  function RawTagLine(tags: seq<string>): string {
    "\"tags\": " + Quote(Marker + CompactList(tags) + Marker)
  }

  function TagLine(tags: seq<string>): string {
    "\"tags\": " + TagText(tags)
  }

  predicate NoDoubleLines(ls: seq<string>) {
    forall i :: 0 <= i < |ls| ==> NoDouble(ls[i])
  }

  /** A record with a `tags` field at position `i`: the lines around the tag line. */
  lemma {:induction false} TaggedLines(entries: seq<(string, JsValue)>, parse: string -> Option<int>, i: nat)
    requires FlatRecord(entries, parse) && i < |entries| && entries[i].0 == "tags"
    ensures entries[i].1.Arr?
    ensures var tags := Strings(entries[i].1.elems);
            var l1 := Lines(entries[..i]);
            var l2 := Lines(entries[i + 1..]);
            (forall j :: 0 <= j < |tags| ==> PlainTag(tags[j])) &&
            NoDoubleLines(l1) && NoDoubleLines(l2) &&
            RawLines(entries) == l1 + [RawTagLine(tags)] + l2 &&
            Lines(entries) == l1 + [TagLine(tags)] + l2
  {
    var front := entries[..i];
    var back := entries[i + 1..];
    assert FlatField(entries[i].0, entries[i].1, parse);
    TagFieldLines(entries[i], parse);
    LinesAround(entries, i);
    UntaggedParts(entries, parse, i);
    RawLinesNoTags(front);
    RawLinesNoTags(back);
    LinesNoDouble(front, parse);
    LinesNoDouble(back, parse);
  }

  /** The lines of a record split at position `i`. */
  lemma LinesAround(entries: seq<(string, JsValue)>, i: nat)
    requires i < |entries|
    ensures Lines(entries) == Lines(entries[..i]) + FieldLine(entries[i]) + Lines(entries[i + 1..])
    ensures RawLines(entries) == RawLines(entries[..i]) + RawLine(entries[i]) + RawLines(entries[i + 1..])
  {
    var front := entries[..i];
    var back := entries[i + 1..];
    var x := entries[i];
    SplitAt(entries, i);
    LinesAppend(front + [x], back);
    LinesAppend(front, [x]);
    OneEntryLines(x);
  }

  lemma SplitAt(entries: seq<(string, JsValue)>, i: nat)
    requires i < |entries|
    ensures entries == entries[..i] + [entries[i]] + entries[i + 1..]
  {
  }

  lemma OneEntryLines(x: (string, JsValue))
    ensures Lines([x]) == FieldLine(x) && RawLines([x]) == RawLine(x)
  {
    assert [x][1..] == [];
  }

  /** The `tags` field of a flat record: an array of plain tags, written on its tag line. */
  lemma TagFieldLines(e: (string, JsValue), parse: string -> Option<int>)
    requires FlatField(e.0, e.1, parse) && e.0 == "tags"
    ensures e.1.Arr?
    ensures forall j :: 0 <= j < |Strings(e.1.elems)| ==> PlainTag(Strings(e.1.elems)[j])
    ensures RawLine(e) == [RawTagLine(Strings(e.1.elems))]
    ensures FieldLine(e) == [TagLine(Strings(e.1.elems))]
  {
    var (k, v) := e;
    var tags := Strings(v.elems);
    assert Quote(k) == "\"tags\"" by {
      EscapePlain(k);
    }
    assert Quote(k) + ": " == "\"tags\": ";
    assert RawLine(e) == [Quote(k) + ": " + RawText(k, v)];
    assert RawText(k, v) == Quote(Marker + CompactList(tags) + Marker);
    forall j | 0 <= j < |tags|
      ensures PlainTag(tags[j])
    {
      assert Str(tags[j]) in v.elems;
    }
  }

  /** Only the field at `i` is `tags`: the parts before and after it have none. */
  lemma UntaggedParts(entries: seq<(string, JsValue)>, parse: string -> Option<int>, i: nat)
    requires FlatRecord(entries, parse) && i < |entries| && entries[i].0 == "tags"
    ensures FlatFields(entries[..i], parse) && NoTags(entries[..i])
    ensures FlatFields(entries[i + 1..], parse) && NoTags(entries[i + 1..])
  {
    var front := entries[..i];
    var back := entries[i + 1..];
    forall j | 0 <= j < |front|
      ensures FlatField(front[j].0, front[j].1, parse) && front[j].0 != "tags"
    {
      assert front[j] == entries[j];
    }
    forall j | 0 <= j < |back|
      ensures FlatField(back[j].0, back[j].1, parse) && back[j].0 != "tags"
    {
      assert back[j] == entries[i + 1 + j];
    }
  }

  /** The rewrite turns the marked tag line into the one-line list and leaves the other lines alone. */
  lemma {:induction false} TagLineRewrite(l1: seq<string>, tags: seq<string>, l2: seq<string>)
    requires NoDoubleLines(l1) && NoDoubleLines(l2)
    requires forall j :: 0 <= j < |tags| ==> PlainTag(tags[j])
    ensures TagsOnOneLine(RecordText(l1 + [RawTagLine(tags)] + l2)) == RecordText(l1 + [TagLine(tags)] + l2)
  {
    var c := CompactList(tags);
    var e := Escape(c);
    var pre := "{\n    " + (if l1 == [] then "" else Join(l1, ",\n    ") + ",\n    ");
    var b := (if l2 == [] then "" else ",\n    " + Join(l2, ",\n    ")) + "\n}\n";
    var a := pre + "\"tags\": ";
    TextAround(l1, RawTagLine(tags), l2);
    TextAround(l1, TagLine(tags), l2);
    AroundNoDouble(l1, l2);
    assert Plain(Marker);
    MarkedQuote(Marker, c);
    Regroup(pre, "\"tags\": ", Quote(Marker + c + Marker), b);
    RegroupMarked(a, "\"", Marker, e, b);
    Rewrite(a, e, b);
    TagListRewrite(tags);
    Regroup(pre, "\"tags\": ", TagText(tags), b);
  }

  lemma RegroupMarked(a: string, q: string, m: string, e: string, b: string)
    ensures a + (q + m + e + m + q) + b == a + q + m + e + m + q + b
  {
  }

  lemma Regroup(p: string, x: string, y: string, b: string)
    ensures p + (x + y) + b == (p + x) + y + b
  {
  }

  /**
   * For a flat record, `bookmarkToBase64` encodes exactly `RecordText(Lines(entries))`:
   * the visible members one per line in property order, no `id`, the date normalised,
   * and the tags as `"tags": ["a", "b"]`, ending with a line feed.
   */
  lemma {:induction false} FlatRecordText(entries: seq<(string, JsValue)>, parse: string -> Option<int>)
    requires FlatRecord(entries, parse)
    ensures BookmarkText(Obj(entries), parse) == Success(RecordText(Lines(entries)))
  {
    if i :| 0 <= i < |entries| && entries[i].0 == "tags" {
      TaggedRecordText(entries, parse, i);
    } else {
      UntaggedRecordText(entries, parse);
    }
  }

  /** A record with tags at position `i`: the rewrite puts the tag list on its line. */
  lemma TaggedRecordText(entries: seq<(string, JsValue)>, parse: string -> Option<int>, i: nat)
    requires FlatRecord(entries, parse) && i < |entries| && entries[i].0 == "tags"
    ensures BookmarkText(Obj(entries), parse) == Success(RecordText(Lines(entries)))
  {
    StringifyFlat(parse, entries);
    TaggedLines(entries, parse, i);
    TagLineRewrite(Lines(entries[..i]), Strings(entries[i].1.elems), Lines(entries[i + 1..]));
  }

  /** A record without tags: the rewrite finds no marker and leaves the text alone. */
  lemma UntaggedRecordText(entries: seq<(string, JsValue)>, parse: string -> Option<int>)
    requires FlatRecord(entries, parse) && NoTags(entries)
    ensures BookmarkText(Obj(entries), parse) == Success(RecordText(Lines(entries)))
  {
    RawLinesNoTags(entries);
    LinesNoDouble(entries, parse);
    StringifyFlat(parse, entries);
    RecordTextNoDouble(Lines(entries));
    NoMarker(RecordText(Lines(entries)));
  }

  /** The braces and separators around lines without `__` add none. */
  lemma RecordTextNoDouble(ls: seq<string>)
    requires forall i :: 0 <= i < |ls| ==> NoDouble(ls[i])
    ensures NoDouble(RecordText(ls))
  {
    FramesFree();
    if ls != [] {
      var j := Join(ls, ",\n    ");
      JoinNoDouble(ls, ",\n    ");
      NoDoubleCat("{\n    ", j);
      NoDoubleCat("{\n    " + j, "\n}\n");
    } else {
      NoUnderscoreNoDouble("{}\n");
    }
  }

  lemma FramesFree()
    ensures NoUnderscore("{\n    ") && NoUnderscore(",\n    ") && NoUnderscore("\n}\n") && NoUnderscore("{}\n")
    ensures NoDouble("{\n    ") && NoDouble("\n}\n")
  {
    NoUnderscoreNoDouble("{\n    ");
    NoUnderscoreNoDouble("\n}\n");
  }
}
