/**
 * The browser's record clean-up (pagemarks/js/globals.js): `normalizeBookmark`, which
 * trims string fields in place and deletes the empty ones, and `normalizeDate`, which
 * formats a `Date` the way the Python side writes dates, collapsing midnight to a date.
 */
module Records {

  import opened Wrappers
  import opened Text
  import opened JsValues

  // ---------------------------------------------------------------------------
  // normalizeBookmark
  // ---------------------------------------------------------------------------

  /** `elems.filter(tag => typeof(tag) === 'string').map(tag => tag.trim())`. */
  function TrimmedStrings(elems: seq<JsValue>): (r: seq<JsValue>)
    ensures |r| <= |elems|
    ensures forall i :: 0 <= i < |r| ==> r[i].Str? && Trim(Js, r[i].s) == r[i].s
    ensures |r| == |Strings(elems)|
  {
    if elems == [] then []
    else if elems[0].Str? then
      TrimIdempotent(Js, elems[0].s);
      [Str(Trim(Js, elems[0].s))] + TrimmedStrings(elems[1..])
    else TrimmedStrings(elems[1..])
  }

  /** What one pass does to a field value; `None` when the field is deleted. */
  function NormalizedValue(v: JsValue): Option<JsValue> {
    match v
    case Str(s) => if |Trim(Js, s)| == 0 then None else Some(Str(Trim(Js, s)))
    case Arr(elems) => if |elems| == 0 then None else Some(Arr(TrimmedStrings(elems)))
    case _ => Some(v)
  }

  /** The properties after one pass, in their original order. */
  function NormalizedEntries(entries: seq<(string, JsValue)>): seq<(string, JsValue)> {
    if entries == [] then [] else NormalizedEntries(entries[..|entries| - 1]) + Survivor(entries[|entries| - 1])
  }

  /** A JavaScript object whose properties `normalizeBookmark` rewrites and deletes in place. */
  class Bookmark {
    var entries: seq<(string, JsValue)>

    constructor(entries: seq<(string, JsValue)>)
      ensures this.entries == entries
    {
      this.entries := entries;
    }

    /**
     * `normalizeBookmark` (globals.js lines 58-78). The `for…in` loop visits the
     * keys present when it starts; deleting the current key does not disturb it.
     */
    method Normalize()
      modifies this
      ensures entries == NormalizedEntries(old(entries))
    {
      ghost var original := entries;
      ghost var done: seq<(string, JsValue)> := [];
      var keys := Keys(entries);
      var i := 0;
      var j := 0;
      assert original[..0] == [];
      while i < |keys|
        invariant 0 <= i <= |keys| == |original|
        invariant done == NormalizedEntries(original[..i])
        invariant entries == done + original[i..]
        invariant j == |done|
      {
        ghost var x, rest := original[i], original[i + 1..];
        LoopStep(original, i, done);
        assert keys[i] == x.0;
        var kept := NormalizeProperty(j, keys[i], done, x, rest);
        done := done + Survivor(x);
        if kept {
          j := j + 1;
        }
        i := i + 1;
      }
      assert original[..i] == original;
    }

    /** The body of the loop for the property at position `j`, named `key`. */
    method NormalizeProperty(j: nat, key: string, ghost front: seq<(string, JsValue)>, ghost x: (string, JsValue),
                             ghost rest: seq<(string, JsValue)>) returns (kept: bool)
      requires entries == front + [x] + rest && j == |front| && x.0 == key
      modifies this
      ensures entries == front + Survivor(x) + rest
      ensures kept <==> |Survivor(x)| == 1
    {
      var v := entries[j].1;
      kept := true;
      if v.Str? {
        var trimmed := Trim(Js, v.s);
        entries := entries[j := (key, Str(trimmed))];
        ReplaceAt(front, x, rest, (key, Str(trimmed)));
        if |trimmed| == 0 {
          entries := entries[..j] + entries[j + 1..];
          DeleteAt(front, (key, Str(trimmed)), rest);
          kept := false;
        }
      } else if v.Arr? {
        if |v.elems| == 0 {
          entries := entries[..j] + entries[j + 1..];
          DeleteAt(front, x, rest);
          kept := false;
        } else {
          entries := entries[j := (key, Arr(TrimmedStrings(v.elems)))];
          ReplaceAt(front, x, rest, (key, Arr(TrimmedStrings(v.elems))));
        }
      }
    }
  }

  /** What becomes of one property: nothing, or the property with its normalized value. */
  function Survivor(p: (string, JsValue)): (r: seq<(string, JsValue)>)
    ensures |r| <= 1
    ensures |r| == 1 ==> r[0].0 == p.0
  {
    match NormalizedValue(p.1)
    case None => []
    case Some(w) => [(p.0, w)]
  }

  lemma ReplaceAt<T>(front: seq<T>, x: T, rest: seq<T>, y: T)
    ensures (front + [x] + rest)[|front| := y] == front + [y] + rest
  {
  }

  lemma DeleteAt<T>(front: seq<T>, x: T, rest: seq<T>)
    ensures (front + [x] + rest)[..|front|] + (front + [x] + rest)[|front| + 1..] == front + rest
  {
    assert (front + [x] + rest)[..|front|] == front;
    assert (front + [x] + rest)[|front| + 1..] == rest;
  }

  /** One more property through the pass. */
  lemma NormalizedStep(entries: seq<(string, JsValue)>, i: nat)
    requires i < |entries|
    ensures NormalizedEntries(entries[..i + 1]) == NormalizedEntries(entries[..i]) + Survivor(entries[i])
  {
    assert entries[..i + 1][..i] == entries[..i];
  }

  /** The loop of `Normalize` moves past one property. */
  lemma LoopStep(original: seq<(string, JsValue)>, i: nat, done: seq<(string, JsValue)>)
    requires i < |original| && done == NormalizedEntries(original[..i])
    ensures done + original[i..] == done + [original[i]] + original[i + 1..]
    ensures done + Survivor(original[i]) == NormalizedEntries(original[..i + 1])
    ensures |done + Survivor(original[i])| == |done| + |Survivor(original[i])|
  {
    NormalizedStep(original, i);
    assert original[i..] == [original[i]] + original[i + 1..];
  }

  /** A value is one a pass leaves alone. */
  predicate IsNormalValue(v: JsValue) {
    match v
    case Str(s) => |s| > 0 && Trim(Js, s) == s
    case Arr(elems) => forall i :: 0 <= i < |elems| ==> elems[i].Str? && Trim(Js, elems[i].s) == elems[i].s
    case _ => true
  }

  /** After one pass every string field is trimmed and non-empty, and every array holds trimmed strings only. */
  lemma NormalizedValues(entries: seq<(string, JsValue)>)
    ensures forall i :: 0 <= i < |NormalizedEntries(entries)| ==> IsNormalValue(NormalizedEntries(entries)[i].1)
  {
    if entries != [] {
      NormalizedValues(entries[..|entries| - 1]);
      var v := entries[|entries| - 1].1;
      if v.Str? {
        TrimIdempotent(Js, v.s);
      }
    }
  }

  /** Some entry of `s` has key `k`. */
  predicate HasKey(s: seq<(string, JsValue)>, k: string) {
    exists i :: 0 <= i < |s| && s[i].0 == k
  }

  /** Some entry of `s` has key `k` and a value the normalisation keeps. */
  predicate KeptKey(s: seq<(string, JsValue)>, k: string) {
    exists i :: 0 <= i < |s| && s[i].0 == k && NormalizedValue(s[i].1).Some?
  }

  /** A field survives exactly when it is not an empty or white-space string and not an empty array. */
  lemma {:induction false} NormalizedKeys(entries: seq<(string, JsValue)>, k: string)
    requires DistinctKeys(entries)
    ensures HasKey(NormalizedEntries(entries), k) <==> KeptKey(entries, k)
  {
    if entries != [] {
      var front := entries[..|entries| - 1];
      var last := entries[|entries| - 1];
      assert DistinctKeys(front);
      NormalizedKeys(front, k);
      HasKeyAppend(NormalizedEntries(front), Survivor(last), k);
      KeptKeySnoc(entries, k);
    }
  }

  lemma HasKeyAppend(a: seq<(string, JsValue)>, b: seq<(string, JsValue)>, k: string)
    ensures HasKey(a + b, k) <==> HasKey(a, k) || HasKey(b, k)
  {
    if HasKey(a + b, k) {
      var i :| 0 <= i < |a + b| && (a + b)[i].0 == k;
      if i >= |a| {
        assert b[i - |a|].0 == k;
      }
    }
    if HasKey(a, k) {
      var i :| 0 <= i < |a| && a[i].0 == k;
      assert (a + b)[i].0 == k;
    }
    if HasKey(b, k) {
      var i :| 0 <= i < |b| && b[i].0 == k;
      assert (a + b)[|a| + i].0 == k;
    }
  }

  lemma KeptKeySnoc(entries: seq<(string, JsValue)>, k: string)
    requires entries != []
    ensures var last := entries[|entries| - 1];
      KeptKey(entries, k) <==> KeptKey(entries[..|entries| - 1], k) || HasKey(Survivor(last), k)
  {
    var front := entries[..|entries| - 1];
    var last := entries[|entries| - 1];
    if KeptKey(front, k) {
      var i :| 0 <= i < |front| && front[i].0 == k && NormalizedValue(front[i].1).Some?;
      assert entries[i] == front[i];
    }
    if KeptKey(entries, k) {
      var i :| 0 <= i < |entries| && entries[i].0 == k && NormalizedValue(entries[i].1).Some?;
      if i < |front| {
        assert front[i] == entries[i];
      } else {
        assert Survivor(last)[0].0 == k;
      }
    }
    if HasKey(Survivor(last), k) {
      assert entries[|entries| - 1].0 == k;
    }
  }

  /** A value changes under a second pass only when it has become an empty array. */
  lemma ValueTwice(v: JsValue)
    requires NormalizedValue(v).Some?
    ensures NormalizedValue(NormalizedValue(v).value) == NormalizedValue(v) <==> Stable(v)
  {
    match v
    case Str(s) => TrimIdempotent(Js, s);
    case Arr(elems) =>
      var t := TrimmedStrings(elems);
      TrimmedTwice(t);
    case _ =>
  }

  lemma {:induction false} TrimmedTwice(elems: seq<JsValue>)
    requires forall i :: 0 <= i < |elems| ==> elems[i].Str? && Trim(Js, elems[i].s) == elems[i].s
    ensures TrimmedStrings(elems) == elems
  {
    if elems != [] {
      TrimmedTwice(elems[1..]);
    }
  }

  /** A field value a second pass leaves as the first pass left it. */
  predicate Stable(v: JsValue) {
    !(v.Arr? && |v.elems| > 0 && Strings(v.elems) == [])
  }

  predicate AllStable(entries: seq<(string, JsValue)>) {
    forall i :: 0 <= i < |entries| ==> Stable(entries[i].1)
  }

  lemma AllStableSnoc(front: seq<(string, JsValue)>, x: (string, JsValue))
    ensures AllStable(front + [x]) <==> AllStable(front) && Stable(x.1)
  {
    if AllStable(front) && Stable(x.1) {
      forall i | 0 <= i < |front + [x]|
        ensures Stable((front + [x])[i].1)
      {
        if i < |front| {
          assert (front + [x])[i] == front[i];
        }
      }
    }
    if AllStable(front + [x]) {
      assert (front + [x])[|front|] == x;
      forall i | 0 <= i < |front|
        ensures Stable(front[i].1)
      {
        assert (front + [x])[i] == front[i];
      }
    }
  }

  /**
   * `normalizeBookmark` is idempotent exactly when no array field is non-empty with
   * no string in it: such an array becomes `[]` and survives the first pass, and the
   * second pass deletes it.
   */
  lemma {:induction false} NormalizeTwice(entries: seq<(string, JsValue)>)
    ensures NormalizedEntries(NormalizedEntries(entries)) == NormalizedEntries(entries) <==> AllStable(entries)
  {
    if entries != [] {
      var front := entries[..|entries| - 1];
      var x := entries[|entries| - 1];
      assert entries == front + [x];
      AllStableSnoc(front, x);
      NormalizeTwice(front);
      var nf := NormalizedEntries(front);
      assert NormalizedEntries(entries) == nf + Survivor(x);
      if NormalizedValue(x.1).Some? {
        assert Survivor(x) == [(x.0, NormalizedValue(x.1).value)];
        SnocTwice(nf, x, NormalizedValue(x.1).value);
      } else {
        assert Stable(x.1);
        assert nf + Survivor(x) == nf;
      }
    }
  }

  /** The second pass over one surviving property appended to the survivors of the first. */
  lemma SnocTwice(nf: seq<(string, JsValue)>, x: (string, JsValue), w: JsValue)
    requires NormalizedValue(x.1) == Some(w)
    ensures NormalizedEntries(nf + [(x.0, w)]) == nf + [(x.0, w)] <==>
            NormalizedEntries(nf) == nf && Stable(x.1)
  {
    var n := nf + [(x.0, w)];
    assert n[..|n| - 1] == nf;
    ValueTwice(x.1);
    if NormalizedValue(w) == Some(w) {
      assert Survivor((x.0, w)) == [(x.0, w)];
      assert NormalizedEntries(n) == NormalizedEntries(nf) + [(x.0, w)];
    } else {
      assert NormalizedValue(w) == None by {
        assert w == Arr([]);
      }
      assert Survivor((x.0, w)) == [];
      assert NormalizedEntries(n) == NormalizedEntries(nf);
      EntriesShrink(nf);
    }
  }

  lemma {:induction false} EntriesShrink(entries: seq<(string, JsValue)>)
    ensures |NormalizedEntries(entries)| <= |entries|
  {
    if entries != [] {
      EntriesShrink(entries[..|entries| - 1]);
    }
  }

  // ---------------------------------------------------------------------------
  // normalizeDate
  // ---------------------------------------------------------------------------

  const MsPerDay: int := 86400000

  /** The proleptic Gregorian date of day `z` after 1970-01-01: (year, month, day). */
  function CivilFromDays(z: int): (int, int, int) {
    var z' := z + 719468;
    var era := z' / 146097;
    var doe := z' - era * 146097;
    var yoe := (doe - doe / 1460 + doe / 36524 - doe / 146096) / 365;
    var doy := doe - (365 * yoe + yoe / 4 - yoe / 100);
    var mp := (5 * doy + 2) / 153;
    var d := doy - (153 * mp + 2) / 5 + 1;
    var m := if mp < 10 then mp + 3 else mp - 9;
    var y := yoe + era * 400;
    (if m <= 2 then y + 1 else y, m, d)
  }

  /** The last `width` decimal digits of `n`, with leading zeros. */
  function Digits(n: int, width: nat): (r: string)
    ensures |r| == width
    ensures forall i :: 0 <= i < |r| ==> IsDigit(r[i])
    decreases width
  {
    if width == 0 then "" else Digits(n / 10, width - 1) + [DigitChar(n % 10)]
  }

  /** Two digits are `00` exactly for zero. */
  lemma TwoDigitsZero(n: nat)
    requires n < 100
    ensures Digits(n, 2) == "00" <==> n == 0
  {
    assert Digits(n, 2) == [DigitChar(n / 10 % 10), DigitChar(n % 10)];
    if Digits(n, 2) == "00" {
      assert n / 10 % 10 == 0 && n % 10 == 0;
    }
  }

  /** The year as `toISOString` writes it: four digits, or a sign and six digits outside 0..9999. */
  function YearString(y: int): (r: string)
    ensures forall i :: 0 <= i < |r| ==> r[i] != 'T' && r[i] != '.'
  {
    if 0 <= y <= 9999 then Digits(y, 4)
    else if y < 0 then "-" + Digits(-y, 6)
    else "+" + Digits(y, 6)
  }

  /** The date part of `toISOString()`: `YYYY-MM-DD`. */
  function DatePart(t: int): (r: string)
    ensures |r| > 0
    ensures forall i :: 0 <= i < |r| ==> r[i] != 'T' && r[i] != '.'
  {
    var (y, m, d) := CivilFromDays(t / MsPerDay);
    YearString(y) + "-" + Digits(m, 2) + "-" + Digits(d, 2)
  }

  /** The time of day of `t`, in whole seconds. */
  function SecondOfDay(t: int): (r: nat)
    ensures r < 86400
  {
    (t % MsPerDay) / 1000
  }

  /** The time part of `toISOString()` up to the seconds: `HH:MM:SS`. */
  function TimePart(t: int): (r: string)
    ensures |r| == 8
    ensures forall i :: 0 <= i < |r| ==> r[i] != 'T' && r[i] != '.'
  {
    var s := SecondOfDay(t);
    Digits(s / 3600, 2) + ":" + Digits(s / 60 % 60, 2) + ":" + Digits(s % 60, 2)
  }

  /** `Date.prototype.toISOString()`: `YYYY-MM-DDTHH:MM:SS.sssZ`, in UTC. */
  function IsoString(t: int): string {
    DatePart(t) + "T" + TimePart(t) + "." + Digits(t % MsPerDay % 1000, 3) + "Z"
  }

  /**
   * `/([^T]+)T([^\.]+)/.exec(str)` searching from position `s`: the first run of
   * non-`T` characters followed by a `T` and a non-empty run of non-`.` characters.
   */
  function DateTimeMatch(str: string, s: nat): (r: Option<(string, string)>)
    decreases |str| - s
  {
    if s >= |str| then None
    else
      var t := IndexOf(str[s..], 'T');
      if t < 0 then None
      else
        var e := s + t;
        var rest := str[e + 1..];
        var dot := IndexOf(rest, '.');
        var n := if dot < 0 then |rest| else dot;
        if t == 0 || n == 0 then DateTimeMatch(str, e + 1)
        else Some((str[s..e], rest[..n]))
  }

  /** `normalizeDate` (globals.js lines 86-98); the `throw` becomes a `Failure`. */
  function NormalizeDate(t: int): Result<string, string> {
    var str := IsoString(t);
    match DateTimeMatch(str, 0)
    case None => Failure("invalid date: " + str)
    case Some((date, time)) => if time == "00:00:00" then Success(date) else Success(date + " " + time)
  }

  /** The first `c` in `a + b`, when `a` has none. */
  lemma {:induction false} IndexOfAfter(a: string, b: string, c: char)
    requires forall i :: 0 <= i < |a| ==> a[i] != c
    ensures IndexOf(a + b, c) == if IndexOf(b, c) < 0 then -1 else |a| + IndexOf(b, c)
  {
    if a != [] {
      assert (a + b)[1..] == a[1..] + b;
      IndexOfAfter(a[1..], b, c);
    } else {
      assert a + b == b;
    }
  }

  /** The regular expression splits `date T time .rest` at the first `T` and the next `.`. */
  lemma {:induction false} DateTimeSplit(date: string, time: string, tail: string)
    requires |date| > 0 && |time| > 0
    requires forall i :: 0 <= i < |date| ==> date[i] != 'T'
    requires forall i :: 0 <= i < |time| ==> time[i] != '.'
    ensures DateTimeMatch(date + "T" + time + "." + tail, 0) == Some((date, time))
  {
    var str := date + "T" + time + "." + tail;
    assert str == date + ("T" + time + "." + tail);
    IndexOfAfter(date, "T" + time + "." + tail, 'T');
    assert str[0..] == str;
    assert str[|date| + 1..] == time + ("." + tail);
    IndexOfAfter(time, "." + tail, '.');
  }

  /** The regular expression splits an ISO string into its date and its time up to the seconds. */
  lemma IsoMatch(t: int)
    ensures DateTimeMatch(IsoString(t), 0) == Some((DatePart(t), TimePart(t)))
  {
    DateTimeSplit(DatePart(t), TimePart(t), Digits(t % MsPerDay % 1000, 3) + "Z");
    assert IsoString(t) == DatePart(t) + "T" + TimePart(t) + "." + (Digits(t % MsPerDay % 1000, 3) + "Z");
  }

  /** The time part reads `00:00:00` exactly at a whole-second midnight. */
  lemma TimePartZero(t: int)
    ensures TimePart(t) == "00:00:00" <==> SecondOfDay(t) == 0
  {
    var s := SecondOfDay(t);
    TwoDigitsZero(s / 3600);
    TwoDigitsZero(s / 60 % 60);
    TwoDigitsZero(s % 60);
    var tm := TimePart(t);
    assert tm[..2] == Digits(s / 3600, 2) && tm[3..5] == Digits(s / 60 % 60, 2) && tm[6..] == Digits(s % 60, 2);
  }

  /**
   * `normalizeDate` never throws for a `Date`. It gives `YYYY-MM-DD` when the UTC time
   * is 00:00:00 (milliseconds are ignored), and `YYYY-MM-DD HH:MM:SS` otherwise.
   */
  lemma NormalizeDateShape(t: int)
    ensures NormalizeDate(t) == if SecondOfDay(t) == 0 then Success(DatePart(t))
                                else Success(DatePart(t) + " " + TimePart(t))
  {
    IsoMatch(t);
    TimePartZero(t);
  }

  /** Midnight collapses to the date: the check is on whole seconds of the UTC day. */
  lemma MidnightIsDate(t: int)
    ensures NormalizeDate(t) == Success(DatePart(t)) <==> t % MsPerDay < 1000
  {
    NormalizeDateShape(t);
    if SecondOfDay(t) != 0 {
      assert |DatePart(t) + " " + TimePart(t)| > |DatePart(t)|;
    }
  }
}
