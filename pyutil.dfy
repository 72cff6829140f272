/**
 * The helpers of the Python generator (pagemarks/framework/util.py): tag normalisation,
 * the date formats, and the yes/no prompt. `normalize_url` lives in `UrlNormalize`.
 * `slugify`, `datetime.fromtimestamp` and the console are parameters.
 */
module PyUtil {

  import opened Wrappers
  import opened Text
  import Sorting
  import Records

  // ---------------------------------------------------------------------------
  // str.split
  // ---------------------------------------------------------------------------

  /** `s.split(c)` for a one-character separator: the pieces between the separators. */
  function Split(s: string, c: char): (r: seq<string>)
    ensures |r| >= 1
    ensures forall i :: 0 <= i < |r| ==> c !in r[i]
    decreases |s|
  {
    var k := IndexOf(s, c);
    if k < 0 then [s]
    else
      assert c !in s[..k];
      [s[..k]] + Split(s[k + 1..], c)
  }

  /** The first separator splits `s` into its first piece and the rest. */
  lemma SplitAt(s: string, c: char, k: int)
    requires k == IndexOf(s, c) && k >= 0
    ensures Split(s, c) == [s[..k]] + Split(s[k + 1..], c)
    ensures s == s[..k] + [c] + s[k + 1..]
  {
  }

  lemma {:induction false} JoinCons(x: string, xs: seq<string>, sep: string)
    requires xs != []
    ensures Join([x] + xs, sep) == x + sep + Join(xs, sep)
    decreases |xs|
  {
    var ys := [x] + xs;
    if |xs| == 1 {
      assert ys[..|ys| - 1] == [x];
    } else {
      assert ys[..|ys| - 1] == [x] + xs[..|xs| - 1];
      JoinCons(x, xs[..|xs| - 1], sep);
    }
  }

  /** Splitting loses nothing: joining the pieces with the separator gives the string back. */
  lemma {:induction false} SplitJoin(s: string, c: char)
    ensures Join(Split(s, c), [c]) == s
    decreases |s|
  {
    var k := IndexOf(s, c);
    if k >= 0 {
      SplitAt(s, c, k);
      SplitJoin(s[k + 1..], c);
      JoinCons(s[..k], Split(s[k + 1..], c), [c]);
    }
  }

  // ---------------------------------------------------------------------------
  // normalize_tags
  // ---------------------------------------------------------------------------

  /** A tag as the configuration or the command line hands it over: a string or anything else. */
  datatype PyTag = PyStr(s: string) | Other(repr: string)

  const NotAStringMessage := "syntax error: tag is not a string - "

  /** The slug of every non-blank stripped piece of `pieces`, in order. */
  function PieceSlugs(pieces: seq<string>, slugify: string -> string): seq<string>
  {
    if pieces == [] then []
    else
      var t := Trim(Py, pieces[|pieces| - 1]);
      PieceSlugs(pieces[..|pieces| - 1], slugify) + (if |t| > 0 then [slugify(t)] else [])
  }

  /**
   * The slugs `normalize_tags` collects from `raw`, in the order it meets them, or the
   * error it raises at the first tag that is not a string.
   */
  function Slugs(raw: seq<PyTag>, slugify: string -> string): Result<seq<string>, string>
  {
    if raw == [] then Success([])
    else
      var p := Slugs(raw[..|raw| - 1], slugify);
      if p.Failure? then p
      else match raw[|raw| - 1]
        case Other(repr) => Failure(NotAStringMessage + repr)
        case PyStr(s) => Success(p.value + PieceSlugs(Split(s, ','), slugify))
  }

  function Elems(xs: seq<string>): set<string>
  {
    set x | x in xs
  }

  predicate Distinct(xs: seq<string>)
  {
    forall i, j :: 0 <= i < j < |xs| ==> xs[i] != xs[j]
  }

  /** `normalize_tags(raw_tags)`; the raised `PagemarksError` becomes a `Failure` with its message. */
  method NormalizeTags(raw: seq<PyTag>, slugify: string -> string) returns (r: Result<seq<string>, string>)
    ensures Slugs(raw, slugify).Failure? ==> r == Failure(Slugs(raw, slugify).error)
    ensures Slugs(raw, slugify).Success? ==>
      && r.Success? && Sorting.Sorted(r.value) && Distinct(r.value)
      && Elems(r.value) == Elems(Slugs(raw, slugify).value)
    ensures r == NormalizedTags(raw, slugify)
  {
    var tagset: set<string> := {};
    var i := 0;
    while i < |raw|
      invariant 0 <= i <= |raw|
      invariant Slugs(raw[..i], slugify).Success?
      invariant tagset == Elems(Slugs(raw[..i], slugify).value)
    {
      assert raw[..i + 1][..i] == raw[..i];
      var tag := raw[i];
      if tag.Other? {
        FailureStays(raw, i + 1, slugify);
        return Failure(NotAStringMessage + tag.repr);
      }
      tagset := AddSubtags(tagset, Split(tag.s, ','), slugify);
      SlugsStep(raw, i, slugify);
      i := i + 1;
    }
    assert raw[..i] == raw;
    var sorted := SortedList(tagset);
    TagsDetermined(Slugs(raw, slugify).value, sorted);
    return Success(sorted);
  }

  /** The inner loop of `normalize_tags`: the slug of every non-blank stripped subtag goes into the set. */
  method AddSubtags(tagset: set<string>, subtags: seq<string>, slugify: string -> string) returns (r: set<string>)
    ensures r == tagset + Elems(PieceSlugs(subtags, slugify))
  {
    r := tagset;
    var j := 0;
    while j < |subtags|
      invariant 0 <= j <= |subtags|
      invariant r == tagset + Elems(PieceSlugs(subtags[..j], slugify))
    {
      assert subtags[..j + 1][..j] == subtags[..j];
      var stripped := Trim(Py, subtags[j]);
      if |stripped| > 0 {
        r := r + {slugify(stripped)};
      }
      j := j + 1;
    }
    assert subtags[..j] == subtags;
  }

  lemma SlugsStep(raw: seq<PyTag>, i: nat, slugify: string -> string)
    requires i < |raw| && raw[i].PyStr? && Slugs(raw[..i], slugify).Success?
    ensures Slugs(raw[..i + 1], slugify)
      == Success(Slugs(raw[..i], slugify).value + PieceSlugs(Split(raw[i].s, ','), slugify))
    ensures Elems(Slugs(raw[..i + 1], slugify).value)
      == Elems(Slugs(raw[..i], slugify).value) + Elems(PieceSlugs(Split(raw[i].s, ','), slugify))
  {
    assert raw[..i + 1][..i] == raw[..i];
  }

  /** Once a non-string tag has been met, longer prefixes fail with the same message. */
  lemma {:induction false} FailureStays(raw: seq<PyTag>, n: nat, slugify: string -> string)
    requires n <= |raw| && Slugs(raw[..n], slugify).Failure?
    ensures Slugs(raw, slugify) == Slugs(raw[..n], slugify)
    decreases |raw| - n
  {
    if n < |raw| {
      assert raw[..n + 1][..n] == raw[..n];
      FailureStays(raw, n + 1, slugify);
    } else {
      assert raw[..n] == raw;
    }
  }

  /** `list(sorted(s))` of a set of strings. */
  method SortedList(s: set<string>) returns (r: seq<string>)
    ensures Sorting.Sorted(r) && Distinct(r) && Elems(r) == s
  {
    r := [];
    var rest := s;
    while rest != {}
      invariant rest <= s
      invariant Sorting.Sorted(r)
      invariant multiset(r) == multiset(s - rest)
      decreases |rest|
    {
      var x :| x in rest;
      assert s - (rest - {x}) == (s - rest) + {x};
      r := Sorting.Insert(x, r);
      rest := rest - {x};
    }
    assert s - rest == s;
    DistinctOfSet(r, s);
  }

  /** A sequence holding the elements of a set, each once. */
  lemma DistinctOfSet(r: seq<string>, s: set<string>)
    requires multiset(r) == multiset(s)
    ensures Distinct(r) && Elems(r) == s
  {
    forall i, j | 0 <= i < j < |r|
      ensures r[i] != r[j]
    {
      var x := r[i];
      assert r == r[..j] + r[j..];
      assert x in r[..j];
      assert r[j] in r[j..];
      assert multiset(r)[x] == multiset(r[..j])[x] + multiset(r[j..])[x];
      assert multiset(s)[x] <= 1;
    }
    forall x | x in s ensures x in r {
      assert x in multiset(s);
    }
    forall x | x in r ensures x in s {
      assert x in multiset(r);
    }
  }

  /** `x` is the slug of a non-blank stripped comma-separated piece of `tag`. */
  predicate IsSlugOf(x: string, tag: string, slugify: string -> string)
  {
    exists p :: p in Split(tag, ',') && |Trim(Py, p)| > 0 && x == slugify(Trim(Py, p))
  }

  lemma {:induction false} PieceSlugsMeaning(pieces: seq<string>, slugify: string -> string, x: string)
    ensures x in PieceSlugs(pieces, slugify) <==>
      exists p :: p in pieces && |Trim(Py, p)| > 0 && x == slugify(Trim(Py, p))
    decreases |pieces|
  {
    if pieces != [] {
      var front := pieces[..|pieces| - 1];
      PieceSlugsMeaning(front, slugify, x);
      assert pieces == front + [pieces[|pieces| - 1]];
    }
  }

  /** The first tag that is not a string decides the error, whatever follows it. */
  lemma {:induction false} SlugsFirstOther(raw: seq<PyTag>, k: nat, slugify: string -> string)
    requires k < |raw| && raw[k].Other? && forall i :: 0 <= i < k ==> raw[i].PyStr?
    ensures Slugs(raw, slugify) == Failure(NotAStringMessage + raw[k].repr)
  {
    SlugsOfStrings(raw[..k], slugify);
    assert raw[..k + 1][..k] == raw[..k];
    FailureStays(raw, k + 1, slugify);
  }

  /** `x` is the slug of a piece of one of the tags of `raw`. */
  predicate IsSlugOfSome(x: string, raw: seq<PyTag>, slugify: string -> string)
  {
    exists i :: 0 <= i < |raw| && raw[i].PyStr? && IsSlugOf(x, raw[i].s, slugify)
  }

  lemma IsSlugOfSomeSnoc(x: string, raw: seq<PyTag>, slugify: string -> string)
    requires raw != [] && raw[|raw| - 1].PyStr?
    ensures IsSlugOfSome(x, raw, slugify) <==>
      IsSlugOfSome(x, raw[..|raw| - 1], slugify) || IsSlugOf(x, raw[|raw| - 1].s, slugify)
  {
    var front := raw[..|raw| - 1];
    if IsSlugOfSome(x, raw, slugify) {
      var i :| 0 <= i < |raw| && raw[i].PyStr? && IsSlugOf(x, raw[i].s, slugify);
      if i < |front| {
        assert front[i] == raw[i];
        assert IsSlugOfSome(x, front, slugify);
      }
    }
    if IsSlugOfSome(x, front, slugify) {
      var i :| 0 <= i < |front| && front[i].PyStr? && IsSlugOf(x, front[i].s, slugify);
      assert raw[i] == front[i];
    }
  }

  /**
   * A list of strings always normalises, and a slug is collected exactly when it is the
   * slug of a non-blank stripped comma-separated piece of one of the tags.
   */
  lemma {:induction false} SlugsOfStrings(raw: seq<PyTag>, slugify: string -> string)
    requires forall i :: 0 <= i < |raw| ==> raw[i].PyStr?
    ensures Slugs(raw, slugify).Success?
    ensures forall x :: x in Slugs(raw, slugify).value <==> IsSlugOfSome(x, raw, slugify)
    decreases |raw|
  {
    if raw != [] {
      var n := |raw| - 1;
      var front := raw[..n];
      SlugsOfStrings(front, slugify);
      var pieces := PieceSlugs(Split(raw[n].s, ','), slugify);
      assert Slugs(raw, slugify) == Success(Slugs(front, slugify).value + pieces);
      forall x ensures x in Slugs(raw, slugify).value <==> IsSlugOfSome(x, raw, slugify) {
        PieceSlugsMeaning(Split(raw[n].s, ','), slugify, x);
        IsSlugOfSomeSnoc(x, raw, slugify);
      }
    }
  }

  /**
   * What `normalize_tags` returns for a list of strings: the distinct slugs of the
   * non-blank stripped comma-separated pieces of the tags, in ascending order; any
   * other correct sort gives the same list.
   */
  lemma NormalizedTagsMeaning(raw: seq<PyTag>, slugify: string -> string, r: seq<string>, x: string)
    requires forall i :: 0 <= i < |raw| ==> raw[i].PyStr?
    requires Slugs(raw, slugify).Success?
    requires Sorting.Sorted(r) && Distinct(r) && Elems(r) == Elems(Slugs(raw, slugify).value)
    ensures x in r <==> IsSlugOfSome(x, raw, slugify)
  {
    SlugsOfStrings(raw, slugify);
    assert x in r <==> x in Elems(r);
  }

  // ---------------------------------------------------------------------------
  // Dates
  // ---------------------------------------------------------------------------

  /** The first occurrence of each string of `xs`, in order. */
  function Dedup(xs: seq<string>): (r: seq<string>)
    ensures Distinct(r) && Elems(r) == Elems(xs)
  {
    if xs == [] then []
    else
      var d := Dedup(xs[..|xs| - 1]);
      assert Elems(xs) == Elems(xs[..|xs| - 1]) + {xs[|xs| - 1]} by {
        assert xs == xs[..|xs| - 1] + [xs[|xs| - 1]];
      }
      if xs[|xs| - 1] in d then d
      else
        assert Elems(d + [xs[|xs| - 1]]) == Elems(d) + {xs[|xs| - 1]};
        d + [xs[|xs| - 1]]
  }

  /** The result of `normalize_tags` as a value: the distinct slugs in ascending order. */
  function NormalizedTags(raw: seq<PyTag>, slugify: string -> string): (r: Result<seq<string>, string>)
    ensures r.Success? <==> Slugs(raw, slugify).Success?
    ensures r.Success? ==> Sorting.Sorted(r.value) && Elems(r.value) == Elems(Slugs(raw, slugify).value)
    ensures r.Success? ==> Distinct(r.value)
  {
    match Slugs(raw, slugify)
    case Failure(e) => Failure(e)
    case Success(v) =>
      var t := Sorting.Sort(Dedup(v));
      DistinctMultiset(Dedup(v));
      DistinctOfSet(t, Elems(Dedup(v)));
      assert Elems(t) == Elems(Dedup(v)) by {
        forall x ensures x in t <==> x in Dedup(v) {
          assert x in t <==> x in multiset(t);
          assert x in Dedup(v) <==> x in multiset(Dedup(v));
        }
      }
      Success(t)
  }

  /** In a sequence without repeats every element occurs once. */
  lemma {:induction false} DistinctCount(a: seq<string>, x: string)
    requires Distinct(a)
    ensures multiset(a)[x] == if x in a then 1 else 0
    decreases |a|
  {
    if a != [] {
      var p := a[..|a| - 1];
      assert a == p + [a[|a| - 1]];
      assert Distinct(p);
      DistinctCount(p, x);
      assert a[|a| - 1] !in p;
    }
  }

  /**
   * A sorted sequence without repeats is fixed by its elements: whatever produces one
   * from the slugs `v` produces exactly the tags of `NormalizedTags`.
   */
  lemma TagsDetermined(v: seq<string>, r: seq<string>)
    requires Sorting.Sorted(r) && Distinct(r) && Elems(r) == Elems(v)
    ensures r == Sorting.Sort(Dedup(v))
  {
    var d := Dedup(v);
    SameElemsSameMultiset(r, d);
    Sorting.SortedUnique(r, Sorting.Sort(d));
  }

  lemma DistinctMultiset(a: seq<string>)
    requires Distinct(a)
    ensures multiset(a) == multiset(Elems(a))
  {
    forall x ensures multiset(a)[x] == multiset(Elems(a))[x] {
      DistinctCount(a, x);
      assert x in a <==> x in Elems(a);
    }
  }

  lemma SameElemsSameMultiset(a: seq<string>, b: seq<string>)
    requires Distinct(a) && Distinct(b) && Elems(a) == Elems(b)
    ensures multiset(a) == multiset(b)
  {
    forall x ensures multiset(a)[x] == multiset(b)[x] {
      DistinctCount(a, x);
      DistinctCount(b, x);
      assert x in a <==> x in Elems(a);
      assert x in b <==> x in Elems(b);
    }
  }

  /** A `datetime`: naive, with whole seconds. */
  datatype DateTime = DateTime(year: nat, month: nat, day: nat, hour: nat, minute: nat, second: nat)

  predicate ValidDateTime(dt: DateTime)
  {
    1 <= dt.year <= 9999 && 1 <= dt.month <= 12 && 1 <= dt.day <= 31
    && dt.hour < 24 && dt.minute < 60 && dt.second < 60
  }

  /**
   * `dt.strftime(DATE_FORMAT)` with `DATE_FORMAT = '%Y-%m-%d %H:%M:%S'`. The C library
   * writes `%Y` without padding; every other field has two digits.
   */
  function DateFormat(dt: DateTime): (r: string)
  {
    Decimal(dt.year) + "-" + Records.Digits(dt.month, 2) + "-" + Records.Digits(dt.day, 2) + " "
      + Records.Digits(dt.hour, 2) + ":" + Records.Digits(dt.minute, 2) + ":" + Records.Digits(dt.second, 2)
  }

  /** `normalize_date(dt)`. */
  function NormalizeDate(dt: Option<DateTime>): (r: Option<string>)
    ensures r.Some? <==> dt.Some?
  {
    if dt.Some? then Some(DateFormat(dt.value)) else None
  }

  /** `str.isdigit()`, for ASCII digits: non-empty and digits only. */
  predicate IsDigitString(s: string)
  {
    |s| > 0 && forall i :: 0 <= i < |s| ==> IsDigit(s[i])
  }

  /**
   * `normalize_timestamp(timestamp)`: `localTime` is `datetime.fromtimestamp`, which
   * depends on the local time zone.
   */
  function NormalizeTimestamp(timestamp: Option<string>, localTime: nat -> DateTime): (r: Option<string>)
    ensures r.Some? <==> timestamp.Some? && IsDigitString(timestamp.value)
  {
    if timestamp.Some? && IsDigitString(timestamp.value) then
      NormalizeDate(Some(localTime(DigitsValue(timestamp.value))))
    else None
  }

  /** Reading the date format back: four-digit year, then two-digit fields at fixed places. */
  function ParseDateFormat(s: string): Option<DateTime>
  {
    if |s| == 19 && s[4] == '-' && s[7] == '-' && s[10] == ' ' && s[13] == ':' && s[16] == ':'
       && (forall i :: 0 <= i < 4 ==> IsDigit(s[i]))
       && IsDigit(s[5]) && IsDigit(s[6]) && IsDigit(s[8]) && IsDigit(s[9])
       && IsDigit(s[11]) && IsDigit(s[12]) && IsDigit(s[14]) && IsDigit(s[15])
       && IsDigit(s[17]) && IsDigit(s[18])
    then
      Some(DateTime(DigitsValue(s[..4]), DigitsValue(s[5..7]), DigitsValue(s[8..10]),
                    DigitsValue(s[11..13]), DigitsValue(s[14..16]), DigitsValue(s[17..19])))
    else None
  }

  function Pow10(n: nat): nat
  {
    if n == 0 then 1 else 10 * Pow10(n - 1)
  }

  lemma {:induction false} DigitsValueOf(n: nat, width: nat)
    requires n < Pow10(width)
    ensures DigitsValue(Records.Digits(n, width)) == n
    decreases width
  {
    if width > 0 {
      var d := Records.Digits(n, width);
      assert d[..width - 1] == Records.Digits(n / 10, width - 1);
      DigitsValueOf(n / 10, width - 1);
    }
  }

  lemma TwoDigits(n: nat)
    requires n < 100
    ensures |Records.Digits(n, 2)| == 2 && DigitsValue(Records.Digits(n, 2)) == n
  {
    DigitsValueOf(n, 2);
  }

  lemma FourDigitYear(y: nat)
    requires 1000 <= y <= 9999
    ensures |Decimal(y)| == 4 && DigitsValue(Decimal(y)) == y
  {
    DecimalValue(y);
    assert Decimal(y) == Decimal(y / 10) + [DigitChar(y % 10)];
    assert Decimal(y / 10) == Decimal(y / 100) + [DigitChar(y / 10 % 10)];
    assert Decimal(y / 100) == Decimal(y / 1000) + [DigitChar(y / 100 % 10)];
  }

  /**
   * For the years 1000 to 9999 the format is 19 characters and reads back to the same
   * date and time: no two such dates share a string.
   */
  lemma DateFormatRoundTrip(dt: DateTime)
    requires ValidDateTime(dt) && dt.year >= 1000
    ensures |DateFormat(dt)| == 19
    ensures ParseDateFormat(DateFormat(dt)) == Some(dt)
  {
    FourDigitYear(dt.year);
    TwoDigits(dt.month);
    TwoDigits(dt.day);
    TwoDigits(dt.hour);
    TwoDigits(dt.minute);
    TwoDigits(dt.second);
    ParseLaidOut(Decimal(dt.year), Records.Digits(dt.month, 2), Records.Digits(dt.day, 2),
                 Records.Digits(dt.hour, 2), Records.Digits(dt.minute, 2), Records.Digits(dt.second, 2));
  }

  /** Four digits and five pairs of digits, laid out as the format lays them out, read back field by field. */
  lemma ParseLaidOut(y: string, mo: string, d: string, h: string, mi: string, se: string)
    requires |y| == 4 && |mo| == 2 && |d| == 2 && |h| == 2 && |mi| == 2 && |se| == 2
    requires IsDigitString(y) && IsDigitString(mo) && IsDigitString(d)
    requires IsDigitString(h) && IsDigitString(mi) && IsDigitString(se)
    ensures var s := y + "-" + mo + "-" + d + " " + h + ":" + mi + ":" + se;
      |s| == 19 && ParseDateFormat(s) == Some(DateTime(DigitsValue(y), DigitsValue(mo), DigitsValue(d),
                                                        DigitsValue(h), DigitsValue(mi), DigitsValue(se)))
  {
    var s := y + "-" + mo + "-" + d + " " + h + ":" + mi + ":" + se;
    DateSlices(y, mo, d, h, mi, se);
    PairDigits(mo);
    PairDigits(d);
    PairDigits(h);
    PairDigits(mi);
    PairDigits(se);
    ParseFields(s);
  }

  /** A string of the format's shape parses into the values of its six digit fields. */
  lemma ParseFields(s: string)
    requires |s| == 19 && s[4] == '-' && s[7] == '-' && s[10] == ' ' && s[13] == ':' && s[16] == ':'
    requires IsDigitString(s[..4])
    requires IsDigit(s[5]) && IsDigit(s[6]) && IsDigit(s[8]) && IsDigit(s[9])
    requires IsDigit(s[11]) && IsDigit(s[12]) && IsDigit(s[14]) && IsDigit(s[15])
    requires IsDigit(s[17]) && IsDigit(s[18])
    ensures ParseDateFormat(s) == Some(DateTime(DigitsValue(s[..4]), DigitsValue(s[5..7]), DigitsValue(s[8..10]),
                                                DigitsValue(s[11..13]), DigitsValue(s[14..16]), DigitsValue(s[17..19])))
  {
    assert forall i :: 0 <= i < 4 ==> s[..4][i] == s[i];
  }

  lemma PairDigits(p: string)
    requires |p| == 2 && IsDigitString(p)
    ensures IsDigit(p[0]) && IsDigit(p[1])
  {
  }

  /** Where each part of the format sits in the 19 characters. */
  lemma DateSlices(y: string, mo: string, d: string, h: string, mi: string, se: string)
    requires |y| == 4 && |mo| == 2 && |d| == 2 && |h| == 2 && |mi| == 2 && |se| == 2
    ensures var s := y + "-" + mo + "-" + d + " " + h + ":" + mi + ":" + se;
      && |s| == 19 && s[..4] == y && s[5..7] == mo && s[8..10] == d
      && s[11..13] == h && s[14..16] == mi && s[17..19] == se
      && s[4] == '-' && s[7] == '-' && s[10] == ' ' && s[13] == ':' && s[16] == ':'
      && s[5] == mo[0] && s[6] == mo[1] && s[8] == d[0] && s[9] == d[1]
      && s[11] == h[0] && s[12] == h[1] && s[14] == mi[0] && s[15] == mi[1]
      && s[17] == se[0] && s[18] == se[1]
  {
  }

  lemma YearDigits(y: nat)
    requires 1000 <= y <= 9999
    ensures Records.Digits(y, 4) == Decimal(y)
  {
    assert Decimal(y) == Decimal(y / 10) + [DigitChar(y % 10)];
    assert Decimal(y / 10) == Decimal(y / 100) + [DigitChar(y / 10 % 10)];
    assert Decimal(y / 100) == Decimal(y / 1000) + [DigitChar(y / 100 % 10)];
    assert Records.Digits(y / 1000, 1) == [DigitChar(y / 1000)];
  }

  /** The fields of the UTC date and time of `t` milliseconds after the epoch. */
  function UtcDateTime(t: int): DateTime
    requires UtcFieldsNatural(t)
  {
    var (y, m, d) := Records.CivilFromDays(t / Records.MsPerDay);
    var s := Records.SecondOfDay(t);
    DateTime(y, m, d, s / 3600, s / 60 % 60, s % 60)
  }

  predicate UtcFieldsNatural(t: int)
  {
    var (y, m, d) := Records.CivilFromDays(t / Records.MsPerDay);
    y >= 0 && m >= 0 && d >= 0
  }

  lemma UtcParts(t: int) returns (dt: DateTime)
    requires UtcFieldsNatural(t)
    ensures dt == UtcDateTime(t)
    ensures Records.DatePart(t) == Records.YearString(dt.year) + "-" + Records.Digits(dt.month, 2) + "-" + Records.Digits(dt.day, 2)
    ensures Records.TimePart(t) == Records.Digits(dt.hour, 2) + ":" + Records.Digits(dt.minute, 2) + ":" + Records.Digits(dt.second, 2)
  {
    dt := UtcDateTime(t);
  }

  /** The format of a date with a four-digit year, cut into its date and its time. */
  lemma FormatHalves(dt: DateTime)
    requires 1000 <= dt.year <= 9999
    ensures var py := DateFormat(dt);
      && |py| == 19
      && py[..10] == Records.YearString(dt.year) + "-" + Records.Digits(dt.month, 2) + "-" + Records.Digits(dt.day, 2)
      && py[10..] == " " + (Records.Digits(dt.hour, 2) + ":" + Records.Digits(dt.minute, 2) + ":" + Records.Digits(dt.second, 2))
      && py == (Records.YearString(dt.year) + "-" + Records.Digits(dt.month, 2) + "-" + Records.Digits(dt.day, 2)) + " "
             + (Records.Digits(dt.hour, 2) + ":" + Records.Digits(dt.minute, 2) + ":" + Records.Digits(dt.second, 2))
  {
    YearDigits(dt.year);
    var year := Decimal(dt.year);
    var mo, d := Records.Digits(dt.month, 2), Records.Digits(dt.day, 2);
    var h, mi, se := Records.Digits(dt.hour, 2), Records.Digits(dt.minute, 2), Records.Digits(dt.second, 2);
    var date := year + "-" + mo + "-" + d;
    var time := h + ":" + mi + ":" + se;
    Regroup(year, mo, d, h, mi, se);
    HalvesOf(date, time);
  }

  lemma Regroup(year: string, mo: string, d: string, h: string, mi: string, se: string)
    ensures year + "-" + mo + "-" + d + " " + h + ":" + mi + ":" + se
         == (year + "-" + mo + "-" + d) + " " + (h + ":" + mi + ":" + se)
  {
  }

  /** A ten-character date and a space before the time. */
  lemma HalvesOf(date: string, time: string)
    requires |date| == 10 && |time| == 8
    ensures var t := date + " " + time; |t| == 19 && t[..10] == date && t[10..] == " " + time
  {
    var t := date + " " + time;
    assert t[..10] == date;
    assert t[10..] == " " + time;
  }

  /**
   * The two halves agree on the text of a date except at midnight: the browser's
   * `normalizeDate` then gives the date alone, while `normalize_date` always writes
   * the time, ` 00:00:00` included.
   */
  lemma JsPyDates(t: int, dt: DateTime)
    requires UtcFieldsNatural(t) && dt == UtcDateTime(t) && 1000 <= dt.year <= 9999
    ensures |DateFormat(dt)| == 19
    ensures Records.SecondOfDay(t) != 0 ==> Records.NormalizeDate(t) == Success(DateFormat(dt))
    ensures Records.SecondOfDay(t) == 0 ==>
      Records.NormalizeDate(t) == Success(DateFormat(dt)[..10]) && DateFormat(dt)[10..] == " 00:00:00"
  {
    var dt' := UtcParts(t);
    FormatHalves(dt);
    Records.NormalizeDateShape(t);
    Records.TimePartZero(t);
  }

  // ---------------------------------------------------------------------------
  // The prompt
  // ---------------------------------------------------------------------------

  datatype PromptAnswer = Yes | No | All | Quit

  /** The value of each answer: the letter that selects it. */
  function Letter(a: PromptAnswer): (c: char)
    ensures IsLower(c)
  {
    match a
    case Yes => 'y'
    case No => 'n'
    case All => 'a'
    case Quit => 'q'
  }

  /** `PromptAnswer(c)`: the answer whose value is `c`; `None` stands for the `ValueError`. */
  function AnswerOf(c: char): (r: Option<PromptAnswer>)
    ensures r.Some? ==> Letter(r.value) == c
    ensures forall a :: Letter(a) == c ==> r == Some(a)
  {
    if c == 'y' then Some(Yes)
    else if c == 'n' then Some(No)
    else if c == 'a' then Some(All)
    else if c == 'q' then Some(Quit)
    else None
  }

  /** The answers a prompt offers, in the order it lists them. */
  function Offered(offerAll: bool, offerQuit: bool): (r: seq<PromptAnswer>)
    ensures |r| >= 2 && r[0] == Yes && r[1] == No
    ensures forall a :: a in r <==> IsOffered(a, offerAll, offerQuit)
    ensures forall i, j :: 0 <= i < j < |r| ==> r[i] != r[j]
  {
    [Yes, No] + (if offerAll then [All] else []) + (if offerQuit then [Quit] else [])
  }

  /** An answer the prompt accepts when it is typed: a letter it does not offer is ignored. */
  predicate IsOffered(a: PromptAnswer, offerAll: bool, offerQuit: bool)
  {
    (a == All ==> offerAll) && (a == Quit ==> offerQuit)
  }

  /** How the selection lists `a`: its letter, upper-cased when it is the default. */
  function Shown(a: PromptAnswer, defaultAnswer: PromptAnswer): char
  {
    if a == defaultAnswer then UpperChar(Letter(a)) else Letter(a)
  }

  /** `build_selection_desc(default_answer, offer_all, offer_quit)`. */
  method BuildSelectionDesc(defaultAnswer: PromptAnswer, offerAll: bool, offerQuit: bool) returns (r: string)
    ensures var offered := Offered(offerAll, offerQuit);
      && |r| == 2 * |offered| + 1
      && r[0] == '[' && r[|r| - 1] == ']'
      && (forall k :: 0 <= k < |offered| ==> r[2 * k + 1] == Shown(offered[k], defaultAnswer))
      && (forall k :: 1 <= k < |offered| ==> r[2 * k] == '/')
  {
    r := "[";
    r := r + [if defaultAnswer == Yes then 'Y' else 'y'];
    r := r + "/";
    r := r + [if defaultAnswer == No then 'N' else 'n'];
    if offerAll {
      r := r + "/";
      r := r + [if defaultAnswer == All then 'A' else 'a'];
    }
    if offerQuit {
      r := r + "/";
      r := r + [if defaultAnswer == Quit then 'Q' else 'q'];
    }
    r := r + "]";
  }

  /**
   * The selection has one upper-case letter exactly when the default is offered, and
   * then it is the default's: with `default_answer=ALL` and `offer_all=False` every
   * letter is lower-case.
   */
  lemma SelectionDefault(defaultAnswer: PromptAnswer, offerAll: bool, offerQuit: bool)
    ensures var offered := Offered(offerAll, offerQuit);
      && (defaultAnswer in offered <==> IsOffered(defaultAnswer, offerAll, offerQuit))
      && (forall k :: 0 <= k < |offered| ==>
            (IsUpper(Shown(offered[k], defaultAnswer)) <==> offered[k] == defaultAnswer))
      && (forall k, l :: 0 <= k < l < |offered| ==> offered[k] != offered[l])
  {
  }

  /**
   * What the prompt returns once the input is `lines`, with no answer chosen yet;
   * `None` is the end of input. A blank line gives the default, a recognised and
   * offered letter its answer; anything else asks again.
   */
  function PromptLoop(lines: seq<Option<string>>, defaultAnswer: PromptAnswer, offerAll: bool, offerQuit: bool): PromptAnswer
    decreases |lines|
  {
    if lines == [] || lines[0].None? then Quit
    else
      var answer := Trim(Py, lines[0].value);
      if |answer| == 0 then defaultAnswer
      else match AnswerOf(LowerChar(answer[0]))
        case None => PromptLoop(lines[1..], defaultAnswer, offerAll, offerQuit)
        case Some(a) =>
          if IsOffered(a, offerAll, offerQuit) then a
          else PromptLoop(lines[1..], defaultAnswer, offerAll, offerQuit)
  }

  /** `prompt(config, question, default_answer, offer_all, offer_quit)` reading `lines`; past the last line is the end of input. */
  function Prompt(yes: bool, lines: seq<Option<string>>, defaultAnswer: PromptAnswer, offerAll: bool, offerQuit: bool): PromptAnswer
  {
    if yes then Yes else PromptLoop(lines, defaultAnswer, offerAll, offerQuit)
  }

  /** The loop of `prompt`, over the lines the console would give. */
  method PromptMethod(yes: bool, lines: seq<Option<string>>, defaultAnswer: PromptAnswer, offerAll: bool, offerQuit: bool)
    returns (result: PromptAnswer)
    ensures result == Prompt(yes, lines, defaultAnswer, offerAll, offerQuit)
  {
    if yes {
      return Yes;
    }
    result := defaultAnswer;
    var selectionDesc := BuildSelectionDesc(defaultAnswer, offerAll, offerQuit);
    var i := 0;
    while true
      invariant 0 <= i <= |lines|
      invariant result == defaultAnswer
      invariant PromptLoop(lines[i..], defaultAnswer, offerAll, offerQuit) == PromptLoop(lines, defaultAnswer, offerAll, offerQuit)
      decreases |lines| - i
    {
      if i == |lines| || lines[i].None? {
        result := Quit;
        return;
      }
      var answer := lines[i].value;
      i := i + 1;
      assert lines[i - 1..][1..] == lines[i..];
      var stripped := Trim(Py, answer);
      if |stripped| == 0 {
        return;
      }
      var parsed := AnswerOf(Lower(stripped)[0]);
      if parsed.None? {
        continue;
      }
      result := parsed.value;
      if (result == All && !offerAll) || (result == Quit && !offerQuit) {
        result := defaultAnswer;
        continue;
      }
      return;
    }
  }

  /**
   * The answer is one the prompt offers, the default, or QUIT at the end of input:
   * a letter that is not offered is never returned.
   */
  lemma {:induction false} PromptAnswers(lines: seq<Option<string>>, defaultAnswer: PromptAnswer, offerAll: bool, offerQuit: bool)
    ensures var r := PromptLoop(lines, defaultAnswer, offerAll, offerQuit);
      IsOffered(r, offerAll, offerQuit) || r == defaultAnswer || r == Quit
    decreases |lines|
  {
    if lines != [] && lines[0].Some? {
      PromptAnswers(lines[1..], defaultAnswer, offerAll, offerQuit);
    }
  }

  /** The answer is decided by the first line that is blank or holds an offered letter; lines after it are never read. */
  lemma {:induction false} PromptStopsAtDecision(lines: seq<Option<string>>, more: seq<Option<string>>, k: nat,
                                                  defaultAnswer: PromptAnswer, offerAll: bool, offerQuit: bool)
    requires k < |lines| && lines[k].Some?
    requires var t := Trim(Py, lines[k].value);
      |t| == 0 || (AnswerOf(LowerChar(t[0])).Some? && IsOffered(AnswerOf(LowerChar(t[0])).value, offerAll, offerQuit))
    ensures PromptLoop(lines + more, defaultAnswer, offerAll, offerQuit) == PromptLoop(lines, defaultAnswer, offerAll, offerQuit)
    decreases k
  {
    if k > 0 && lines[0].Some? {
      assert (lines + more)[1..] == lines[1..] + more;
      PromptStopsAtDecision(lines[1..], more, k - 1, defaultAnswer, offerAll, offerQuit);
    }
  }
}
