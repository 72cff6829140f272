/**
 * String helpers shared by the JavaScript and the Python halves of the model.
 * Case mapping is ASCII only; whitespace follows each language's own definition.
 */
module Text {

  /** `c` is an ASCII upper-case letter. */
  predicate IsUpper(c: char) {
    'A' <= c <= 'Z'
  }

  /** `c` is an ASCII lower-case letter. */
  predicate IsLower(c: char) {
    'a' <= c <= 'z'
  }

  /** `c` is an ASCII decimal digit. */
  predicate IsDigit(c: char) {
    '0' <= c <= '9'
  }

  /** `toLowerCase()` / `lower()` on one character, for ASCII letters. */
  function LowerChar(c: char): (r: char)
    ensures IsUpper(c) ==> IsLower(r) && r as int == c as int + 32
    ensures !IsUpper(c) ==> r == c
  {
    if IsUpper(c) then (c as int + 32) as char else c
  }

  /** `toUpperCase()` / `upper()` on one character, for ASCII letters. */
  function UpperChar(c: char): (r: char)
    ensures IsLower(c) ==> IsUpper(r) && r as int + 32 == c as int
    ensures !IsLower(c) ==> r == c
  {
    if IsLower(c) then (c as int - 32) as char else c
  }

  /** `toLowerCase()` / `lower()`. */
  function Lower(s: string): (r: string)
    ensures |r| == |s|
    ensures forall i :: 0 <= i < |s| ==> r[i] == LowerChar(s[i])
  {
    seq(|s|, i requires 0 <= i < |s| => LowerChar(s[i]))
  }

  /** Every string of `xs` lower-cased. */
  function LowerAll(xs: seq<string>): (r: seq<string>)
    ensures |r| == |xs|
    ensures forall i :: 0 <= i < |xs| ==> r[i] == Lower(xs[i])
  {
    seq(|xs|, i requires 0 <= i < |xs| => Lower(xs[i]))
  }

  /** No ASCII upper-case letter in `s`. */
  predicate IsLowerCase(s: string) {
    forall i :: 0 <= i < |s| ==> !IsUpper(s[i])
  }

  lemma LowerIsLowerCase(s: string)
    ensures IsLowerCase(Lower(s))
  {
  }

  /** Lower-casing a string without upper-case letters changes nothing. */
  lemma LowerOfLowerCase(s: string)
    requires IsLowerCase(s)
    ensures Lower(s) == s
  {
  }

  lemma LowerIdempotent(s: string)
    ensures Lower(Lower(s)) == Lower(s)
  {
    LowerIsLowerCase(s);
    LowerOfLowerCase(Lower(s));
  }

  lemma LowerAppend(a: string, b: string)
    ensures Lower(a + b) == Lower(a) + Lower(b)
  {
  }

  /**
   * ECMAScript white space and line terminators, which `String.prototype.trim`
   * removes: tab, vertical tab, form feed, space, no-break space, BOM, the other
   * space separators of Unicode, LF, CR, line and paragraph separators.
   */
  predicate IsJsSpace(c: char) {
    c == '\t' || c == '\n' || c == '\U{000B}' || c == '\U{000C}' || c == '\r' || c == ' '
    || c == '\U{00A0}' || c == '\U{1680}' || ('\U{2000}' <= c <= '\U{200A}') || c == '\U{2028}'
    || c == '\U{2029}' || c == '\U{202F}' || c == '\U{205F}' || c == '\U{3000}' || c == '\U{FEFF}'
  }

  /**
   * The characters Python's `str.isspace` accepts and `str.strip()` removes: the
   * same set without the BOM, plus the information separators U+001C to U+001F and
   * NEXT LINE (U+0085).
   */
  predicate IsPySpace(c: char) {
    c == '\t' || c == '\n' || c == '\U{000B}' || c == '\U{000C}' || c == '\r'
    || ('\U{001C}' <= c <= '\U{001F}') || c == ' ' || c == '\U{0085}' || c == '\U{00A0}'
    || c == '\U{1680}' || ('\U{2000}' <= c <= '\U{200A}') || c == '\U{2028}' || c == '\U{2029}'
    || c == '\U{202F}' || c == '\U{205F}' || c == '\U{3000}'
  }

  /** Which language's notion of white space a trim uses. */
  datatype Lang = Js | Py

  predicate IsSpace(lang: Lang, c: char) {
    match lang
    case Js => IsJsSpace(c)
    case Py => IsPySpace(c)
  }

  /** The longest prefix of white space. */
  function SpacePrefix(lang: Lang, s: string): (n: nat)
    ensures n <= |s|
    ensures forall i :: 0 <= i < n ==> IsSpace(lang, s[i])
    ensures n < |s| ==> !IsSpace(lang, s[n])
  {
    if s == [] || !IsSpace(lang, s[0]) then 0 else 1 + SpacePrefix(lang, s[1..])
  }

  /** The longest suffix of white space. */
  function SpaceSuffix(lang: Lang, s: string): (n: nat)
    ensures n <= |s|
    ensures forall i :: |s| - n <= i < |s| ==> IsSpace(lang, s[i])
    ensures n < |s| ==> !IsSpace(lang, s[|s| - n - 1])
  {
    if s == [] || !IsSpace(lang, s[|s| - 1]) then 0 else 1 + SpaceSuffix(lang, s[..|s| - 1])
  }

  /** `trim()` (JavaScript) or `strip()` (Python): white space removed at both ends. */
  function Trim(lang: Lang, s: string): (r: string)
    ensures |r| <= |s|
  {
    var n := SpacePrefix(lang, s);
    s[n..][..|s[n..]| - SpaceSuffix(lang, s[n..])]
  }

  /**
   * What `Trim` promises: the result is a contiguous part of `s` that neither starts
   * nor ends with white space, and everything cut off around it is white space.
   */
  lemma TrimShape(lang: Lang, s: string)
    ensures exists a, b ::
              && 0 <= a <= b <= |s| && Trim(lang, s) == s[a..b]
              && (forall i :: 0 <= i < a ==> IsSpace(lang, s[i]))
              && (forall i :: b <= i < |s| ==> IsSpace(lang, s[i]))
    ensures Trim(lang, s) != [] ==>
              !IsSpace(lang, Trim(lang, s)[0]) && !IsSpace(lang, Trim(lang, s)[|Trim(lang, s)| - 1])
  {
    var n := SpacePrefix(lang, s);
    var t := s[n..];
    var m := SpaceSuffix(lang, t);
    assert Trim(lang, s) == s[n..|s| - m];
    forall i | |s| - m <= i < |s|
      ensures IsSpace(lang, s[i])
    {
      assert s[i] == t[i - n];
    }
  }

  /** Trimming is idempotent. */
  lemma TrimIdempotent(lang: Lang, s: string)
    ensures Trim(lang, Trim(lang, s)) == Trim(lang, s)
  {
    TrimShape(lang, s);
    var t := Trim(lang, s);
    if t != [] {
      assert SpacePrefix(lang, t) == 0;
      assert SpaceSuffix(lang, t) == 0;
    }
  }

  /** A string that is white space only trims to the empty string, and only such a string does. */
  lemma TrimEmpty(lang: Lang, s: string)
    ensures Trim(lang, s) == [] <==> forall i :: 0 <= i < |s| ==> IsSpace(lang, s[i])
  {
    TrimShape(lang, s);
    if forall i :: 0 <= i < |s| ==> IsSpace(lang, s[i]) {
      assert SpacePrefix(lang, s) == |s|;
    }
  }

  /** `s.startsWith(p)` / `s.startswith(p)`. */
  predicate StartsWith(s: string, p: string) {
    |p| <= |s| && s[..|p|] == p
  }

  /** `s.endsWith(p)` / `s.endswith(p)`. */
  predicate EndsWith(s: string, p: string) {
    |p| <= |s| && s[|s| - |p|..] == p
  }

  /** `s.indexOf(n) !== -1` / `n in s`: `n` occurs in `s` at some position. */
  predicate Contains(s: string, n: string) {
    exists i :: 0 <= i <= |s| && OccursAt(s, n, i)
  }

  /** `n` occurs in `s` at position `i`. */
  predicate OccursAt(s: string, n: string, i: nat) {
    i + |n| <= |s| && s[i..i + |n|] == n
  }

  /** `c` occurs in `s` (`s.indexOf(c) >= 0` for one character). */
  predicate HasChar(s: string, c: char) {
    exists i :: 0 <= i < |s| && s[i] == c
  }

  /** The position of the first `c` in `s`, if any. */
  function IndexOf(s: string, c: char): (r: int)
    ensures -1 <= r < |s|
    ensures r >= 0 ==> s[r] == c && forall i :: 0 <= i < r ==> s[i] != c
    ensures r < 0 ==> forall i :: 0 <= i < |s| ==> s[i] != c
  {
    if s == [] then -1
    else if s[0] == c then 0
    else var t := IndexOf(s[1..], c); if t < 0 then -1 else t + 1
  }

  /** `xs.join(sep)` / `sep.join(xs)`. */
  function Join(xs: seq<string>, sep: string): (r: string)
    ensures xs == [] ==> r == ""
    ensures |xs| == 1 ==> r == xs[0]
  {
    if xs == [] then "" else if |xs| == 1 then xs[0] else Join(xs[..|xs| - 1], sep) + sep + xs[|xs| - 1]
  }

  /** The decimal digit of `d`. */
  function DigitChar(d: nat): (c: char)
    requires d < 10
    ensures IsDigit(c)
  {
    ('0' as int + d) as char
  }

  /** `String(n)` / `str(n)` of a natural number, without leading zeros. */
  function Decimal(n: nat): (r: string)
    ensures |r| >= 1
    ensures forall i :: 0 <= i < |r| ==> IsDigit(r[i])
    ensures n < 10 ==> r == [DigitChar(n)]
    decreases n
  {
    if n < 10 then [DigitChar(n)] else Decimal(n / 10) + [DigitChar(n % 10)]
  }

  /** The value of a digit string; the inverse of `Decimal`. */
  function DigitsValue(s: string): nat
    requires forall i :: 0 <= i < |s| ==> IsDigit(s[i])
  {
    if s == [] then 0
    else
      assert IsDigit(s[|s| - 1]);
      10 * DigitsValue(s[..|s| - 1]) + (s[|s| - 1] as int - '0' as int)
  }

  lemma {:induction false} DecimalValue(n: nat)
    ensures DigitsValue(Decimal(n)) == n
    decreases n
  {
    if n >= 10 {
      DecimalValue(n / 10);
      var r := Decimal(n);
      assert r[..|r| - 1] == Decimal(n / 10);
    }
  }
}
