/**
 * URL normalisation: `normalizeUrl` (pagemarks/js/globals.js) and `normalize_url`
 * (pagemarks/framework/util.py). Both apply the same case-insensitive pattern
 *
 *     (https?|ftps?)://([^?/#]+?@)?([^?/#]+)([?/#].*$|$)$
 *
 * and rebuild the URL from its four groups: scheme and host lower-cased, user
 * info kept, one trailing `/` dropped from a path without `?` or `#`. The two
 * regular-expression engines differ, and the model keeps the differences:
 *  - JavaScript's `exec` searches for the first position where the pattern
 *    matches; Python's `re.match` only tries position 0;
 *  - JavaScript's `.` and `$` stop at LF, CR, U+2028 and U+2029; Python's `.` stops
 *    only at LF and its `$` also matches just before a final LF;
 *  - under `re.IGNORECASE` Python's `s` also matches U+017F (LATIN SMALL LETTER
 *    LONG S); JavaScript's `i` flag without `u` does not.
 *
 * `MatchAt` computes the groups the backtracking engines settle on at one start
 * position; `MatchShape` and `ShapeMatches` show that it returns exactly the one
 * decomposition of the input that the pattern, with its lazy user-info group,
 * describes.
 */
module UrlNormalize {

  import opened Wrappers
  import opened Text
  import opened Seqs

  /** The four groups of a match; `userInfo` is `None` when group 2 did not take part. */
  datatype UrlMatch = UrlMatch(scheme: string, userInfo: Option<string>, host: string, rest: string)

  /** `?`, `/` and `#`: the characters `[^?/#]` excludes and `[?/#]` accepts. */
  predicate IsDelimiter(c: char) {
    c == '?' || c == '/' || c == '#'
  }

  /** The characters `.` does not match and before which `$` cannot match. */
  predicate IsLineTerminator(lang: Lang, c: char) {
    match lang
    case Js => c == '\n' || c == '\r' || c == '\U{2028}' || c == '\U{2029}'
    case Py => c == '\n'
  }

  predicate NoLineTerminator(lang: Lang, s: string) {
    forall i :: 0 <= i < |s| ==> !IsLineTerminator(lang, s[i])
  }

  predicate NoDelimiter(s: string) {
    forall i :: 0 <= i < |s| ==> !IsDelimiter(s[i])
  }

  /**
   * Character `c` matches the pattern's lower-case letter `l` under the
   * case-insensitive flag: `l` itself or its upper case, and for Python also
   * U+017F when `l` is `s`, which `re.IGNORECASE` treats as the same letter.
   */
  predicate LetterMatches(lang: Lang, c: char, l: char) {
    c == l || c == UpperChar(l) || (lang == Py && l == 's' && c == '\U{017F}')
  }

  /** Position `p` of `x` holds a character the letter `l` matches. */
  predicate LetterAt(lang: Lang, x: string, p: nat, l: char) {
    p < |x| && LetterMatches(lang, x[p], l)
  }

  predicate HttpAt(lang: Lang, x: string, p: nat) {
    LetterAt(lang, x, p, 'h') && LetterAt(lang, x, p + 1, 't') && LetterAt(lang, x, p + 2, 't')
    && LetterAt(lang, x, p + 3, 'p')
  }

  predicate FtpAt(lang: Lang, x: string, p: nat) {
    LetterAt(lang, x, p, 'f') && LetterAt(lang, x, p + 1, 't') && LetterAt(lang, x, p + 2, 'p')
  }

  /** `://` at position `p`. */
  predicate SeparatorAt(x: string, p: nat) {
    p + 3 <= |x| && x[p] == ':' && x[p + 1] == '/' && x[p + 2] == '/'
  }

  /**
   * The length of group 1 at `s`, 0 when `(https?|ftps?)://` does not match there:
   * the optional `s` is taken when `://` follows it.
   */
  function SchemeLength(lang: Lang, url: string, s: nat): (n: nat)
    ensures n == 0 || (n in {3, 4, 5} && SeparatorAt(url, s + n))
  {
    if HttpAt(lang, url, s) then
      if LetterAt(lang, url, s + 4, 's') && SeparatorAt(url, s + 5) then 5
      else if SeparatorAt(url, s + 4) then 4
      else 0
    else if FtpAt(lang, url, s) then
      if LetterAt(lang, url, s + 3, 's') && SeparatorAt(url, s + 4) then 4
      else if SeparatorAt(url, s + 3) then 3
      else 0
    else 0
  }

  /** The length of the longest prefix of `t` without `?`, `/` or `#`. */
  function HostRun(t: string): (n: nat)
    ensures n <= |t| && NoDelimiter(t[..n])
    ensures n < |t| ==> IsDelimiter(t[n])
  {
    if t == [] || IsDelimiter(t[0]) then 0
    else
      var n := 1 + HostRun(t[1..]);
      assert forall i :: 0 < i < n ==> t[..n][i] == t[1..][..n - 1][i - 1];
      n
  }

  /**
   * Where the lazy `[^?/#]+?@` finds its `@` in the run `x`: the first index `j` from
   * `from` on holding an `@` that still leaves group 3 a character (`j + 1 < |x|`).
   */
  function FirstAt(x: string, from: nat): (r: Option<nat>)
    ensures r.Some? ==> from <= r.value && r.value + 1 < |x| && x[r.value] == '@'
    ensures r.Some? ==> forall j :: from <= j < r.value ==> x[j] != '@'
    ensures r.None? ==> forall j :: from <= j && j + 1 < |x| ==> x[j] != '@'
    decreases |x| - from
  {
    if from + 1 >= |x| then None
    else if x[from] == '@' then Some(from)
    else FirstAt(x, from + 1)
  }

  /**
   * Group 4 from the text `t` after the host: the whole of `t` when it contains no
   * line terminator; for Python also `t` without a final LF that is its only LF;
   * otherwise the pattern fails.
   */
  function TailGroup(lang: Lang, t: string): Option<string> {
    if NoLineTerminator(lang, t) then Some(t)
    else if lang == Py && |t| > 0 && t[|t| - 1] == '\n' && NoLineTerminator(Py, t[..|t| - 1]) then
      Some(t[..|t| - 1])
    else None
  }

  /** Groups 2 to 4 from the text `t` after `://`, if the rest of the pattern matches it. */
  function AfterScheme(lang: Lang, t: string): Option<(Option<string>, string, string)> {
    var x := HostRun(t);
    if x == 0 then None
    else
      match TailGroup(lang, t[x..])
      case None => None
      case Some(rest) =>
        match FirstAt(t[..x], 1)
        case None => Some((None, t[..x], rest))
        case Some(j) => Some((Some(t[..j + 1]), t[j + 1..x], rest))
  }

  /** The match of the pattern starting exactly at position `s`, if any. */
  function MatchAt(lang: Lang, url: string, s: nat): Option<UrlMatch>
    requires s <= |url|
  {
    var n := SchemeLength(lang, url, s);
    if n == 0 then None
    else
      match AfterScheme(lang, url[s + n + 3..])
      case None => None
      case Some(g) => Some(UrlMatch(url[s..s + n], g.0, g.1, g.2))
  }

  /** `sch` is a word group 1 matches: `http`, `https`, `ftp` or `ftps`, in any case. */
  predicate IsScheme(lang: Lang, sch: string) {
    || (|sch| == 4 && HttpAt(lang, sch, 0))
    || (|sch| == 5 && HttpAt(lang, sch, 0) && LetterAt(lang, sch, 4, 's'))
    || (|sch| == 3 && FtpAt(lang, sch, 0))
    || (|sch| == 4 && FtpAt(lang, sch, 0) && LetterAt(lang, sch, 3, 's'))
  }

  /** No `@` at positions `1` to `|x| - 2`: where the lazy group 2 could have stopped. */
  predicate NoInnerAt(x: string) {
    forall j :: 1 <= j && j + 1 < |x| ==> x[j] != '@'
  }

  /**
   * The regular language of groups 2 to 4: group 2 is one or more characters
   * other than `?/#` ending in its first possible `@`, group 3 is one or more such
   * characters, group 4 is empty or a delimiter and then anything up to the end
   * without a line terminator.
   */
  predicate ShapedAfter(lang: Lang, ui: Option<string>, host: string, rest: string) {
    && (ui.Some? ==>
          |ui.value| >= 2 && ui.value[|ui.value| - 1] == '@' && NoDelimiter(ui.value) && NoInnerAt(ui.value))
    && |host| >= 1 && NoDelimiter(host)
    && (ui.None? ==> NoInnerAt(host))
    && (rest == "" || IsDelimiter(rest[0])) && NoLineTerminator(lang, rest)
  }

  /** The shape of the whole pattern, groups separated. */
  predicate Shaped(lang: Lang, m: UrlMatch) {
    IsScheme(lang, m.scheme) && ShapedAfter(lang, m.userInfo, m.host, m.rest)
  }

  /** What may follow group 4: nothing, or for Python one final LF after a nonempty group 4. */
  predicate FinalNewline(lang: Lang, rest: string, nl: string) {
    nl == "" || (lang == Py && rest != "" && nl == "\n")
  }

  /** The text a match covers. */
  function Matched(m: UrlMatch): string {
    m.scheme + "://" + m.userInfo.GetOr("") + m.host + m.rest
  }

  /**
   * The input from `s` on is the text of `m`, or for Python that text followed by
   * the one final LF before which `$` matches.
   */
  predicate Covers(lang: Lang, url: string, s: nat, m: UrlMatch)
    requires s <= |url|
  {
    url[s..] == Matched(m) || (lang == Py && m.rest != "" && url[s..] == Matched(m) + "\n")
  }

  /** Group 1, where it matches, is one of the four scheme words, and `://` follows it. */
  lemma SchemeIsScheme(lang: Lang, url: string, s: nat)
    requires s <= |url| && SchemeLength(lang, url, s) > 0
    ensures var n := SchemeLength(lang, url, s);
            IsScheme(lang, url[s..s + n]) && url[s..][..n] == url[s..s + n] && url[s..][n..n + 3] == "://"
  {
    var n := SchemeLength(lang, url, s);
    var sch := url[s..s + n];
    assert sch[0] == url[s] && sch[1] == url[s + 1] && sch[2] == url[s + 2];
    assert n >= 4 ==> sch[3] == url[s + 3];
    assert n == 5 ==> sch[4] == url[s + 4];
    var v := url[s..][n..n + 3];
    assert v[0] == url[s + n] && v[1] == url[s + n + 1] && v[2] == url[s + n + 2];
  }

  /** A scheme word followed by `://` is exactly what group 1 takes. */
  lemma SchemeOf(lang: Lang, u: string, sch: string)
    requires IsScheme(lang, sch) && |sch| + 3 <= |u| && u[..|sch|] == sch && u[|sch|..|sch| + 3] == "://"
    ensures SchemeLength(lang, u, 0) == |sch|
  {
    var n := |sch|;
    assert u[0] == sch[0] && u[1] == sch[1] && u[2] == sch[2];
    assert n >= 4 ==> u[3] == sch[3];
    assert n == 5 ==> u[4] == sch[4];
    assert u[n] == ':' && u[n + 1] == '/' && u[n + 2] == '/' by {
      assert u[n..n + 3][0] == u[n] && u[n..n + 3][1] == u[n + 1] && u[n..n + 3][2] == u[n + 2];
    }
  }

  /** Group 1 depends only on the input from its start on. */
  lemma SchemeFrom(lang: Lang, url: string, s: nat)
    requires s <= |url|
    ensures SchemeLength(lang, url, s) == SchemeLength(lang, url[s..], 0)
  {
  }

  /** The text after `://` splits at the end of the user info and at the end of the host. */
  lemma RunSplit(t: string, x: nat, k: nat, rest: string, nl: string)
    requires k <= x <= |t| && t[x..] == rest + nl
    ensures t == t[..k] + t[k..x] + rest + nl
    ensures k == 0 ==> t == t[..x] + rest + nl
  {
    assert t == t[..k] + t[k..x] + t[x..];
  }

  /** The input from `s` is the scheme, `://` and then the text of the other groups. */
  lemma CoversFrom(u: string, sch: string, ui: string, host: string, rest: string, nl: string)
    ensures (&& |sch| + 3 <= |u| && u[..|sch|] == sch && u[|sch|..|sch| + 3] == "://"
             && u[|sch| + 3..] == ui + host + rest + nl)
            <==> u == sch + "://" + ui + host + rest + nl
  {
    var n := |sch| + 3;
    if |sch| + 3 <= |u| && u[..|sch|] == sch && u[|sch|..|sch| + 3] == "://" && u[n..] == ui + host + rest + nl {
      assert u == u[..|sch|] + u[|sch|..n] + u[n..];
    }
    if u == sch + "://" + ui + host + rest + nl {
      assert u[n..] == ui + host + rest + nl;
    }
  }

  /** Slices of a string without delimiters have none either. */
  lemma NoDelimiterSlice(a: string, i: nat, j: nat)
    requires NoDelimiter(a) && i <= j <= |a|
    ensures NoDelimiter(a[i..j])
  {
    assert forall k :: 0 <= k < j - i ==> a[i..j][k] == a[i + k];
  }

  /** What `TailGroup` keeps after the host: group 4's shape, and all of the text or all but a final LF. */
  lemma TailShape(lang: Lang, t: string, x: nat)
    requires x == HostRun(t) && TailGroup(lang, t[x..]).Some?
    ensures var rest := TailGroup(lang, t[x..]).value;
            && (rest == "" || IsDelimiter(rest[0])) && NoLineTerminator(lang, rest)
            && (t[x..] == rest || (lang == Py && rest != "" && t[x..] == rest + "\n"))
  {
    var rest := TailGroup(lang, t[x..]).value;
    assert rest != "" ==> rest[0] == t[x];
  }

  /** Where group 2 takes part, it and group 3 have their shape. */
  lemma UserShape(t: string, x: nat, j: nat)
    requires x == HostRun(t) && FirstAt(t[..x], 1) == Some(j)
    ensures ShapedAfter(Js, Some(t[..j + 1]), t[j + 1..x], "")
  {
    NoDelimiterSlice(t[..x], 0, j + 1);
    NoDelimiterSlice(t[..x], j + 1, x);
    assert t[..x][0..j + 1] == t[..j + 1] && t[..x][j + 1..x] == t[j + 1..x];
    assert t[..j + 1][j] == t[..x][j];
    assert forall i :: 1 <= i && i + 1 < j + 1 ==> t[..j + 1][i] == t[..x][i];
  }

  /** Groups 2 to 4, where they match, have their shape. */
  lemma AfterShaped(lang: Lang, t: string)
    requires AfterScheme(lang, t).Some?
    ensures var g := AfterScheme(lang, t).value; ShapedAfter(lang, g.0, g.1, g.2)
  {
    var x := HostRun(t);
    TailShape(lang, t, x);
    match FirstAt(t[..x], 1)
    case None =>
    case Some(j) => UserShape(t, x, j);
  }

  /** Groups 2 to 4, where they match, make up the text after `://`, but for Python's final LF `nl`. */
  lemma AfterCovers(lang: Lang, t: string) returns (nl: string)
    requires AfterScheme(lang, t).Some?
    ensures var g := AfterScheme(lang, t).value;
            FinalNewline(lang, g.2, nl) && t == g.0.GetOr("") + g.1 + g.2 + nl
  {
    var g := AfterScheme(lang, t).value;
    var x := HostRun(t);
    TailShape(lang, t, x);
    nl := if t[x..] == g.2 then "" else "\n";
    match FirstAt(t[..x], 1)
    case None =>
      RunSplit(t, x, 0, g.2, nl);
    case Some(j) =>
      RunSplit(t, x, j + 1, g.2, nl);
  }

  lemma {:induction false} HostRunOf(a: string, b: string)
    requires NoDelimiter(a) && (b == [] || IsDelimiter(b[0]))
    ensures HostRun(a + b) == |a|
  {
    if a != [] {
      assert (a + b)[1..] == a[1..] + b;
      HostRunOf(a[1..], b);
    }
  }

  lemma {:induction false} FirstAtFinds(x: string, from: nat, j: nat)
    requires from <= j && j + 1 < |x| && x[j] == '@'
    requires forall i :: from <= i < j ==> x[i] != '@'
    ensures FirstAt(x, from) == Some(j)
    decreases j - from
  {
    if from < j {
      FirstAtFinds(x, from + 1, j);
    }
  }

  /** Group 4 of the pattern's shape is what `TailGroup` finds after the host. */
  lemma TailOf(lang: Lang, rest: string, nl: string)
    requires NoLineTerminator(lang, rest) && FinalNewline(lang, rest, nl)
    ensures TailGroup(lang, rest + nl) == Some(rest)
  {
    if nl == "" {
      assert rest + nl == rest;
    } else {
      assert (rest + nl)[..|rest + nl| - 1] == rest;
      assert !NoLineTerminator(lang, rest + nl) by { assert (rest + nl)[|rest|] == '\n'; }
    }
  }

  /** Conversely, text of the shape of groups 2 to 4 is matched with exactly these groups. */
  lemma AfterOf(lang: Lang, ui: Option<string>, host: string, rest: string, nl: string)
    requires ShapedAfter(lang, ui, host, rest) && FinalNewline(lang, rest, nl)
    ensures AfterScheme(lang, ui.GetOr("") + host + rest + nl) == Some((ui, host, rest))
  {
    var u := ui.GetOr("");
    var x := u + host;
    var t := u + host + rest + nl;
    assert t == x + (rest + nl);
    assert NoDelimiter(x) by {
      assert forall i :: |u| <= i < |x| ==> x[i] == host[i - |u|];
    }
    HostRunOf(x, rest + nl);
    assert t[..|x|] == x && t[|x|..] == rest + nl;
    TailOf(lang, rest, nl);
    assert HostRun(t) == |x|;
    if ui.Some? {
      FirstAtFinds(x, 1, |u| - 1);
      assert t[..|u|] == u && t[|u|..|x|] == host;
      assert FirstAt(t[..|x|], 1) == Some(|u| - 1);
    } else {
      assert x == host;
      assert FirstAt(t[..|x|], 1) == None;
    }
  }

  /** A match found at `s` has the shape of the pattern. */
  lemma MatchShaped(lang: Lang, url: string, s: nat)
    requires s <= |url| && MatchAt(lang, url, s).Some?
    ensures Shaped(lang, MatchAt(lang, url, s).value)
  {
    var n := SchemeLength(lang, url, s);
    SchemeIsScheme(lang, url, s);
    AfterShaped(lang, url[s + n + 3..]);
  }

  /** A match found at `s` covers the input from `s` to the end. */
  lemma MatchCovers(lang: Lang, url: string, s: nat)
    requires s <= |url| && MatchAt(lang, url, s).Some?
    ensures Covers(lang, url, s, MatchAt(lang, url, s).value)
  {
    var n := SchemeLength(lang, url, s);
    SchemeIsScheme(lang, url, s);
    var u := url[s..];
    var t := url[s + n + 3..];
    assert t == u[n + 3..];
    var nl := AfterCovers(lang, t);
    var g := AfterScheme(lang, t).value;
    CoversFrom(u, url[s..s + n], g.0.GetOr(""), g.1, g.2, nl);
  }

  /** A match found at `s` has the shape of the pattern and covers the input from `s` to the end. */
  lemma MatchShape(lang: Lang, url: string, s: nat)
    requires s <= |url| && MatchAt(lang, url, s).Some?
    ensures Shaped(lang, MatchAt(lang, url, s).value) && Covers(lang, url, s, MatchAt(lang, url, s).value)
  {
    MatchShaped(lang, url, s);
    MatchCovers(lang, url, s);
  }

  /** Conversely, input of the pattern's shape from `s` on is matched at `s` with exactly these groups. */
  lemma ShapeMatches(lang: Lang, url: string, s: nat, m: UrlMatch)
    requires s <= |url| && Shaped(lang, m) && Covers(lang, url, s, m)
    ensures MatchAt(lang, url, s) == Some(m)
  {
    var u := url[s..];
    var n := |m.scheme|;
    var nl := CoverText(lang, url, s, m);
    CoversFrom(u, m.scheme, m.userInfo.GetOr(""), m.host, m.rest, nl);
    SchemeOf(lang, u, m.scheme);
    SchemeFrom(lang, url, s);
    assert url[s + n + 3..] == u[n + 3..] && url[s..s + n] == u[..n];
    AfterOf(lang, m.userInfo, m.host, m.rest, nl);
    MatchOfParts(lang, url, s, m);
  }

  /** The covered input spelled out, with the final line feed Python allows, if any. */
  lemma CoverText(lang: Lang, url: string, s: nat, m: UrlMatch) returns (nl: string)
    requires s <= |url| && Covers(lang, url, s, m)
    ensures url[s..] == m.scheme + "://" + m.userInfo.GetOr("") + m.host + m.rest + nl
    ensures FinalNewline(lang, m.rest, nl)
  {
    nl := if url[s..] == Matched(m) then "" else "\n";
  }

  /** The match at `s` assembled from its scheme and the groups after `://`. */
  lemma MatchOfParts(lang: Lang, url: string, s: nat, m: UrlMatch)
    requires s <= |url| && SchemeLength(lang, url, s) == |m.scheme| > 0 && s + |m.scheme| <= |url|
    requires url[s..s + |m.scheme|] == m.scheme
    requires AfterScheme(lang, url[s + |m.scheme| + 3..]) == Some((m.userInfo, m.host, m.rest))
    ensures MatchAt(lang, url, s) == Some(m)
  {
  }

  /**
   * Where `pattern.exec(url)` finds its match: the first position from `s` on at
   * which the pattern matches.
   */
  function FirstMatch(url: string, s: nat): (r: Option<nat>)
    requires s <= |url|
    ensures r.Some? ==> s <= r.value <= |url| && MatchAt(Js, url, r.value).Some?
    ensures r.Some? ==> forall k :: s <= k < r.value ==> MatchAt(Js, url, k).None?
    ensures r.None? ==> forall k :: s <= k <= |url| ==> MatchAt(Js, url, k).None?
    decreases |url| - s
  {
    if MatchAt(Js, url, s).Some? then Some(s)
    else if s == |url| then None
    else FirstMatch(url, s + 1)
  }

  /**
   * The last step of both functions (globals.js lines 247-254, util.py lines 68-73):
   * group 4 loses a final `/` when it holds no `?` or `#`. The guard's last disjunct
   * never decides anything: a string of at most one character other than `/` does
   * not end with `/` either.
   */
  function DropSlash(pc: string): (r: string)
    ensures r == pc <==> HasChar(pc, '?') || HasChar(pc, '#') || !EndsWith(pc, "/")
    ensures r != pc ==> pc == r + "/"
  {
    if HasChar(pc, '?') || HasChar(pc, '#') || !EndsWith(pc, "/") || (|pc| <= 1 && pc != "/") then pc
    else pc[..|pc| - 1]
  }

  /** The groups as they are written back: scheme and host lower-cased, a final `/` dropped. */
  function Normalized(m: UrlMatch): UrlMatch {
    UrlMatch(Lower(m.scheme), m.userInfo, Lower(m.host), DropSlash(m.rest))
  }

  /** The URL rebuilt from a match (globals.js lines 242-254, util.py lines 64-73). */
  function Rebuild(m: UrlMatch): (r: string)
    ensures r == Matched(Normalized(m))
  {
    Lower(m.scheme) + "://" + m.userInfo.GetOr("") + Lower(m.host) + DropSlash(m.rest)
  }

  /** `normalizeUrl` (globals.js lines 236-257). */
  function NormalizeUrl(url: string): string {
    match FirstMatch(url, 0)
    case None => url
    case Some(p) => Rebuild(MatchAt(Js, url, p).value)
  }

  /** `normalize_url` (util.py lines 59-74). */
  function NormalizeUrlPy(url: string): string {
    match MatchAt(Py, url, 0)
    case None => url
    case Some(m) => Rebuild(m)
  }

  /** The URL normalisation of either language. */
  function Normalize(lang: Lang, url: string): string {
    match lang
    case Js => NormalizeUrl(url)
    case Py => NormalizeUrlPy(url)
  }

  /** The match `Normalize` rebuilds from, if any. */
  function MatchOf(lang: Lang, url: string): (r: Option<UrlMatch>)
    ensures r.Some? ==> exists p :: 0 <= p <= |url| && MatchAt(lang, url, p) == r
    ensures r.None? ==> Normalize(lang, url) == url
    ensures r.Some? ==> Normalize(lang, url) == Rebuild(r.value)
  {
    match lang
    case Js => (match FirstMatch(url, 0) case None => None case Some(p) => MatchAt(Js, url, p))
    case Py => MatchAt(Py, url, 0)
  }

  /** A lower-case pattern letter that matches `c` matches `c` lower-cased too. */
  lemma LetterLower(lang: Lang, c: char, l: char)
    requires IsLower(l) && LetterMatches(lang, c, l)
    ensures LetterMatches(lang, LowerChar(c), l)
  {
  }

  /** Lower-casing a scheme word leaves a scheme word. */
  lemma LowerScheme(lang: Lang, sch: string)
    requires IsScheme(lang, sch)
    ensures IsScheme(lang, Lower(sch))
  {
    var w := Lower(sch);
    if |sch| == 3 {
      LetterLower(lang, sch[0], 'f'); LetterLower(lang, sch[1], 't'); LetterLower(lang, sch[2], 'p');
    } else if HttpAt(lang, sch, 0) {
      LetterLower(lang, sch[0], 'h'); LetterLower(lang, sch[1], 't'); LetterLower(lang, sch[2], 't');
      LetterLower(lang, sch[3], 'p');
      if |sch| == 5 { LetterLower(lang, sch[4], 's'); }
    } else {
      LetterLower(lang, sch[0], 'f'); LetterLower(lang, sch[1], 't'); LetterLower(lang, sch[2], 'p');
      LetterLower(lang, sch[3], 's');
    }
  }

  /** Lower-casing makes none of `?/#@` and removes none. */
  lemma LowerHost(h: string)
    ensures NoDelimiter(Lower(h)) <==> NoDelimiter(h)
    ensures NoInnerAt(Lower(h)) <==> NoInnerAt(h)
  {
    assert forall i :: 0 <= i < |h| ==> (IsDelimiter(Lower(h)[i]) <==> IsDelimiter(h[i]));
    assert forall i :: 0 <= i < |h| ==> (Lower(h)[i] == '@' <==> h[i] == '@');
  }

  /** Dropping the final `/` leaves group 4 of the pattern's shape. */
  lemma DropSlashShape(lang: Lang, rest: string)
    requires (rest == "" || IsDelimiter(rest[0])) && NoLineTerminator(lang, rest)
    ensures var r := DropSlash(rest); (r == "" || IsDelimiter(r[0])) && NoLineTerminator(lang, r)
  {
    var r := DropSlash(rest);
    if r != rest {
      assert rest == r + "/";
      assert forall i :: 0 <= i < |r| ==> r[i] == rest[i];
    }
  }

  /** The rebuilt groups have the shape of the pattern again. */
  lemma NormalizedShaped(lang: Lang, m: UrlMatch)
    requires Shaped(lang, m)
    ensures Shaped(lang, Normalized(m))
  {
    LowerScheme(lang, m.scheme);
    LowerHost(m.host);
    DropSlashShape(lang, m.rest);
  }

  /** A rebuilt URL is matched again, at its start, with the rebuilt groups. */
  lemma RebuildMatches(lang: Lang, m: UrlMatch)
    requires Shaped(lang, m)
    ensures MatchAt(lang, Rebuild(m), 0) == Some(Normalized(m))
  {
    NormalizedShaped(lang, m);
    ShapeMatches(lang, Rebuild(m), 0, Normalized(m));
  }

  /** A final `/` once dropped is dropped again exactly when group 4 ended in `//` without `?` or `#`. */
  predicate DoubleSlashEnd(pc: string) {
    !HasChar(pc, '?') && !HasChar(pc, '#') && EndsWith(pc, "//")
  }

  lemma HasCharAppend(a: string, b: string, c: char)
    ensures HasChar(a + b, c) <==> HasChar(a, c) || HasChar(b, c)
  {
    if HasChar(a + b, c) {
      var i :| 0 <= i < |a + b| && (a + b)[i] == c;
      if i >= |a| { assert b[i - |a|] == c; }
    }
    if HasChar(a, c) {
      var i :| 0 <= i < |a| && a[i] == c;
      assert (a + b)[i] == c;
    }
    if HasChar(b, c) {
      var i :| 0 <= i < |b| && b[i] == c;
      assert (a + b)[|a| + i] == c;
    }
  }

  lemma DropSlashTwice(pc: string)
    ensures DropSlash(DropSlash(pc)) == DropSlash(pc) <==> !DoubleSlashEnd(pc)
  {
    var r := DropSlash(pc);
    if r != pc {
      assert pc == r + "/";
      HasCharAppend(r, "/", '?');
      HasCharAppend(r, "/", '#');
      assert !HasChar("/", '?') && !HasChar("/", '#');
      assert EndsWith(r, "/") <==> EndsWith(pc, "//") by {
        if |r| >= 1 { assert pc[|pc| - 2..] == [r[|r| - 1], '/']; }
      }
    }
  }

  /**
   * Normalising twice gives what normalising once gives, except when the URL
   * matches and its group 4 ends in `//` without `?` or `#`: each pass drops one
   * more `/`.
   */
  lemma NormalizeTwice(lang: Lang, url: string)
    ensures Normalize(lang, Normalize(lang, url)) == Normalize(lang, url)
            <==> MatchOf(lang, url).None? || !DoubleSlashEnd(MatchOf(lang, url).value.rest)
  {
    match MatchOf(lang, url)
    case None =>
    case Some(m) =>
      var p :| 0 <= p <= |url| && MatchAt(lang, url, p) == Some(m);
      MatchShaped(lang, url, p);
      var r := Rebuild(m);
      RebuildMatches(lang, m);
      assert MatchOf(lang, r) == Some(Normalized(m)) by {
        if lang == Js {
          assert FirstMatch(r, 0) == Some(0);
        }
      }
      var n := Normalized(m);
      LowerIdempotent(m.scheme);
      LowerIdempotent(m.host);
      var head := Lower(m.scheme) + "://" + m.userInfo.GetOr("") + Lower(m.host);
      assert r == head + DropSlash(m.rest);
      assert Rebuild(n) == head + DropSlash(DropSlash(m.rest));
      DropSlashTwice(m.rest);
      if Rebuild(n) == r {
        assert Rebuild(n)[|head|..] == r[|head|..];
      }
  }

  /** JavaScript's pattern accepts no more than Python's: the same letters match, more characters end a line. */
  lemma ShapedJsPy(m: UrlMatch)
    requires Shaped(Js, m)
    ensures Shaped(Py, m)
  {
  }

  /** Without U+017F in the scheme and a line terminator of JavaScript's in group 4, Python's shape is JavaScript's. */
  lemma ShapedPyJs(m: UrlMatch)
    requires Shaped(Py, m) && !HasChar(m.scheme, '\U{017F}') && NoLineTerminator(Js, m.rest)
    ensures Shaped(Js, m)
  {
    assert forall i :: 0 <= i < |m.scheme| ==> m.scheme[i] != '\U{017F}';
  }

  /** Where JavaScript's search finds its match at position 0, the two functions agree. */
  lemma JsAgreesAtZero(url: string)
    requires FirstMatch(url, 0) == Some(0)
    ensures NormalizeUrl(url) == NormalizeUrlPy(url)
  {
    var m := MatchAt(Js, url, 0).value;
    MatchShape(Js, url, 0);
    ShapedJsPy(m);
    ShapeMatches(Py, url, 0, m);
  }

  /** The scheme and group 4 of a match are made of characters of the text it covers. */
  lemma MatchedChars(u: string, m: UrlMatch)
    requires u == Matched(m)
    ensures forall i :: 0 <= i < |m.scheme| ==> m.scheme[i] == u[i]
    ensures forall i :: 0 <= i < |m.rest| ==> m.rest[i] == u[|u| - |m.rest| + i]
  {
  }

  /**
   * `normalizeUrl` with its search anchored at the start, as `re.match` is: what
   * keeping the two functions in step asks of the JavaScript side.
   */
  function NormalizeUrlAnchored(url: string): string {
    match MatchAt(Js, url, 0)
    case None => url
    case Some(m) => Rebuild(m)
  }

  /** Without line terminators and U+017F, a Python match at the start is a JavaScript match. */
  lemma PyMatchIsJsMatch(url: string)
    requires NoLineTerminator(Js, url) && !HasChar(url, '\U{017F}') && MatchAt(Py, url, 0).Some?
    ensures MatchAt(Js, url, 0) == MatchAt(Py, url, 0)
  {
    var m := MatchAt(Py, url, 0).value;
    MatchShape(Py, url, 0);
    PlainCover(url, m);
    MatchedParts(url, m);
    ShapedPyJs(m);
    ShapeMatches(Js, url, 0, m);
  }

  /** Without a line terminator the final LF is absent: the input is exactly the matched text. */
  lemma PlainCover(url: string, m: UrlMatch)
    requires NoLineTerminator(Js, url) && Covers(Py, url, 0, m)
    ensures url == Matched(m) && Covers(Js, url, 0, m)
  {
    assert url[0..] == url;
    if |url| > 0 {
      assert !IsLineTerminator(Js, url[|url| - 1]);
    }
  }

  /** The scheme and the rest of the matched text have the characters the whole input lacks. */
  lemma MatchedParts(url: string, m: UrlMatch)
    requires url == Matched(m) && NoLineTerminator(Js, url) && !HasChar(url, '\U{017F}')
    ensures !HasChar(m.scheme, '\U{017F}') && NoLineTerminator(Js, m.rest)
  {
    MatchedChars(url, m);
    forall i | 0 <= i < |m.rest| ensures !IsLineTerminator(Js, m.rest[i]) {
      assert m.rest[i] == url[|url| - |m.rest| + i];
    }
  }

  /**
   * Anchored, the JavaScript function agrees with the Python one on every URL
   * without line terminators and without U+017F; the engines differ only there.
   */
  lemma AnchoredAgrees(url: string)
    requires NoLineTerminator(Js, url) && !HasChar(url, '\U{017F}')
    ensures NormalizeUrlAnchored(url) == NormalizeUrlPy(url)
  {
    if MatchAt(Js, url, 0).Some? {
      JsMatchIsPyMatch(url);
    } else if MatchAt(Py, url, 0).Some? {
      PyMatchIsJsMatch(url);
    }
  }

  /** No match starts at a character no scheme word starts with. */
  lemma NoSchemeNoMatch(lang: Lang, url: string, s: nat)
    requires s <= |url| && (s < |url| ==> url[s] != 'h' && url[s] != 'H' && url[s] != 'f' && url[s] != 'F')
    ensures MatchAt(lang, url, s).None?
  {
    assert !LetterAt(lang, url, s, 'h') && !LetterAt(lang, url, s, 'f');
  }

  /** JavaScript finds no match in input whose only possible scheme start, position 0, fails. */
  lemma NoLaterMatch(url: string)
    requires MatchAt(Js, url, 0).None?
    requires forall k :: 1 <= k < |url| ==> url[k] != 'h' && url[k] != 'H' && url[k] != 'f' && url[k] != 'F'
    ensures FirstMatch(url, 0).None? && NormalizeUrl(url) == url
  {
    forall k | 1 <= k <= |url| ensures MatchAt(Js, url, k).None? {
      NoSchemeNoMatch(Js, url, k);
    }
  }

  /** The plain URL `http://a` is its own normal form. */
  lemma PlainUrl()
    ensures Rebuild(UrlMatch("http", None, "a", "")) == "http://a"
  {
    LowerOfLowerCase("http");
    LowerOfLowerCase("a");
  }

  /** Text before the scheme: JavaScript drops it with the search, Python leaves the URL alone. */
  lemma TextBeforeScheme()
    ensures NormalizeUrl("x http://a") == "http://a"
    ensures NormalizeUrlPy("x http://a") == "x http://a"
    ensures NormalizeUrlAnchored("x http://a") == "x http://a"
  {
    var url := "x http://a";
    LeadingText(url);
    NoSchemeNoMatch(Py, url, 0);
    SearchedScheme(url);
  }

  lemma LeadingText(url: string)
    requires url == "x http://a"
    ensures MatchAt(Js, url, 0).None? && MatchAt(Js, url, 1).None?
  {
    assert url[0] == 'x' && url[1] == ' ';
    NoSchemeNoMatch(Js, url, 0);
    NoSchemeNoMatch(Js, url, 1);
  }

  lemma SearchedScheme(url: string)
    requires url == "x http://a" && MatchAt(Js, url, 0).None? && MatchAt(Js, url, 1).None?
    ensures NormalizeUrl(url) == "http://a"
  {
    var m := UrlMatch("http", None, "a", "");
    SchemeAtTwo(url, m);
    assert FirstMatch(url, 0) == Some(2);
    PlainUrl();
  }

  lemma SchemeAtTwo(url: string, m: UrlMatch)
    requires url == "x http://a" && m == UrlMatch("http", None, "a", "")
    ensures MatchAt(Js, url, 2) == Some(m)
  {
    assert url[2..] == Matched(m);
    ShapeMatches(Js, url, 2, m);
  }

  /** At the start of the input JavaScript matches only what Python matches there, with the same groups. */
  lemma JsMatchIsPyMatch(url: string)
    requires MatchAt(Js, url, 0).Some?
    ensures MatchAt(Py, url, 0) == MatchAt(Js, url, 0)
    ensures url == Matched(MatchAt(Js, url, 0).value)
  {
    var m := MatchAt(Js, url, 0).value;
    MatchShape(Js, url, 0);
    assert url[0..] == url;
    ShapedJsPy(m);
    ShapeMatches(Py, url, 0, m);
  }

  /** Text of Python's shape but not JavaScript's is normalised by Python only. */
  lemma PyOnly(m: UrlMatch)
    requires Shaped(Py, m) && !Shaped(Js, m)
    ensures NormalizeUrlPy(Matched(m)) == Rebuild(m)
    ensures MatchAt(Js, Matched(m), 0).None?
  {
    var url := Matched(m);
    assert url[0..] == url;
    ShapeMatches(Py, url, 0, m);
    if MatchAt(Js, url, 0).Some? {
      JsMatchIsPyMatch(url);
      MatchShaped(Js, url, 0);
    }
  }

  /** A CR, U+2028 or U+2029 in the path: Python's `.` takes it, JavaScript's does not. */
  lemma LineTerminatorInPath(m: UrlMatch)
    requires Shaped(Py, m) && !NoLineTerminator(Js, m.rest)
    ensures NormalizeUrlPy(Matched(m)) == Rebuild(m)
    ensures MatchAt(Js, Matched(m), 0).None?
  {
    PyOnly(m);
  }

  /** U+017F in the scheme: Python's case-insensitive `s` takes it, JavaScript's does not. */
  lemma LongSInScheme(m: UrlMatch)
    requires Shaped(Py, m) && HasChar(m.scheme, '\U{017F}')
    ensures NormalizeUrlPy(Matched(m)) == Rebuild(m)
    ensures MatchAt(Js, Matched(m), 0).None?
  {
    var i :| 0 <= i < |m.scheme| && m.scheme[i] == '\U{017F}';
    assert !LetterMatches(Js, m.scheme[i], 'h') && !LetterMatches(Js, m.scheme[i], 't');
    assert !LetterMatches(Js, m.scheme[i], 'p') && !LetterMatches(Js, m.scheme[i], 'f');
    assert !LetterMatches(Js, m.scheme[i], 's');
    assert !IsScheme(Js, m.scheme);
    PyOnly(m);
  }

  /**
   * A final LF after a nonempty path: Python's `$` matches before it, so Python
   * normalises as if it were not there; JavaScript's `$` does not, and it finds no
   * match at the start.
   */
  lemma FinalLineFeed(m: UrlMatch)
    requires Shaped(Py, m) && m.rest != ""
    ensures NormalizeUrlPy(Matched(m) + "\n") == Rebuild(m)
    ensures MatchAt(Js, Matched(m) + "\n", 0).None?
  {
    var url := Matched(m) + "\n";
    assert url[0..] == url;
    ShapeMatches(Py, url, 0, m);
    if MatchAt(Js, url, 0).Some? {
      JsMatchIsPyMatch(url);
    }
  }

  /**
   * Text before the scheme that cannot start one: JavaScript's search skips it and
   * drops it from the result; Python's `re.match` fails at position 0 and returns
   * the input unchanged.
   */
  lemma TextBeforeUrl(pre: string, m: UrlMatch)
    requires Shaped(Js, m) && pre != []
    requires forall k :: 0 <= k < |pre| ==> pre[k] != 'h' && pre[k] != 'H' && pre[k] != 'f' && pre[k] != 'F'
    ensures NormalizeUrl(pre + Matched(m)) == Rebuild(m)
    ensures NormalizeUrlPy(pre + Matched(m)) == pre + Matched(m)
  {
    var url := pre + Matched(m);
    forall k | 0 <= k < |pre| ensures MatchAt(Js, url, k).None? {
      assert url[k] == pre[k];
      NoSchemeNoMatch(Js, url, k);
    }
    assert url[|pre|..] == Matched(m);
    ShapeMatches(Js, url, |pre|, m);
    assert FirstMatch(url, 0) == Some(|pre|);
    assert url[0] == pre[0];
    NoSchemeNoMatch(Py, url, 0);
  }
}
