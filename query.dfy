/**
 * The search-box query language of the browser client: `parseQuery` and its
 * tokenizer `pq`, `isClosingQuote`, the card filter `shuffleFilter` and the
 * re-serialisation `query2String`.
 *
 * A query is a list of terms separated by spaces or tabs: `[tag]` selects a tag,
 * `"some words"` a phrase and any other run of characters a word.
 */
module Queries {

  import opened Text
  import opened JsValues
  import JsonText

  /** The words and tags of a query, each in the order it appears. */
  datatype Terms = Terms(words: seq<string>, tags: seq<string>)

  /** What `parseQuery` returns. */
  datatype FilterQuery = FilterQuery(terms: Terms, isEmpty: bool)

  /** The four states of the tokenizer (`ParserState`). */
  datatype ParserState = Neutral | Word | Quoted | Tag

  /** The variables of the tokenizer's loop. */
  datatype Scan = Scan(state: ParserState, term: string, terms: Terms)

  const NoTerms := Terms([], [])

  /** The characters that separate terms. */
  predicate IsBlank(c: char) {
    c == ' ' || c == '\t'
  }

  // isClosingQuote

  /** The number of backslashes right before position `pos`. */
  function BackslashRun(s: string, pos: nat): (n: nat)
    requires pos <= |s|
    ensures n <= pos
    ensures forall i :: pos - n <= i < pos ==> s[i] == '\\'
    ensures n < pos ==> s[pos - n - 1] != '\\'
    decreases pos
  {
    if pos == 0 || s[pos - 1] != '\\' then 0 else BackslashRun(s, pos - 1) + 1
  }

  /** A run of backslashes that stops at a non-backslash or the start is the whole run. */
  lemma {:induction false} BackslashRunIs(s: string, pos: nat, n: nat)
    requires n <= pos <= |s|
    requires forall i :: pos - n <= i < pos ==> s[i] == '\\'
    requires n == pos || s[pos - n - 1] != '\\'
    ensures BackslashRun(s, pos) == n
    decreases n
  {
    if n > 0 {
      BackslashRunIs(s, pos - 1, n - 1);
    }
  }

  /**
   * A quote ends a quoted phrase when no odd run of backslashes escapes it and it is
   * the last character or a blank follows it.
   */
  predicate ClosingQuote(s: string, pos: nat) {
    pos < |s| && s[pos] == '"' && BackslashRun(s, pos) % 2 == 0 && (pos == |s| - 1 || IsBlank(s[pos + 1]))
  }

  /** `isClosingQuote(pString, pPos)`. */
  method IsClosingQuote(s: string, pos: nat) returns (r: bool)
    ensures r == ClosingQuote(s, pos)
  {
    r := false;
    if pos < |s| && s[pos] == '"' {
      var bsCount := 0;
      var p: int := pos - 1;
      while p >= 0
        invariant -1 <= p < pos
        invariant bsCount == pos - 1 - p
        invariant forall i :: p < i < pos ==> s[i] == '\\'
      {
        if s[p] == '\\' {
          bsCount := bsCount + 1;
        } else {
          break;
        }
        p := p - 1;
      }
      BackslashRunIs(s, pos, bsCount);
      if bsCount % 2 == 0 {
        if pos == |s| - 1 {
          r := true;
        } else {
          var c := s[pos + 1];
          if c == ' ' || c == '\t' {
            r := true;
          }
        }
      }
    }
  }

  // pq

  /** Ends the current term: a non-empty term goes to the words or to the tags. */
  function Close(sc: Scan, toTags: bool): (r: Scan)
    ensures r.state == Neutral && r.term == ""
    ensures |sc.term| == 0 ==> r.terms == sc.terms
    ensures |sc.term| > 0 && toTags ==> r.terms == Terms(sc.terms.words, sc.terms.tags + [sc.term])
    ensures |sc.term| > 0 && !toTags ==> r.terms == Terms(sc.terms.words + [sc.term], sc.terms.tags)
  {
    if |sc.term| == 0 then Scan(Neutral, "", sc.terms)
    else if toTags then Scan(Neutral, "", Terms(sc.terms.words, sc.terms.tags + [sc.term]))
    else Scan(Neutral, "", Terms(sc.terms.words + [sc.term], sc.terms.tags))
  }

  /** One turn of the tokenizer's loop, on the character at `pos`. */
  function Step(s: string, pos: nat, sc: Scan): (r: Scan)
    requires pos < |s|
  {
    var c := s[pos];
    match sc.state
    case Neutral =>
      if c == '"' then sc.(state := Quoted)
      else if c == '[' then sc.(state := Tag)
      else if !IsBlank(c) then sc.(state := Word, term := sc.term + [c])
      else sc
    case Word =>
      if !IsBlank(c) then sc.(term := sc.term + [c]) else Close(sc, false)
    case Quoted =>
      if ClosingQuote(s, pos) then Close(sc, false) else sc.(term := sc.term + [c])
    case Tag =>
      if c == ']' then Close(sc, true) else sc.(term := sc.term + [c])
  }

  /** The tokenizer's variables after the first `n` characters of `s`. */
  function ScanTo(s: string, n: nat): (r: Scan)
    requires n <= |s|
    decreases n
  {
    if n == 0 then Scan(Neutral, "", NoTerms) else Step(s, n - 1, ScanTo(s, n - 1))
  }

  /** What is left in the current term at the end goes to the words. */
  function Finish(sc: Scan): (r: Terms)
    ensures |sc.term| == 0 ==> r == sc.terms
    ensures |sc.term| > 0 ==> r == Terms(sc.terms.words + [sc.term], sc.terms.tags)
  {
    if |sc.term| > 0 then Terms(sc.terms.words + [sc.term], sc.terms.tags) else sc.terms
  }

  /** The terms `pq(s)` returns. */
  function PqOf(s: string): Terms {
    Finish(ScanTo(s, |s|))
  }

  /** `pq(pString)`. */
  method Pq(s: string) returns (r: Terms)
    ensures r == PqOf(s)
  {
    var state := Neutral;
    var term := "";
    var words: seq<string> := [];
    var tags: seq<string> := [];
    var pos := 0;
    while pos < |s|
      invariant pos <= |s|
      invariant ScanTo(s, pos) == Scan(state, term, Terms(words, tags))
    {
      var c := s[pos];
      if state == Neutral {
        if c == '"' {
          state := Quoted;
        } else if c == '[' {
          state := Tag;
        } else if c != ' ' && c != '\t' {
          state := Word;
          term := term + [c];
        }
      } else if state == Word {
        if c != ' ' && c != '\t' {
          term := term + [c];
        } else {
          if |term| > 0 {
            words := words + [term];
            term := "";
          }
          state := Neutral;
        }
      } else if state == Quoted {
        var closing := IsClosingQuote(s, pos);
        if closing {
          if |term| > 0 {
            words := words + [term];
            term := "";
          }
          state := Neutral;
        } else {
          term := term + [c];
        }
      } else {
        if c == ']' {
          if |term| > 0 {
            tags := tags + [term];
            term := "";
          }
          state := Neutral;
        } else {
          term := term + [c];
        }
      }
      pos := pos + 1;
    }
    if |term| > 0 {
      words := words + [term];
    }
    r := Terms(words, tags);
  }

  predicate NonEmptyTerms(t: Terms) {
    (forall i :: 0 <= i < |t.words| ==> t.words[i] != "") && (forall i :: 0 <= i < |t.tags| ==> t.tags[i] != "")
  }

  lemma {:induction false} ScanNonEmpty(s: string, n: nat)
    requires n <= |s|
    ensures NonEmptyTerms(ScanTo(s, n).terms)
    decreases n
  {
    if n > 0 {
      ScanNonEmpty(s, n - 1);
    }
  }

  /** The tokenizer never emits an empty term. */
  lemma PqNonEmpty(s: string)
    ensures NonEmptyTerms(PqOf(s))
  {
    ScanNonEmpty(s, |s|);
  }

  // What the tokenizer does with runs of characters.

  /** Inside `[…]` every character up to `]` belongs to the tag. */
  lemma {:induction false} TagBody(s: string, p: nat, t: string, terms: Terms, j: nat)
    requires p + 1 + |t| <= |s| && j <= |t|
    requires s[p] == '[' && s[p + 1..p + 1 + |t|] == t && (forall i :: 0 <= i < |t| ==> t[i] != ']')
    requires ScanTo(s, p) == Scan(Neutral, "", terms)
    ensures ScanTo(s, p + 1 + j) == Scan(Tag, t[..j], terms)
    decreases j
  {
    if j > 0 {
      TagBody(s, p, t, terms, j - 1);
      assert s[p + j] == t[j - 1];
      assert t[..j - 1] + [t[j - 1]] == t[..j];
    }
  }

  /** A slice that spells `t` between the characters `o` and `c`. */
  lemma Enclosed(s: string, p: nat, o: char, t: string, c: char)
    requires p + 2 + |t| <= |s| && s[p..p + 2 + |t|] == [o] + t + [c]
    ensures s[p] == o && s[p + 1..p + 1 + |t|] == t && s[p + 1 + |t|] == c
  {
    var w := s[p..p + 2 + |t|];
    assert s[p] == w[0];
    assert s[p + 1 + |t|] == w[1 + |t|];
    forall i | 0 <= i < |t| ensures s[p + 1 + i] == t[i] {
      assert s[p + 1 + i] == w[1 + i];
    }
  }

  /** A slice that spells `a + b + c` spells each of the three in turn. */
  lemma Slice3(s: string, p: nat, a: string, b: string, c: string)
    requires p + |a| + |b| + |c| <= |s| && s[p..p + |a| + |b| + |c|] == a + b + c
    ensures s[p..p + |a|] == a
    ensures s[p + |a|..p + |a| + |b|] == b
    ensures s[p + |a| + |b|..p + |a| + |b| + |c|] == c
  {
    var w := s[p..p + |a| + |b| + |c|];
    forall i | 0 <= i < |a| ensures s[p + i] == a[i] {
      assert s[p + i] == w[i];
    }
    forall i | 0 <= i < |b| ensures s[p + |a| + i] == b[i] {
      assert s[p + |a| + i] == w[|a| + i];
    }
    forall i | 0 <= i < |c| ensures s[p + |a| + |b| + i] == c[i] {
      assert s[p + |a| + |b| + i] == w[|a| + |b| + i];
    }
  }

  /** `[t]` from the neutral state adds the tag `t`. */
  lemma TagSegment(s: string, p: nat, t: string, terms: Terms)
    requires p + 2 + |t| <= |s| && t != ""
    requires s[p..p + 2 + |t|] == "[" + t + "]" && (forall i :: 0 <= i < |t| ==> t[i] != ']')
    requires ScanTo(s, p) == Scan(Neutral, "", terms)
    ensures ScanTo(s, p + 2 + |t|) == Scan(Neutral, "", Terms(terms.words, terms.tags + [t]))
  {
    Enclosed(s, p, '[', t, ']');
    TagBody(s, p, t, terms, |t|);
    assert t[..|t|] == t;
  }

  /** A bare word goes on up to the next blank; quotes and brackets inside it are plain characters. */
  lemma {:induction false} WordBody(s: string, p: nat, w: string, terms: Terms, j: nat)
    requires p + |w| <= |s| && 1 <= j <= |w|
    requires s[p..p + |w|] == w && !IsBlank(w[0]) && w[0] != '"' && w[0] != '['
    requires forall i :: 0 <= i < |w| ==> !IsBlank(w[i])
    requires ScanTo(s, p) == Scan(Neutral, "", terms)
    ensures ScanTo(s, p + j) == Scan(Word, w[..j], terms)
    decreases j
  {
    if j > 1 {
      WordBody(s, p, w, terms, j - 1);
      assert s[p + j - 1] == w[j - 1];
      assert w[..j - 1] + [w[j - 1]] == w[..j];
    } else {
      assert s[p] == w[0];
      assert [w[0]] == w[..1];
    }
  }

  /** A word from the neutral state leaves the tokenizer inside that word. */
  lemma WordSegment(s: string, p: nat, w: string, terms: Terms)
    requires p + |w| <= |s| && w != ""
    requires s[p..p + |w|] == w && w[0] != '"' && w[0] != '['
    requires forall i :: 0 <= i < |w| ==> !IsBlank(w[i])
    requires ScanTo(s, p) == Scan(Neutral, "", terms)
    ensures ScanTo(s, p + |w|) == Scan(Word, w, terms)
  {
    WordBody(s, p, w, terms, |w|);
    assert w[..|w|] == w;
  }

  /** Inside a quoted phrase, characters that are not a closing quote belong to the phrase. */
  lemma {:induction false} QuotedBody(s: string, p: nat, q: string, terms: Terms, j: nat)
    requires p + 1 + |q| <= |s| && j <= |q|
    requires s[p] == '"' && s[p + 1..p + 1 + |q|] == q && (forall i :: 0 <= i < |q| ==> q[i] != '"')
    requires ScanTo(s, p) == Scan(Neutral, "", terms)
    ensures ScanTo(s, p + 1 + j) == Scan(Quoted, q[..j], terms)
    decreases j
  {
    if j > 0 {
      QuotedBody(s, p, q, terms, j - 1);
      assert s[p + j] == q[j - 1];
      assert !ClosingQuote(s, p + j);
      assert q[..j - 1] + [q[j - 1]] == q[..j];
    }
  }

  /**
   * `"q"` from the neutral state adds the phrase `q` as a word, when `q` holds no
   * quote, does not end in a backslash, and a blank or the end follows.
   */
  lemma QuotedSegment(s: string, p: nat, q: string, terms: Terms)
    requires p + 2 + |q| <= |s| && q != ""
    requires s[p..p + 2 + |q|] == "\"" + q + "\"" && (forall i :: 0 <= i < |q| ==> q[i] != '"')
    requires q[|q| - 1] != '\\'
    requires p + 2 + |q| == |s| || IsBlank(s[p + 2 + |q|])
    requires ScanTo(s, p) == Scan(Neutral, "", terms)
    ensures ScanTo(s, p + 2 + |q|) == Scan(Neutral, "", Terms(terms.words + [q], terms.tags))
  {
    var e := p + 1 + |q|;
    Enclosed(s, p, '"', q, '"');
    QuotedBody(s, p, q, terms, |q|);
    assert q[..|q|] == q;
    assert s[e - 1] == q[|q| - 1];
    BackslashRunIs(s, e, 0);
    assert ClosingQuote(s, e);
  }

  /** An unterminated `[t` ends up among the words, not the tags. */
  lemma UnterminatedTag(t: string)
    requires t != "" && forall i :: 0 <= i < |t| ==> t[i] != ']'
    ensures PqOf("[" + t) == Terms([t], [])
  {
    var s := "[" + t;
    assert s[1..1 + |t|] == t;
    TagBody(s, 0, t, NoTerms, |t|);
    assert t[..|t|] == t;
  }

  /** An unterminated `"q` ends up among the words. */
  lemma UnterminatedQuote(q: string)
    requires q != "" && forall i :: 0 <= i < |q| ==> q[i] != '"'
    ensures PqOf("\"" + q) == Terms([q], [])
  {
    var s := "\"" + q;
    assert s[1..1 + |q|] == q;
    QuotedBody(s, 0, q, NoTerms, |q|);
    assert q[..|q|] == q;
  }

  // parseQuery

  /** The result of `parseQuery(pQuery)`. */
  function ParseQueryOf(q: JsValue): FilterQuery {
    var terms :=
      if q.Str? && |Trim(Js, q.s)| > 0 then
        var t := PqOf(Trim(Js, q.s));
        Terms(LowerAll(t.words), LowerAll(t.tags))
      else NoTerms;
    FilterQuery(terms, terms.words == [] && terms.tags == [])
  }

  /** `parseQuery(pQuery)`: the terms of the trimmed query, lower-cased in place. */
  method ParseQuery(q: JsValue) returns (r: FilterQuery)
    ensures r == ParseQueryOf(q)
  {
    var result := NoTerms;
    if !q.Undefined? && !q.Null? {
      if q.Str? && |Trim(Js, q.s)| > 0 {
        result := Pq(Trim(Js, q.s));
        var words, tags := result.words, result.tags;
        for i := 0 to |words|
          invariant |words| == |result.words|
          invariant forall k :: 0 <= k < i ==> words[k] == Lower(result.words[k])
          invariant forall k :: i <= k < |words| ==> words[k] == result.words[k]
        {
          words := words[i := Lower(words[i])];
        }
        for i := 0 to |tags|
          invariant |tags| == |result.tags|
          invariant forall k :: 0 <= k < i ==> tags[k] == Lower(result.tags[k])
          invariant forall k :: i <= k < |tags| ==> tags[k] == result.tags[k]
        {
          tags := tags[i := Lower(tags[i])];
        }
        result := Terms(words, tags);
      }
    }
    r := FilterQuery(result, |result.words| == 0 && |result.tags| == 0);
  }

  /** `undefined`, `null`, a non-string or a blank string is the empty query. */
  lemma ParseQueryBlank(q: JsValue)
    requires !q.Str? || forall i :: 0 <= i < |q.s| ==> IsJsSpace(q.s[i])
    ensures ParseQueryOf(q) == FilterQuery(NoTerms, true)
  {
    if q.Str? {
      TrimEmpty(Js, q.s);
    }
  }

  /** Every term is non-empty and lower-case, and `isEmpty` says that there is none. */
  lemma ParseQueryShape(q: JsValue)
    ensures NonEmptyTerms(ParseQueryOf(q).terms)
    ensures forall w :: w in ParseQueryOf(q).terms.words ==> IsLowerCase(w)
    ensures forall t :: t in ParseQueryOf(q).terms.tags ==> IsLowerCase(t)
    ensures ParseQueryOf(q).isEmpty <==> ParseQueryOf(q).terms == NoTerms
  {
    if q.Str? && |Trim(Js, q.s)| > 0 {
      PqNonEmpty(Trim(Js, q.s));
      var t := ParseQueryOf(q).terms;
      forall w | w in t.words ensures IsLowerCase(w) {
        var i :| 0 <= i < |t.words| && t.words[i] == w;
        LowerIsLowerCase(PqOf(Trim(Js, q.s)).words[i]);
      }
      forall x | x in t.tags ensures IsLowerCase(x) {
        var i :| 0 <= i < |t.tags| && t.tags[i] == x;
        LowerIsLowerCase(PqOf(Trim(Js, q.s)).tags[i]);
      }
    }
  }

  /** A string that starts and ends with a non-space is its own trim. */
  lemma TrimNone(lang: Lang, s: string)
    requires s != [] && !IsSpace(lang, s[0]) && !IsSpace(lang, s[|s| - 1])
    ensures Trim(lang, s) == s
  {
    assert SpacePrefix(lang, s) == 0;
    assert s[0..] == s;
    assert SpaceSuffix(lang, s) == 0;
  }

  /** A query with nothing to trim and nothing to lower-case is its own tokens. */
  lemma ParseQueryOfTrimmed(s: string, t: Terms)
    requires s != "" && !IsJsSpace(s[0]) && !IsJsSpace(s[|s| - 1]) && PqOf(s) == t
    requires forall i :: 0 <= i < |t.words| ==> IsLowerCase(t.words[i])
    requires forall i :: 0 <= i < |t.tags| ==> IsLowerCase(t.tags[i])
    ensures ParseQueryOf(Str(s)) == FilterQuery(t, t == NoTerms)
  {
    TrimNone(Js, s);
    LowerAllLowerCase(t.words);
    LowerAllLowerCase(t.tags);
  }

  /** `pq` of a tag, a word and a quoted phrase, in that order, separated by single spaces. */
  lemma PqTagWordPhrase(s: string, tag: string, word: string, phrase: string)
    requires PlainTag(tag) && PlainWord(word)
    requires phrase != "" && phrase[|phrase| - 1] != '\\'
    requires forall i :: 0 <= i < |phrase| ==> phrase[i] != '"'
    requires |s| == |tag| + |word| + |phrase| + 6
    requires s[0..|tag| + 2] == "[" + tag + "]" && s[|tag| + 2] == ' '
    requires s[|tag| + 3..|tag| + 3 + |word|] == word && s[|tag| + 3 + |word|] == ' '
    requires s[|tag| + 4 + |word|..] == "\"" + phrase + "\""
    ensures PqOf(s) == Terms([word, phrase], [tag])
  {
    var a := |tag| + 2;
    var b := a + 1 + |word|;
    TagSegment(s, 0, tag, NoTerms);
    BlankStep(s, a, Terms([], [tag]));
    assert forall i :: 0 <= i < |word| ==> !IsBlank(word[i]);
    WordSegment(s, a + 1, word, Terms([], [tag]));
    WordEnds(s, b, word, Terms([], [tag]));
    assert s[b + 1..b + 3 + |phrase|] == s[b + 1..];
    QuotedSegment(s, b + 1, phrase, Terms([word], [tag]));
    assert b + 1 + 2 + |phrase| == |s|;
    PqOfNeutral(s, Terms([word] + [phrase], [tag]));
  }

  /** A space between terms leaves the neutral state and the terms as they are. */
  lemma BlankStep(s: string, p: nat, terms: Terms)
    requires p < |s| && s[p] == ' ' && ScanTo(s, p) == Scan(Neutral, "", terms)
    ensures ScanTo(s, p + 1) == Scan(Neutral, "", terms)
  {
  }

  /** A space after a bare word adds the word to the terms. */
  lemma WordEnds(s: string, p: nat, w: string, terms: Terms)
    requires p < |s| && s[p] == ' ' && ScanTo(s, p) == Scan(Word, w, terms)
    ensures ScanTo(s, p + 1) == Scan(Neutral, "", Terms(terms.words + [w], terms.tags))
  {
  }

  /** A text that leaves the tokenizer in the neutral state yields the terms collected so far. */
  lemma PqOfNeutral(s: string, terms: Terms)
    requires ScanTo(s, |s|) == Scan(Neutral, "", terms)
    ensures PqOf(s) == terms
  {
  }

  /** The same, with the query text written out. */
  lemma PqTagWordPhraseText(tag: string, word: string, phrase: string)
    requires PlainTag(tag) && PlainWord(word)
    requires phrase != "" && phrase[|phrase| - 1] != '\\'
    requires forall i :: 0 <= i < |phrase| ==> phrase[i] != '"'
    ensures PqOf("[" + tag + "] " + word + " \"" + phrase + "\"") == Terms([word, phrase], [tag])
  {
    var s := "[" + tag + "] " + word + " \"" + phrase + "\"";
    assert s[0..|tag| + 2] == "[" + tag + "]";
    assert s[|tag| + 3..|tag| + 3 + |word|] == word;
    assert s[|tag| + 4 + |word|..] == "\"" + phrase + "\"";
    PqTagWordPhrase(s, tag, word, phrase);
  }

  /** The terms of the worked example are plain and lower-case. */
  lemma ExampleTermsPlain(t: Terms)
    requires t == Terms(["market", "interest rate"], ["news"])
    ensures PlainTag("news") && PlainWord("market")
    ensures forall i :: 0 <= i < |"interest rate"| ==> "interest rate"[i] != '"'
    ensures (forall i :: 0 <= i < |t.words| ==> IsLowerCase(t.words[i])) && t != NoTerms
    ensures forall i :: 0 <= i < |t.tags| ==> IsLowerCase(t.tags[i])
  {
    assert t.words[1] == "interest rate";
  }

  /** The text of the worked example, put together from its terms, with nothing to trim. */
  lemma ExampleText(s: string)
    requires s == "[news] market \"interest rate\""
    ensures s == "[" + "news" + "] " + "market" + " \"" + "interest rate" + "\""
    ensures s != "" && !IsJsSpace(s[0]) && !IsJsSpace(s[|s| - 1])
  {
  }

  /** The worked example: `[news] market "interest rate"`. */
  lemma ParseQueryExample()
    ensures ParseQueryOf(Str("[news] market \"interest rate\"")) ==
      FilterQuery(Terms(["market", "interest rate"], ["news"]), false)
  {
    var s := "[news] market \"interest rate\"";
    var t := Terms(["market", "interest rate"], ["news"]);
    ExampleTermsPlain(t);
    ExampleText(s);
    PqTagWordPhraseText("news", "market", "interest rate");
    ParseQueryOfTrimmed(s, t);
  }

  // shuffleFilter

  /**
   * `shuffleFilter(pElement, pFilter)` for a card whose `data-groups` are `groups`
   * and whose `data-searchtext` is `searchText`.
   */
  function ShuffleFilter(groups: seq<string>, searchText: string, f: FilterQuery): (r: bool)
    ensures r <==> (forall t :: t in f.terms.tags ==> t in groups) &&
                   (forall w :: w in f.terms.words ==> Contains(searchText, w))
  {
    var tagsOk := |f.terms.tags| == 0 || forall i :: 0 <= i < |f.terms.tags| ==> f.terms.tags[i] in groups;
    var wordsOk := |f.terms.words| == 0 ||
      forall i :: 0 <= i < |f.terms.words| ==> JsonText.IndexOfText(searchText, f.terms.words[i]) != -1;
    assert wordsOk <==> forall w :: w in f.terms.words ==> Contains(searchText, w) by {
      forall i | 0 <= i < |f.terms.words| {
        JsonText.IndexOfTextFinds(searchText, f.terms.words[i]);
      }
    }
    tagsOk && wordsOk
  }

  /** The empty query shows every card. */
  lemma ShuffleFilterEmpty(groups: seq<string>, searchText: string, f: FilterQuery)
    requires f.terms == NoTerms
    ensures ShuffleFilter(groups, searchText, f)
  {
  }

  // query2String

  /** `[t] ` for every tag. */
  function TagsPrefix(tags: seq<string>): (r: string)
    decreases |tags|
  {
    if tags == [] then "" else TagsPrefix(tags[..|tags| - 1]) + "[" + tags[|tags| - 1] + "] "
  }

  /** The text `query2String` builds. */
  function QueryTextOf(q: Terms): string {
    var text := TagsPrefix(q.tags) + (if |q.words| > 0 then Join(q.words, " ") else "");
    if EndsWith(text, " ") then text[..|text| - 1] else text
  }

  /** `query2String(pFilterQuery)`. */
  method Query2String(q: Terms) returns (r: string)
    ensures r == QueryTextOf(q)
  {
    r := "";
    if |q.tags| > 0 {
      for i := 0 to |q.tags|
        invariant r == TagsPrefix(q.tags[..i])
      {
        assert q.tags[..i + 1][..i] == q.tags[..i];
        r := r + "[" + q.tags[i] + "] ";
      }
      assert q.tags[..|q.tags|] == q.tags;
    }
    if |q.words| > 0 {
      r := r + Join(q.words, " ");
    }
    if EndsWith(r, " ") {
      r := r[..|r| - 1];
    }
  }

  // query2String undoes parseQuery.

  /** A term as it appears in a query string. */
  datatype Token = TagToken(tag: string) | WordToken(word: string)

  function TokenText(k: Token): string {
    match k
    case TagToken(t) => "[" + t + "]"
    case WordToken(w) => w
  }

  function TokenTexts(ks: seq<Token>): (r: seq<string>)
    ensures |r| == |ks|
    ensures forall i :: 0 <= i < |ks| ==> r[i] == TokenText(ks[i])
  {
    seq(|ks|, i requires 0 <= i < |ks| => TokenText(ks[i]))
  }

  /** The terms a list of tokens stands for. */
  function TermsOf(ks: seq<Token>): (r: Terms)
    decreases |ks|
  {
    if ks == [] then NoTerms
    else
      var t := TermsOf(ks[..|ks| - 1]);
      match ks[|ks| - 1]
      case TagToken(x) => Terms(t.words, t.tags + [x])
      case WordToken(w) => Terms(t.words + [w], t.tags)
  }

  /** A token that reads back as itself: a non-empty tag without `]`, or a non-empty word without blanks that does not open a phrase or a tag. */
  predicate PlainToken(k: Token) {
    match k
    case TagToken(t) => t != "" && forall i :: 0 <= i < |t| ==> t[i] != ']'
    case WordToken(w) => w != "" && w[0] != '"' && w[0] != '[' && forall i :: 0 <= i < |w| ==> !IsBlank(w[i])
  }

  predicate PlainTokens(ks: seq<Token>) {
    forall i :: 0 <= i < |ks| ==> PlainToken(ks[i])
  }

  /** The tokenizer's variables right after the last token of `ks`. */
  function After(ks: seq<Token>): Scan
    requires ks != []
  {
    match ks[|ks| - 1]
    case TagToken(_) => Scan(Neutral, "", TermsOf(ks))
    case WordToken(w) => Scan(Word, w, TermsOf(ks[..|ks| - 1]))
  }

  /** A token read from the neutral state, after the tokens `pre`. */
  lemma TokenSegment(s: string, p: nat, pre: seq<Token>, k: Token)
    requires PlainToken(k) && p + |TokenText(k)| <= |s| && s[p..p + |TokenText(k)|] == TokenText(k)
    requires ScanTo(s, p) == Scan(Neutral, "", TermsOf(pre))
    ensures ScanTo(s, p + |TokenText(k)|) == After(pre + [k])
  {
    assert (pre + [k])[..|pre|] == pre;
    match k
    case TagToken(t) => TagSegment(s, p, t, TermsOf(pre));
    case WordToken(w) => WordSegment(s, p, w, TermsOf(pre));
  }

  /** The blank between two tokens ends a pending word. */
  lemma Separator(s: string, ks: seq<Token>, p: nat)
    requires ks != [] && p < |s| && s[p] == ' ' && ScanTo(s, p) == After(ks)
    ensures ScanTo(s, p + 1) == Scan(Neutral, "", TermsOf(ks))
  {
    var k := ks[|ks| - 1];
    if k.WordToken? {
      assert Step(s, p, After(ks)) == Close(After(ks), false);
    }
  }

  lemma JoinSnoc(xs: seq<string>, sep: string)
    requires |xs| >= 2
    ensures Join(xs, sep) == Join(xs[..|xs| - 1], sep) + sep + xs[|xs| - 1]
  {
  }

  /** The text of tokens is the text of all but the last, a space, and the last token's text. */
  lemma JoinTokensSnoc(ks: seq<Token>)
    requires |ks| >= 2
    ensures Join(TokenTexts(ks), " ") == Join(TokenTexts(ks[..|ks| - 1]), " ") + " " + TokenText(ks[|ks| - 1])
  {
    assert TokenTexts(ks)[..|ks| - 1] == TokenTexts(ks[..|ks| - 1]);
    JoinSnoc(TokenTexts(ks), " ");
  }

  /** After the tokens `front`, a space and one more token. */
  lemma ScanNextToken(s: string, front: seq<Token>, k: Token, p: nat)
    requires front != [] && PlainToken(k)
    requires p + 1 + |TokenText(k)| <= |s| && s[p..p + 1 + |TokenText(k)|] == " " + TokenText(k)
    requires ScanTo(s, p) == After(front)
    ensures ScanTo(s, p + 1 + |TokenText(k)|) == After(front + [k])
  {
    Slice3(s, p, " ", TokenText(k), "");
    assert s[p] == s[p..p + 1][0];
    Separator(s, front, p);
    TokenSegment(s, p + 1, front, k);
  }

  lemma PlainFront(ks: seq<Token>)
    requires ks != [] && PlainTokens(ks)
    ensures PlainTokens(ks[..|ks| - 1]) && PlainToken(ks[|ks| - 1])
  {
    var front := ks[..|ks| - 1];
    forall i | 0 <= i < |front| ensures PlainToken(front[i]) {
      assert front[i] == ks[i];
    }
  }

  /** The text of all but the last token is a prefix of the text of all. */
  lemma FrontText(s: string, ks: seq<Token>)
    requires |ks| >= 2
    requires |Join(TokenTexts(ks), " ")| <= |s| && s[..|Join(TokenTexts(ks), " ")|] == Join(TokenTexts(ks), " ")
    ensures |Join(TokenTexts(ks[..|ks| - 1]), " ")| + 1 + |TokenText(ks[|ks| - 1])| == |Join(TokenTexts(ks), " ")|
    ensures s[..|Join(TokenTexts(ks[..|ks| - 1]), " ")|] == Join(TokenTexts(ks[..|ks| - 1]), " ")
    ensures s[|Join(TokenTexts(ks[..|ks| - 1]), " ")|..|Join(TokenTexts(ks), " ")|] == " " + TokenText(ks[|ks| - 1])
  {
    var jf := Join(TokenTexts(ks[..|ks| - 1]), " ");
    JoinTokensSnoc(ks);
    Slice3(s, 0, jf, " " + TokenText(ks[|ks| - 1]), "");
  }

  /** Reading tokens joined by single spaces, token by token. */
  lemma {:induction false} ScanTokens(s: string, ks: seq<Token>)
    requires ks != [] && PlainTokens(ks)
    requires |Join(TokenTexts(ks), " ")| <= |s| && s[..|Join(TokenTexts(ks), " ")|] == Join(TokenTexts(ks), " ")
    ensures ScanTo(s, |Join(TokenTexts(ks), " ")|) == After(ks)
    decreases |ks|
  {
    var n := |ks|;
    var k := ks[n - 1];
    var front := ks[..n - 1];
    PlainFront(ks);
    assert ks == front + [k];
    if n == 1 {
      assert Join(TokenTexts(ks), " ") == TokenText(k);
      assert s[0..|TokenText(k)|] == TokenText(k);
      TokenSegment(s, 0, [], k);
    } else {
      FrontText(s, ks);
      ScanTokens(s, front);
      ScanNextToken(s, front, k, |Join(TokenTexts(front), " ")|);
    }
  }

  /** `pq` of plain tokens joined by single spaces gives back their terms. */
  lemma PqOfTokens(ks: seq<Token>)
    requires PlainTokens(ks)
    ensures PqOf(Join(TokenTexts(ks), " ")) == TermsOf(ks)
  {
    var s := Join(TokenTexts(ks), " ");
    if ks != [] {
      assert s[..|s|] == s;
      ScanTokens(s, ks);
      FinishAfter(ks);
    }
  }

  /** The scan after the last plain token, finished, holds the terms of all tokens. */
  lemma FinishAfter(ks: seq<Token>)
    requires ks != [] && PlainToken(ks[|ks| - 1])
    ensures Finish(After(ks)) == TermsOf(ks)
  {
    if ks[|ks| - 1].WordToken? {
      assert |ks[|ks| - 1].word| > 0;
    }
  }

  function TagTokens(tags: seq<string>): (r: seq<Token>)
    ensures |r| == |tags|
    ensures forall i :: 0 <= i < |tags| ==> r[i] == TagToken(tags[i])
  {
    seq(|tags|, i requires 0 <= i < |tags| => TagToken(tags[i]))
  }

  function WordTokens(words: seq<string>): (r: seq<Token>)
    ensures |r| == |words|
    ensures forall i :: 0 <= i < |words| ==> r[i] == WordToken(words[i])
  {
    seq(|words|, i requires 0 <= i < |words| => WordToken(words[i]))
  }

  /** The tags as tag tokens, then the words as word tokens: the order `query2String` writes them in. */
  function Tokens(q: Terms): seq<Token> {
    TagTokens(q.tags) + WordTokens(q.words)
  }

  lemma {:induction false} TermsOfTags(tags: seq<string>)
    ensures TermsOf(TagTokens(tags)) == Terms([], tags)
    decreases |tags|
  {
    if tags != [] {
      var n := |tags|;
      assert TagTokens(tags)[..n - 1] == TagTokens(tags[..n - 1]);
      TermsOfTags(tags[..n - 1]);
      assert tags[..n - 1] + [tags[n - 1]] == tags;
    }
  }

  lemma {:induction false} TermsOfWords(pre: seq<Token>, words: seq<string>)
    ensures TermsOf(pre + WordTokens(words)) == Terms(TermsOf(pre).words + words, TermsOf(pre).tags)
    decreases |words|
  {
    var n := |words|;
    var ks := pre + WordTokens(words);
    if n == 0 {
      assert ks == pre;
    } else {
      assert ks[..|ks| - 1] == pre + WordTokens(words[..n - 1]);
      TermsOfWords(pre, words[..n - 1]);
      assert TermsOf(pre).words + words[..n - 1] + [words[n - 1]] == TermsOf(pre).words + words;
    }
  }

  lemma TermsOfTokens(q: Terms)
    ensures TermsOf(Tokens(q)) == q
  {
    TermsOfTags(q.tags);
    TermsOfWords(TagTokens(q.tags), q.words);
  }

  /** `[t] ` for every tag is the bracketed tags joined by spaces, plus a space. */
  lemma {:induction false} TagsPrefixJoin(tags: seq<string>)
    requires tags != []
    ensures TagsPrefix(tags) == Join(TokenTexts(TagTokens(tags)), " ") + " "
    decreases |tags|
  {
    var n := |tags|;
    var texts := TokenTexts(TagTokens(tags));
    if n > 1 {
      assert texts[..n - 1] == TokenTexts(TagTokens(tags[..n - 1]));
      TagsPrefixJoin(tags[..n - 1]);
      JoinSnoc(texts, " ");
    } else {
      assert texts == [TokenText(TagToken(tags[0]))];
    }
  }

  /** Joining two non-empty lists is joining each and putting the separator between them. */
  lemma {:induction false} JoinAppend(xs: seq<string>, ys: seq<string>, sep: string)
    requires xs != [] && ys != []
    ensures Join(xs + ys, sep) == Join(xs, sep) + sep + Join(ys, sep)
    decreases |ys|
  {
    if |ys| == 1 {
      assert (xs + ys)[..|xs + ys| - 1] == xs;
      JoinSnoc(xs + ys, sep);
    } else {
      var yf := ys[..|ys| - 1];
      assert (xs + ys)[..|xs + ys| - 1] == xs + yf;
      JoinAppend(xs, yf, sep);
      JoinSnoc(xs + ys, sep);
      JoinSnoc(ys, sep);
    }
  }

  /** The first character of a join whose first string is non-empty. */
  lemma {:induction false} JoinFirst(xs: seq<string>, sep: string)
    requires xs != [] && xs[0] != ""
    ensures Join(xs, sep) != "" && Join(xs, sep)[0] == xs[0][0]
    decreases |xs|
  {
    if |xs| > 1 {
      JoinFirst(xs[..|xs| - 1], sep);
      JoinSnoc(xs, sep);
    }
  }

  /** The last character of a join whose last string is non-empty. */
  lemma JoinLast(xs: seq<string>, sep: string)
    requires xs != [] && xs[|xs| - 1] != ""
    ensures Join(xs, sep) != "" && Join(xs, sep)[|Join(xs, sep)| - 1] == xs[|xs| - 1][|xs[|xs| - 1]| - 1]
  {
    if |xs| > 1 {
      JoinSnoc(xs, sep);
    }
  }

  lemma NoTrailingSpace(t: string)
    requires t == "" || t[|t| - 1] != ' '
    ensures !EndsWith(t, " ")
  {
    if t != "" {
      assert t[|t| - 1..] == [t[|t| - 1]];
    }
  }

  /** The last word is there and does not end with a space. */
  predicate LastWordUnspaced(q: Terms) {
    q.words != [] ==> q.words[|q.words| - 1] != "" && q.words[|q.words| - 1][|q.words[|q.words| - 1]| - 1] != ' '
  }

  /** No tags: the words joined by spaces. */
  lemma QueryTextWords(q: Terms)
    requires LastWordUnspaced(q) && q.tags == []
    ensures QueryTextOf(q) == Join(TokenTexts(Tokens(q)), " ")
  {
    assert TagsPrefix(q.tags) == "";
    assert Tokens(q) == WordTokens(q.words);
    assert TokenTexts(WordTokens(q.words)) == q.words;
    if q.words != [] {
      JoinLast(q.words, " ");
    }
    NoTrailingSpace(Join(q.words, " "));
    assert TagsPrefix(q.tags) + (if |q.words| > 0 then Join(q.words, " ") else "") == Join(q.words, " ");
  }

  /** No words: the tags prefix without its last space. */
  lemma QueryTextTags(q: Terms)
    requires q.tags != [] && q.words == []
    ensures QueryTextOf(q) == Join(TokenTexts(Tokens(q)), " ")
  {
    TagsPrefixJoin(q.tags);
    assert Tokens(q) == TagTokens(q.tags);
    var t := TagsPrefix(q.tags);
    assert t[|t| - 1..] == " ";
    assert TagsPrefix(q.tags) + (if |q.words| > 0 then Join(q.words, " ") else "") == t;
  }

  /** Tags and words: the tags prefix ends in the space that separates it from the words. */
  lemma QueryTextBoth(q: Terms)
    requires LastWordUnspaced(q) && q.tags != [] && q.words != []
    ensures QueryTextOf(q) == Join(TokenTexts(Tokens(q)), " ")
  {
    var tt := TokenTexts(TagTokens(q.tags));
    TextsOfTokens(q);
    TagsPrefixJoin(q.tags);
    JoinAppend(tt, q.words, " ");
    JoinLast(q.words, " ");
    SpacedText(TagsPrefix(q.tags), Join(tt, " "), Join(q.words, " "));
  }

  /** The texts of the tokens: the tag tokens' texts, then the words. */
  lemma TextsOfTokens(q: Terms)
    ensures TokenTexts(Tokens(q)) == TokenTexts(TagTokens(q.tags)) + q.words
  {
    var tk, wk := TagTokens(q.tags), WordTokens(q.words);
    assert TokenTexts(wk) == q.words;
    assert TokenTexts(tk + wk) == TokenTexts(tk) + TokenTexts(wk);
  }

  /** A prefix ending in a space, then a text that does not end in one. */
  lemma SpacedText(pre: string, a: string, w: string)
    requires pre == a + " " && w != "" && w[|w| - 1] != ' '
    ensures pre + w == a + " " + w && !EndsWith(pre + w, " ")
  {
    var t := pre + w;
    assert t[|t| - 1] == w[|w| - 1];
    NoTrailingSpace(t);
  }

  /** Unless the last word ends in a space, `query2String` joins the tokens with single spaces. */
  lemma QueryTextTokens(q: Terms)
    requires LastWordUnspaced(q)
    ensures QueryTextOf(q) == Join(TokenTexts(Tokens(q)), " ")
  {
    if q.tags == [] {
      QueryTextWords(q);
    } else if q.words == [] {
      QueryTextTags(q);
    } else {
      QueryTextBoth(q);
    }
  }

  /** A query whose terms `query2String` writes so that they read back unchanged. */
  predicate PlainTerms(q: Terms) {
    && (forall i :: 0 <= i < |q.tags| ==> PlainTag(q.tags[i]))
    && (forall i :: 0 <= i < |q.words| ==> PlainWord(q.words[i]))
  }

  /** A non-empty lower-case tag without `]`. */
  predicate PlainTag(t: string) {
    t != "" && IsLowerCase(t) && forall j :: 0 <= j < |t| ==> t[j] != ']'
  }

  /** A non-empty lower-case word without white space that does not open a phrase or a tag. */
  predicate PlainWord(w: string) {
    w != "" && IsLowerCase(w) && w[0] != '"' && w[0] != '[' && forall j :: 0 <= j < |w| ==> !IsJsSpace(w[j])
  }

  lemma PlainTermsTokens(q: Terms)
    requires PlainTerms(q)
    ensures PlainTokens(Tokens(q))
    ensures LastWordUnspaced(q)
  {
    var ks := Tokens(q);
    forall i | 0 <= i < |ks| ensures PlainToken(ks[i]) {
      if i >= |q.tags| {
        var w := q.words[i - |q.tags|];
        assert ks[i] == WordToken(w);
        assert PlainWord(w);
        forall j | 0 <= j < |w| ensures !IsBlank(w[j]) {
          assert !IsJsSpace(w[j]);
        }
      } else {
        assert ks[i] == TagToken(q.tags[i]);
        assert PlainTag(q.tags[i]);
      }
    }
    if q.words != [] {
      var w := q.words[|q.words| - 1];
      assert PlainWord(w);
      assert !IsJsSpace(w[|w| - 1]);
    }
  }

  /** The text of a plain query neither starts nor ends with white space. */
  lemma PlainTextEnds(q: Terms)
    requires PlainTerms(q) && q != NoTerms
    ensures Join(TokenTexts(Tokens(q)), " ") != ""
    ensures !IsJsSpace(Join(TokenTexts(Tokens(q)), " ")[0])
    ensures !IsJsSpace(Join(TokenTexts(Tokens(q)), " ")[|Join(TokenTexts(Tokens(q)), " ")| - 1])
  {
    var texts := TokenTexts(Tokens(q));
    if q.tags == [] {
      assert texts[0] == q.words[0] && PlainWord(q.words[0]);
    } else {
      assert texts[0] == "[" + q.tags[0] + "]";
    }
    if q.words != [] {
      var w := q.words[|q.words| - 1];
      assert texts[|texts| - 1] == w && PlainWord(w);
      assert !IsJsSpace(w[|w| - 1]);
    } else {
      var t := q.tags[|q.tags| - 1];
      assert texts[|texts| - 1] == "[" + t + "]";
    }
    JoinFirst(texts, " ");
    JoinLast(texts, " ");
  }

  /** Lower-casing lower-case terms changes nothing. */
  lemma LowerAllLowerCase(xs: seq<string>)
    requires forall i :: 0 <= i < |xs| ==> IsLowerCase(xs[i])
    ensures LowerAll(xs) == xs
  {
    forall i | 0 <= i < |xs| ensures LowerAll(xs)[i] == xs[i] {
      LowerOfLowerCase(xs[i]);
    }
  }

  /** `parseQuery(query2String(q))` gives back `q` for a plain query. */
  lemma ParseQueryString(q: Terms)
    requires PlainTerms(q)
    ensures ParseQueryOf(Str(QueryTextOf(q))) == FilterQuery(q, q == NoTerms)
  {
    PlainTermsTokens(q);
    QueryTextTokens(q);
    PqOfTokens(Tokens(q));
    TermsOfTokens(q);
    if q == NoTerms {
      assert Tokens(q) == [];
    } else {
      PlainTextEnds(q);
      PlainTermsLower(q);
      ParseQueryOfTrimmed(QueryTextOf(q), q);
    }
  }

  lemma PlainTermsLower(q: Terms)
    requires PlainTerms(q)
    ensures forall i :: 0 <= i < |q.words| ==> IsLowerCase(q.words[i])
    ensures forall i :: 0 <= i < |q.tags| ==> IsLowerCase(q.tags[i])
  {
    forall i | 0 <= i < |q.words| ensures IsLowerCase(q.words[i]) {
      assert PlainWord(q.words[i]);
    }
    forall i | 0 <= i < |q.tags| ensures IsLowerCase(q.tags[i]) {
      assert PlainTag(q.tags[i]);
    }
  }

  /** When the last word does not end in a space, `query2String` never ends with one. */
  lemma QueryTextNoTrailingBlank(q: Terms)
    requires LastWordUnspaced(q)
    ensures !EndsWith(QueryTextOf(q), " ")
  {
    QueryTextTokens(q);
    var texts := TokenTexts(Tokens(q));
    if texts != [] {
      if q.words != [] {
        assert texts[|texts| - 1] == q.words[|q.words| - 1];
      } else {
        assert texts[|texts| - 1] == "[" + q.tags[|q.tags| - 1] + "]";
      }
      JoinLast(texts, " ");
    }
  }
}
