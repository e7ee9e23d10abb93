/**
 Which sources spell which tokens: for every source, the lexer gives exactly the tokens that are written in it, with any
 white space and comments between them.
 */
module SourceText {
  import IntText
  import opened Lexer
  import opened Tokens
  import opened Wrappers

  // ---------- Characters ----------

  predicate White(c: char) {
    c as int == 9 || c as int == 10 || c as int == 11 || c as int == 13 || c as int == 32
  }

  predicate DigitChar(c: char) {
    48 <= c as int <= 57
  }

  predicate LetterChar(c: char) {
    65 <= c as int <= 90 || 97 <= c as int <= 122
  }

  predicate WordChar(c: char) {
    DigitChar(c) || LetterChar(c) || c == '_'
  }

  /** The same character, or the same letter in the other case. */
  predicate SameLetter(c: char, d: char) {
    c == d || (LetterChar(c) && LetterChar(d) && (c as int - d as int == 32 || d as int - c as int == 32))
  }

  predicate Spells(text: string, word: string) {
    |text| == |word| && forall i :: 0 <= i < |text| ==> SameLetter(text[i], word[i])
  }

  predicate SignIs(kind: TokenType, c: char) {
    match kind
    case Comma => c == ','
    case Dot => c == '.'
    case Asterisk => c == '*'
    case Semicolon => c == ';'
    case LParen => c == '('
    case RParen => c == ')'
    case Equals => c == '='
    case Less => c == '<'
    case Greater => c == '>'
    case _ => false
  }

  predicate IsQuote(c: char) {
    c == '\'' || c == '"'
  }

  /** Characters that no token and no gap starts with; `-` starts a comment only. */
  ghost predicate Unknown(c: char) {
    !White(c) && !WordChar(c) && !IsQuote(c) && c != '-' && forall kind :: !SignIs(kind, c)
  }

  // ---------- What stands between tokens ----------

  /** A comment stands from p on and ends with the newline at e. */
  predicate CommentTo(src: string, p: nat, e: nat) {
    && p + 2 <= e < |src| && src[p] == '-' && src[p + 1] == '-' && src[e] == '\n'
    && forall i :: p + 2 <= i < e ==> src[i] != '\n'
  }

  /** From p to q there are only white space and comments. */
  ghost predicate Gap(src: string, p: nat, q: nat)
    decreases q - p
  {
    p <= q <= |src| && (
      || p == q
      || (White(src[p]) && Gap(src, p + 1, q))
      || exists e: nat :: p < e < q && CommentTo(src, p, e) && Gap(src, e + 1, q))
  }

  /** A comment without a newline behind it. */
  predicate OpenComment(src: string, p: nat) {
    p + 2 <= |src| && src[p] == '-' && src[p + 1] == '-' && forall i :: p + 2 <= i < |src| ==> src[i] != '\n'
  }

  /** From p to the end there are only white space and comments. */
  ghost predicate LastGap(src: string, p: nat) {
    exists q: nat :: Gap(src, p, q) && (q == |src| || OpenComment(src, q))
  }

  // ---------- Tokens ----------

  /** The characters of a word stand from p up to e and no further, and the first is not a digit. */
  predicate WordRun(src: string, p: nat, e: nat) {
    && p < e <= |src| && !DigitChar(src[p])
    && (forall i :: p <= i < e ==> WordChar(src[i])) && (e < |src| ==> !WordChar(src[e]))
  }

  /** Digits stand from p up to e and no further. */
  predicate DigitRun(src: string, p: nat, e: nat) {
    p < e <= |src| && (forall i :: p <= i < e ==> DigitChar(src[i])) && (e < |src| ==> !DigitChar(src[e]))
  }

  /** Between the quote at p and e there is no other such quote. */
  predicate QuotedTo(src: string, p: nat, e: nat) {
    p < e <= |src| && IsQuote(src[p]) && forall i :: p < i < e ==> src[i] != src[p]
  }

  /**
   The token t is written from p up to e. A word or a number goes on as long as it can. The text of an illegal character
   other than `-` is the character behind it.
   */
  ghost predicate TokenAt(src: string, p: nat, e: nat, t: Token) {
    p < e <= |src| &&
    match t.kind
    case Word(k) => WordRun(src, p, e) && t.text == src[p..e] && Spells(t.text, Spelling(k))
    case Identifier => WordRun(src, p, e) && t.text == src[p..e] && forall k :: !Spells(t.text, Spelling(k))
    case IntegerText => DigitRun(src, p, e) && t.text == src[p..e]
    case StringText => p + 1 < e && QuotedTo(src, p, e - 1) && src[e - 1] == src[p] && t.text == src[p + 1..e - 1]
    case UnterminatedString => e == |src| && QuotedTo(src, p, e) && t.text == src[p + 1..e]
    case Illegal =>
      && e == p + 1
      && if src[p] == '-' then !(e < |src| && src[e] == '-') && t.text == "-"
         else Unknown(src[p]) && t.text == (if e < |src| then [src[e]] else "")
    case kind => e == p + 1 && SignIs(kind, src[p]) && t.text == [src[p]]
  }

  /** From p on, the source is a writing of these tokens. */
  ghost predicate Writing(src: string, p: nat, ts: seq<Token>)
    decreases |ts|
  {
    if ts == [] then LastGap(src, p)
    else exists q: nat, e: nat :: Gap(src, p, q) && TokenAt(src, q, e, ts[0]) && Writing(src, e, ts[1..])
  }

  // ---------- Gaps are skipped ----------

  lemma WhiteIs(c: char)
    ensures White(c) <==> IsSpace(c)
    ensures WordChar(c) <==> IsIdentChar(c)
    ensures DigitChar(c) <==> IntText.IsDigit(c)
  {
  }

  lemma WhiteSkipped(src: string, p: nat)
    requires p < |src| && White(src[p])
    ensures NextLexeme(src, p) == NextLexeme(src, p + 1)
  {
    WhiteIs(src[p]);
    assert Skip(src, p, Space) == Skip(src, p + 1, Space);
  }

  lemma CommentSkipped(src: string, p: nat, e: nat)
    requires CommentTo(src, p, e)
    ensures NextLexeme(src, p) == NextLexeme(src, e + 1)
  {
    assert Skip(src, p, Space) == p && CommentAt(src, p);
    SkipTo(src, p + 1, e, Not('\n'));
    WhiteSkipped(src, e);
  }

  lemma {:induction false} GapSkipped(src: string, p: nat, q: nat)
    requires Gap(src, p, q)
    ensures NextLexeme(src, p) == NextLexeme(src, q)
    decreases q - p
  {
    hide NextLexeme, White, CommentTo;
    if p < q {
      if White(src[p]) && Gap(src, p + 1, q) {
        WhiteSkipped(src, p);
        GapSkipped(src, p + 1, q);
      } else {
        var e: nat :| p < e < q && CommentTo(src, p, e) && Gap(src, e + 1, q);
        CommentSkipped(src, p, e);
        GapSkipped(src, e + 1, q);
      }
    }
  }

  lemma EndSkipped(src: string, q: nat)
    requires q == |src| || OpenComment(src, q)
    ensures NextLexeme(src, q) == None
  {
    if OpenComment(src, q) {
      assert Skip(src, q, Space) == q && CommentAt(src, q);
      SkipTo(src, q + 1, |src|, Not('\n'));
    }
  }

  lemma LastGapSkipped(src: string, p: nat)
    requires LastGap(src, p)
    ensures p <= |src| && NextLexeme(src, p) == None
  {
    var q: nat :| Gap(src, p, q) && (q == |src| || OpenComment(src, q));
    GapSkipped(src, p, q);
    EndSkipped(src, q);
  }

  lemma LexemeHere(src: string, q: nat)
    requires q < |src| && !White(src[q]) && !CommentAt(src, q)
    ensures NextLexeme(src, q) == Some(LexemeAt(src, q))
  {
    hide LexemeAt;
    WhiteIs(src[q]);
    assert Skip(src, q, Space) == q;
  }

  /** What the lexer leaves out in front of a token, or at the end, is white space and comments. */
  lemma {:induction false} GapFound(src: string, p: nat) returns (q: nat)
    requires p <= |src|
    ensures Gap(src, p, q)
    ensures NextLexeme(src, p) == None ==> q == |src| || OpenComment(src, q)
    ensures NextLexeme(src, p).Some? ==>
              q < |src| && !White(src[q]) && !CommentAt(src, q) && NextLexeme(src, p) == Some(LexemeAt(src, q))
    decreases |src| - p
  {
    hide LexemeAt, NextLexeme;
    q := p;
    if p == |src| {
      EndSkipped(src, p);
    } else {
      WhiteIs(src[p]);
      if White(src[p]) {
        q := GapFound(src, p + 1);
        WhiteSkipped(src, p);
      } else if CommentAt(src, p) {
        var e := Skip(src, p + 1, Not('\n'));
        if e < |src| {
          assert CommentTo(src, p, e);
          q := GapFound(src, e + 1);
          CommentSkipped(src, p, e);
        } else {
          EndSkipped(src, p);
        }
      } else {
        LexemeHere(src, p);
      }
    }
  }

  // ---------- Tokens are found ----------

  lemma {:induction false} KeywordIsUpper(k: Keyword, i: nat)
    requires i < |Spelling(k)|
    ensures 65 <= Spelling(k)[i] as int <= 90
  {
  }

  lemma SpellsIff(text: string, k: Keyword)
    ensures Spells(text, Spelling(k)) <==> UpperText(text) == Spelling(k)
  {
    hide Spelling;
    var word, upper := Spelling(k), UpperText(text);
    if |text| == |word| {
      forall i | 0 <= i < |text|
        ensures SameLetter(text[i], word[i]) <==> upper[i] == word[i]
      {
        KeywordIsUpper(k, i);
      }
      if UpperText(text) == word {
        assert forall i :: 0 <= i < |text| ==> upper[i] == word[i];
      }
    }
  }

  lemma WordKindIs(text: string, kind: TokenType)
    requires kind == Identifier || kind.Word?
    ensures WordKind(text) == kind <==>
            if kind == Identifier then forall k :: !Spells(text, Spelling(k)) else Spells(text, Spelling(kind.keyword))
  {
    hide Spells, Spelling, WordKind;
    WordKindIff(text);
    forall k
      ensures Spells(text, Spelling(k)) <==> UpperText(text) == Spelling(k)
    {
      SpellsIff(text, k);
    }
  }

  lemma WordsOrNames(text: string)
    ensures WordKind(text) == Identifier || WordKind(text).Word?
  {
  }

  /** The lexer finds the token t at p, and goes on at e. */
  predicate Found(src: string, p: nat, e: nat, t: Token)
    requires p < |src|
  {
    var l := LexemeAt(src, p);
    l.next == e && t == Token(l.kind, TextOf(src, l))
  }

  lemma WordFound(src: string, p: nat, e: nat, t: Token)
    requires p < |src| && WordChar(src[p]) && !DigitChar(src[p])
    ensures Found(src, p, e, t) <==> TokenAt(src, p, e, t)
  {
    hide Spells, Spelling, WordKind;
    WhiteIs(src[p]);
    WordsOrNames(src[p..Skip(src, p, IdentChars)]);
    var q := Skip(src, p, IdentChars);
    forall i | p <= i < |src|
      ensures WordChar(src[i]) <==> IsIdentChar(src[i])
    {
      WhiteIs(src[i]);
    }
    WordKindIs(src[p..q], WordKind(src[p..q]));
    if TokenAt(src, p, e, t) {
      SkipTo(src, p, e, IdentChars);
      WordKindIs(src[p..q], t.kind);
    }
  }

  lemma NumberFound(src: string, p: nat, e: nat, t: Token)
    requires p < |src| && DigitChar(src[p])
    ensures Found(src, p, e, t) <==> TokenAt(src, p, e, t)
  {
    hide Spells, Spelling, WordKind;
    WhiteIs(src[p]);
    var q := Skip(src, p, Digits);
    if TokenAt(src, p, e, t) {
      SkipTo(src, p, e, Digits);
    }
  }

  lemma QuotedFound(src: string, p: nat, e: nat, t: Token)
    requires p < |src| && IsQuote(src[p])
    ensures Found(src, p, e, t) <==> TokenAt(src, p, e, t)
  {
    hide Spells, Spelling, WordKind;
    var c := src[p];
    var q := Skip(src, p + 1, Not(c));
    if TokenAt(src, p, e, t) {
      SkipTo(src, p + 1, if t.kind == StringText then e - 1 else e, Not(c));
    }
  }

  lemma CharFound(src: string, p: nat, e: nat, t: Token)
    requires p < |src| && !White(src[p]) && !CommentAt(src, p) && !IsQuote(src[p]) && !WordChar(src[p])
    ensures Found(src, p, e, t) <==> TokenAt(src, p, e, t)
  {
    hide Spells, Spelling, WordKind;
    WhiteIs(src[p]);
    var c := src[p];
    forall kind
      ensures SignIs(kind, c) <==> SignKind(c) == Some(kind)
    {
    }
  }

  lemma FoundIff(src: string, p: nat, e: nat, t: Token)
    requires p < |src| && !White(src[p]) && !CommentAt(src, p)
    ensures Found(src, p, e, t) <==> TokenAt(src, p, e, t)
  {
    hide TokenAt, Found;
    if IsQuote(src[p]) {
      QuotedFound(src, p, e, t);
    } else if DigitChar(src[p]) {
      NumberFound(src, p, e, t);
    } else if WordChar(src[p]) {
      WordFound(src, p, e, t);
    } else {
      CharFound(src, p, e, t);
    }
  }

  lemma TokenStarts(src: string, p: nat, e: nat, t: Token)
    requires TokenAt(src, p, e, t)
    ensures p < e <= |src| && !White(src[p]) && !CommentAt(src, p)
  {
    hide Spells, Spelling;
  }

  // ---------- Whole sources ----------

  lemma LexNext(src: string, p: nat)
    requires p <= |src|
    ensures NextLexeme(src, p) == None ==> Lex(src, p) == []
    ensures NextLexeme(src, p).Some? ==>
              var l := NextLexeme(src, p).value;
              l.next <= |src| && Lex(src, p) == [Token(l.kind, TextOf(src, l))] + Lex(src, l.next)
  {
    hide NextLexeme, TextOf;
    if NextLexeme(src, p).Some? {
      LexemePlace(src, p);
    }
  }

  lemma {:induction false} WritingLexes(src: string, p: nat, ts: seq<Token>)
    requires p <= |src| && Writing(src, p, ts)
    ensures Lex(src, p) == ts
    decreases |ts|
  {
    hide NextLexeme, Lex, LastGap, Gap, TokenAt, LexemeAt, TextOf, White, CommentAt;
    LexNext(src, p);
    if ts == [] {
      LastGapSkipped(src, p);
    } else {
      var q: nat, e: nat :| Gap(src, p, q) && TokenAt(src, q, e, ts[0]) && Writing(src, e, ts[1..]);
      GapSkipped(src, p, q);
      TokenStarts(src, q, e, ts[0]);
      FoundIff(src, q, e, ts[0]);
      LexemeHere(src, q);
      WritingLexes(src, e, ts[1..]);
      assert ts == [ts[0]] + ts[1..];
    }
  }

  lemma {:induction false} LexedIsWriting(src: string, p: nat)
    requires p <= |src|
    ensures Writing(src, p, Lex(src, p))
    decreases |src| - p
  {
    hide NextLexeme, Lex, Gap, TokenAt, LexemeAt, TextOf, White, CommentAt;
    LexNext(src, p);
    var q := GapFound(src, p);
    if NextLexeme(src, p).Some? {
      var l := LexemeAt(src, q);
      var t := Token(l.kind, TextOf(src, l));
      LexemePlace(src, p);
      FoundIff(src, q, l.next, t);
      LexedIsWriting(src, l.next);
      assert Lex(src, p)[1..] == Lex(src, l.next);
      assert Gap(src, p, q) && TokenAt(src, q, l.next, t) && Writing(src, l.next, Lex(src, p)[1..]);
    }
  }

  /** The tokens of any source are those that it is a writing of, and no others. */
  lemma LexIff(src: string, ts: seq<Token>)
    ensures Lex(src, 0) == ts <==> Writing(src, 0, ts)
  {
    hide Lex, Writing;
    LexedIsWriting(src, 0);
    if Writing(src, 0, ts) {
      WritingLexes(src, 0, ts);
    }
  }

  // ---------- Writing tokens down ----------

  /** Tokens that can be written down wherever they stand. */
  ghost predicate Legal(t: Token) {
    match t.kind
    case Word(k) => IsWord(t.text) && Spells(t.text, Spelling(k))
    case Identifier => LegalName(t.text)
    case IntegerText => t.text != "" && forall i :: 0 <= i < |t.text| ==> DigitChar(t.text[i])
    case StringText => LegalString(t.text)
    case UnterminatedString => false
    case Illegal => false
    case kind => |t.text| == 1 && SignIs(kind, t.text[0])
  }

  ghost predicate AllLegal(ts: seq<Token>) {
    forall i :: 0 <= i < |ts| ==> Legal(ts[i])
  }

  predicate IsWord(s: string) {
    s != "" && !DigitChar(s[0]) && forall i :: 0 <= i < |s| ==> WordChar(s[i])
  }

  /** A word that spells no keyword. */
  ghost predicate LegalName(s: string) {
    IsWord(s) && forall k :: !Spells(s, Spelling(k))
  }

  predicate LegalString(s: string) {
    '\'' !in s || '"' !in s
  }

  function Quote(s: string): char {
    if '\'' in s then '"' else '\''
  }

  function Written(t: Token): string {
    if t.kind == StringText then [Quote(t.text)] + t.text + [Quote(t.text)] else t.text
  }

  /** A word does not end before a word character, nor a number before a digit. */
  predicate GoesOn(w: string, c: char) {
    w != "" && if DigitChar(w[0]) then DigitChar(c) else WordChar(w[0]) && WordChar(c)
  }

  /** White space and comments, or nothing where the tokens around do not run into each other. */
  ghost predicate Gaps(ts: seq<Token>, gaps: seq<string>) {
    && |gaps| == |ts| + 1 && LastGap(gaps[|ts|], 0)
    && (forall i :: 0 <= i < |ts| ==> Gap(gaps[i], 0, |gaps[i]|))
    && forall i :: 0 < i < |ts| && gaps[i] == "" ==>
         Written(ts[i]) != "" && !GoesOn(Written(ts[i - 1]), Written(ts[i])[0])
  }

  /** The tokens with the gaps before each of them and at the end. */
  function Source(ts: seq<Token>, gaps: seq<string>): string
    requires |gaps| == |ts| + 1
  {
    if ts == [] then gaps[0] else gaps[0] + Written(ts[0]) + Source(ts[1..], gaps[1..])
  }

  /** The text s stands at position p of the source. */
  predicate Stands(src: string, p: nat, s: string) {
    p + |s| <= |src| && forall i :: p <= i < p + |s| ==> src[i] == s[i - p]
  }

  lemma {:induction false} GapStands(g: string, a: nat, b: nat, src: string, p: nat)
    requires Stands(src, p, g) && Gap(g, a, b)
    ensures Gap(src, p + a, p + b)
    decreases b - a
  {
    hide White;
    if a < b {
      assert src[p + a] == g[a];
      if White(g[a]) && Gap(g, a + 1, b) {
        GapStands(g, a + 1, b, src, p);
      } else {
        var e: nat :| a < e < b && CommentTo(g, a, e) && Gap(g, e + 1, b);
        GapStands(g, e + 1, b, src, p);
        assert CommentTo(src, p + a, p + e) by {
          assert src[p + a + 1] == g[a + 1] && src[p + e] == g[e];
          assert forall i :: p + a + 2 <= i < p + e ==> src[i] == g[i - p];
        }
      }
    }
  }

  lemma LastGapStands(g: string, src: string, p: nat)
    requires Stands(src, p, g) && p + |g| == |src| && LastGap(g, 0)
    ensures LastGap(src, p)
  {
    hide Gap;
    var q: nat :| Gap(g, 0, q) && (q == |g| || OpenComment(g, q));
    GapStands(g, 0, q, src, p);
    if OpenComment(g, q) {
      assert src[p + q] == g[q] && src[p + q + 1] == g[q + 1];
      assert forall i :: p + q + 2 <= i < |src| ==> src[i] == g[i - p];
      assert OpenComment(src, p + q);
    }
  }

  lemma GapStarts(g: string)
    requires g != "" && (Gap(g, 0, |g|) || LastGap(g, 0))
    ensures White(g[0]) || g[0] == '-'
  {
    if !Gap(g, 0, |g|) {
      var q: nat :| Gap(g, 0, q) && (q == |g| || OpenComment(g, q));
    }
  }

  lemma WrittenIs(t: Token, src: string, p: nat)
    requires Legal(t) && Stands(src, p, Written(t))
    requires var e := p + |Written(t)|; e < |src| ==> !GoesOn(Written(t), src[e])
    ensures Written(t) != "" && TokenAt(src, p, p + |Written(t)|, t)
  {
    hide Spells, Spelling;
    var w := Written(t);
    var e := p + |w|;
    assert src[p] == w[0] && src[p..e] == w;
    if t.kind == StringText {
      var c := Quote(t.text);
      assert src[e - 1] == w[|w| - 1] == c;
      forall i | p < i < e - 1
        ensures src[i] != c
      {
        assert src[i] == w[i - p] == t.text[i - p - 1];
        assert t.text[i - p - 1] in t.text;
      }
      assert src[p + 1..e - 1] == t.text;
    } else {
      assert forall i :: p <= i < e ==> src[i] == t.text[i - p];
    }
  }

  lemma GapsRest(ts: seq<Token>, gaps: seq<string>)
    requires ts != [] && AllLegal(ts) && Gaps(ts, gaps)
    ensures AllLegal(ts[1..]) && Gaps(ts[1..], gaps[1..])
  {
    hide Gap, LastGap, Legal, Written, GoesOn;
    var us, rest := ts[1..], gaps[1..];
    assert forall i :: 0 <= i < |us| ==> us[i] == ts[i + 1] && rest[i] == gaps[i + 1];
    assert rest[|us|] == gaps[|ts|];
  }

  /** What follows the first token does not run into it. */
  lemma NotGoingOn(ts: seq<Token>, gaps: seq<string>)
    requires ts != [] && Gaps(ts, gaps)
    ensures var rest := Source(ts[1..], gaps[1..]);
            rest != "" ==> !GoesOn(Written(ts[0]), rest[0])
  {
    hide Gap, LastGap, Legal, Written;
    var g := gaps[1];
    if g != "" {
      GapStarts(g);
      assert Source(ts[1..], gaps[1..])[0] == g[0];
    } else if |ts| > 1 {
      var w := Written(ts[1]);
      assert Source(ts[1..], gaps[1..])[0] == w[0];
    }
  }

  lemma TailStands(src: string, p: nat, g: string, w: string, rest: string)
    requires p <= |src| && src[p..] == g + w + rest
    ensures var q := p + |g|;
            Stands(src, p, g) && Stands(src, q, w) && q + |w| <= |src| && src[q + |w|..] == rest
    ensures rest != "" ==> p + |g| + |w| < |src| && src[p + |g| + |w|] == rest[0]
    ensures rest == "" ==> p + |g| + |w| == |src|
  {
    var q, tail := p + |g|, src[p..];
    assert forall i :: p <= i < q ==> src[i] == tail[i - p] == g[i - p];
    assert forall i :: q <= i < q + |w| ==> src[i] == tail[i - p] == w[i - q];
    assert src[q + |w|..] == tail[|g| + |w|..];
    if rest != "" {
      assert src[q + |w|] == tail[|g| + |w|] == rest[0];
    }
  }

  lemma {:induction false} SourceIsWriting(ts: seq<Token>, gaps: seq<string>, src: string, p: nat)
    requires AllLegal(ts) && Gaps(ts, gaps) && p <= |src| && src[p..] == Source(ts, gaps)
    ensures Writing(src, p, ts)
    decreases |ts|
  {
    hide Gap, LastGap, Legal, Written, TokenAt, Stands;
    if ts == [] {
      assert src[p..] == gaps[0] + "" + "";
      TailStands(src, p, gaps[0], "", "");
      LastGapStands(gaps[0], src, p);
    } else {
      var g, w, rest := gaps[0], Written(ts[0]), Source(ts[1..], gaps[1..]);
      TailStands(src, p, g, w, rest);
      GapStands(g, 0, |g|, src, p);
      var q, e := p + |g|, p + |g| + |w|;
      NotGoingOn(ts, gaps);
      WrittenIs(ts[0], src, q);
      GapsRest(ts, gaps);
      SourceIsWriting(ts[1..], gaps[1..], src, e);
      assert Gap(src, p, q) && TokenAt(src, q, e, ts[0]) && Writing(src, e, ts[1..]);
    }
  }

  /** Lexing undoes writing: any legal tokens, with any white space and comments between them, come back. */
  lemma LexUndo(ts: seq<Token>, gaps: seq<string>)
    requires AllLegal(ts) && Gaps(ts, gaps)
    ensures Lex(Source(ts, gaps), 0) == ts
  {
    hide Source, Lex, Writing, Gap, LastGap, Legal, Written;
    var src := Source(ts, gaps);
    assert src[0..] == src;
    SourceIsWriting(ts, gaps, src, 0);
    LexIff(src, ts);
  }
}
