/** The lexer: `src/SQL/Lexer.cpp` and `src/SQL/Lexer.hpp`. */
module Lexer {
  import opened IntText
  import opened Tokens
  import opened Wrappers

  // ---------- Characters ----------

  predicate IsSpace(c: char) {
    c == '\t' || c == '\n' || c == 11 as char || c == '\r' || c == ' '
  }

  predicate IsIdentChar(c: char) {
    'a' <= c <= 'z' || 'A' <= c <= 'Z' || IsDigit(c) || c == '_'
  }

  function Upper(c: char): char {
    if 'a' <= c <= 'z' then c - 'a' + 'A' else c
  }

  function UpperText(s: string): (u: string)
    ensures |u| == |s|
  {
    seq(|s|, i requires 0 <= i < |s| => Upper(s[i]))
  }

  function Spelling(k: Keyword): string {
    match k
    case SELECT => "SELECT"
    case FROM => "FROM"
    case WHERE => "WHERE"
    case USE => "USE"
    case INSERT => "INSERT"
    case INTO => "INTO"
    case VALUES => "VALUES"
    case UPDATE => "UPDATE"
    case SET => "SET"
    case DELETE => "DELETE"
    case DROP => "DROP"
    case TABLE => "TABLE"
    case DATABASE => "DATABASE"
    case CREATE => "CREATE"
    case USER => "USER"
    case TRUE => "TRUE"
    case FALSE => "FALSE"
    case NULL => "NULL"
    case ALTER => "ALTER"
  }

  const KEYWORDS: seq<Keyword> :=
    [SELECT, FROM, WHERE, USE, INSERT, INTO, VALUES, UPDATE, SET, DELETE, DROP, TABLE, DATABASE, CREATE, USER, TRUE,
     FALSE, NULL, ALTER]

  function Lookup(text: string, ks: seq<Keyword>): (k: Option<Keyword>)
    ensures k.Some? ==> Spelling(k.value) == text
    ensures k.None? ==> forall i :: 0 <= i < |ks| ==> Spelling(ks[i]) != text
  {
    if ks == [] then None else if Spelling(ks[0]) == text then Some(ks[0]) else Lookup(text, ks[1..])
  }

  lemma EveryKeyword(k: Keyword)
    ensures k in KEYWORDS
  {
    var ks := KEYWORDS;
    assert ks[0] == SELECT && ks[1] == FROM && ks[2] == WHERE && ks[3] == USE && ks[4] == INSERT && ks[5] == INTO;
    assert ks[6] == VALUES && ks[7] == UPDATE && ks[8] == SET && ks[9] == DELETE && ks[10] == DROP && ks[11] == TABLE;
    assert ks[12] == DATABASE && ks[13] == CREATE && ks[14] == USER && ks[15] == TRUE && ks[16] == FALSE;
    assert ks[17] == NULL && ks[18] == ALTER;
  }

  /** The kind of a word: the keyword table is asked with the letters in upper case. */
  function WordKind(text: string): TokenType {
    match Lookup(UpperText(text), KEYWORDS)
    case Some(k) => Word(k)
    case None => Identifier
  }

  lemma WordKindIff(text: string)
    ensures WordKind(text) == Identifier <==> forall k :: UpperText(text) != Spelling(k)
    ensures forall k :: WordKind(text) == Word(k) <==> UpperText(text) == Spelling(k)
  {
    hide Spelling;
    forall k
      ensures WordKind(text) == Word(k) <==> UpperText(text) == Spelling(k)
    {
      EveryKeyword(k);
      if WordKind(text).Word? {
        SpellingsDiffer(k, WordKind(text).keyword);
      }
    }
  }

  lemma SpellingsDiffer(a: Keyword, b: Keyword)
    ensures Spelling(a) == Spelling(b) ==> a == b
  {
  }

  /** Tokens of one character. */
  function SignKind(c: char): Option<TokenType> {
    if c == ',' then Some(Comma)
    else if c == '.' then Some(Dot)
    else if c == '*' then Some(Asterisk)
    else if c == ';' then Some(Semicolon)
    else if c == '(' then Some(LParen)
    else if c == ')' then Some(RParen)
    else if c == '=' then Some(Equals)
    else if c == '<' then Some(Less)
    else if c == '>' then Some(Greater)
    else None
  }

  // ---------- One token ----------

  /** The classes of characters that the lexer skips over. */
  datatype Class = Space | Digits | IdentChars | Not(c: char)

  predicate In(class_: Class, c: char) {
    match class_
    case Space => IsSpace(c)
    case Digits => IsDigit(c)
    case IdentChars => IsIdentChar(c)
    case Not(d) => c != d
  }

  /** `skip_while`: the first position from p on that is not in the class. */
  function Skip(src: string, p: nat, class_: Class): (q: nat)
    requires p <= |src|
    ensures p <= q <= |src|
    ensures forall i :: p <= i < q ==> In(class_, src[i])
    ensures q < |src| ==> !In(class_, src[q])
    decreases |src| - p
  {
    if p < |src| && In(class_, src[p]) then Skip(src, p + 1, class_) else p
  }

  /** A token as a part of the source, and the position behind it. */
  datatype Lexeme = Lexeme(kind: TokenType, start: nat, end: nat, next: nat)

  /** The token that begins at p, which is neither white space nor the start of a comment. */
  function LexemeAt(src: string, p: nat): Lexeme
    requires p < |src|
  {
    var c := src[p];
    if c == '-' then Lexeme(Illegal, p, p + 1, p + 1)
    else if SignKind(c).Some? then Lexeme(SignKind(c).value, p, p + 1, p + 1)
    else if c == '\'' || c == '"' then
      var q := Skip(src, p + 1, Not(c));
      if q >= |src| then Lexeme(UnterminatedString, p + 1, q, q) else Lexeme(StringText, p + 1, q, q + 1)
    else if IsDigit(c) then
      var q := Skip(src, p, Digits);
      Lexeme(IntegerText, p, q, q)
    else if !IsIdentChar(c) then Lexeme(Illegal, p + 1, p + 2, p + 1) // the position moves before the view is taken
    else
      var q := Skip(src, p, IdentChars);
      Lexeme(WordKind(src[p..q]), p, q, q)
  }

  predicate CommentAt(src: string, p: nat) {
    p + 1 < |src| && src[p] == '-' && src[p + 1] == '-'
  }

  /** `Lexer::next` */
  function NextLexeme(src: string, pos: nat): Option<Lexeme>
    requires pos <= |src|
    decreases |src| - pos
  {
    var p := Skip(src, pos, Space);
    if p >= |src| then None
    else if CommentAt(src, p) then NextLexeme(src, Skip(src, p + 1, Not('\n')))
    else Some(LexemeAt(src, p))
  }

  lemma LexemeAtPlace(src: string, p: nat)
    requires p < |src|
    ensures var l := LexemeAt(src, p);
            && p < l.next <= |src|
            && (l.kind != Illegal || src[l.next - 1] == '-' ==> p <= l.start <= l.end <= l.next)
            && (l.kind == Illegal && src[l.next - 1] != '-' ==> l.start == l.next && l.end == l.next + 1)
  {
    hide WordKind;
    if IsIdentChar(src[p]) && !IsDigit(src[p]) {
      WordIsLegal(src[p..Skip(src, p, IdentChars)]);
    }
  }

  lemma WordIsLegal(text: string)
    ensures WordKind(text) != Illegal
  {
  }

  /**
   Every token moves the position forward. Its text lies between the old and the new position, except for an illegal
   character other than `-`: then it is the character behind, which belongs to the next token, or to nothing at the end.
   */
  lemma {:induction false} LexemePlace(src: string, pos: nat)
    requires pos <= |src| && NextLexeme(src, pos).Some?
    ensures var l := NextLexeme(src, pos).value;
            && pos < l.next <= |src|
            && (l.kind != Illegal || src[l.next - 1] == '-' ==> pos <= l.start <= l.end <= l.next)
            && (l.kind == Illegal && src[l.next - 1] != '-' ==> l.start == l.next && l.end == l.next + 1)
    decreases |src| - pos
  {
    hide LexemeAt;
    var p := Skip(src, pos, Space);
    if CommentAt(src, p) {
      LexemePlace(src, Skip(src, p + 1, Not('\n')));
    } else {
      LexemeAtPlace(src, p);
    }
  }

  /** The text of a token lies in the source exactly when it is not an illegal last character. */
  lemma LexemeInSourceIff(src: string, pos: nat)
    requires pos <= |src| && NextLexeme(src, pos).Some?
    ensures var l := NextLexeme(src, pos).value;
            l.end <= |src| <==> !(l.kind == Illegal && l.next == |src| && src[l.next - 1] != '-')
  {
    hide NextLexeme;
    LexemePlace(src, pos);
  }

  // ---------- All tokens ----------

  function TextOf(src: string, l: Lexeme): string {
    if l.start <= l.end <= |src| then src[l.start..l.end] else ""
  }

  /** The loop of the parser's constructor. */
  function Lex(src: string, pos: nat): seq<Token>
    requires pos <= |src|
    decreases |src| - pos
  {
    match NextLexeme(src, pos)
    case None => []
    case Some(l) => LexemePlace(src, pos); [Token(l.kind, TextOf(src, l))] + Lex(src, l.next)
  }

  /** The lexemes of the loop, one after the other. */
  function Lexemes(src: string, pos: nat): seq<Lexeme>
    requires pos <= |src|
    decreases |src| - pos
  {
    match NextLexeme(src, pos)
    case None => []
    case Some(l) => LexemePlace(src, pos); [l] + Lexemes(src, l.next)
  }

  lemma {:induction false} LexIsLexemes(src: string, pos: nat, k: nat)
    requires pos <= |src| && k < |Lexemes(src, pos)|
    ensures |Lex(src, pos)| == |Lexemes(src, pos)|
    ensures var l := Lexemes(src, pos)[k]; Lex(src, pos)[k] == Token(l.kind, TextOf(src, l))
    decreases |src| - pos
  {
    hide NextLexeme, TextOf;
    var l := NextLexeme(src, pos).value;
    LexemePlace(src, pos);
    if Lexemes(src, l.next) != [] {
      LexIsLexemes(src, l.next, if k == 0 then 0 else k - 1);
    } else {
      assert Lex(src, l.next) == [];
    }
  }

  /** The token is an illegal character, whose text is the character behind it. */
  predicate Misplaced(src: string, l: Lexeme)
    requires 0 < l.next <= |src|
  {
    l.kind == Illegal && src[l.next - 1] != '-'
  }

  lemma {:induction false} LexemesPlaced(src: string, pos: nat, k: nat)
    requires pos <= |src| && k < |Lexemes(src, pos)|
    ensures var l := Lexemes(src, pos)[k];
            && pos < l.next <= |src|
            && if Misplaced(src, l) then l.start == l.next && l.end == l.next + 1 else pos <= l.start <= l.end <= l.next
    decreases |src| - pos
  {
    hide NextLexeme;
    LexemePlace(src, pos);
    if k > 0 {
      LexemesPlaced(src, NextLexeme(src, pos).value.next, k - 1);
    }
  }

  /**
   The texts of all tokens of a source: in its bounds, but for an illegal character at the very end, and one behind the
   other, but for the token behind an illegal character, which may begin with the same character.
   */
  lemma {:induction false} LexemesInOrder(src: string, pos: nat, i: nat, j: nat)
    requires pos <= |src| && i < j < |Lexemes(src, pos)|
    ensures var a, b := Lexemes(src, pos)[i], Lexemes(src, pos)[j];
            && 0 < a.next < b.next <= |src| && a.end <= |src|
            && (b.end <= |src| <==> !(Misplaced(src, b) && b.next == |src|))
            && (a.end <= b.start <==> !(Misplaced(src, a) && b.start == a.start))
            && (a.end > b.start ==> j == i + 1 && !Misplaced(src, b))
    decreases |src| - pos
  {
    hide NextLexeme;
    LexemePlace(src, pos);
    var next := NextLexeme(src, pos).value.next;
    if i > 0 {
      LexemesInOrder(src, next, i - 1, j - 1);
    } else {
      LexemesPlaced(src, next, j - 1);
      if j > 1 {
        LexemePlace(src, next);
        LexemesPlaced(src, NextLexeme(src, next).value.next, j - 2);
      }
    }
  }

  lemma SkipTo(src: string, p: nat, q: nat, class_: Class)
    requires p <= q <= |src| && (forall i :: p <= i < q ==> In(class_, src[i])) && (q < |src| ==> !In(class_, src[q]))
    ensures Skip(src, p, class_) == q
  {
  }

  // ---------- The lexer with its position ----------

  class Lexer {
    const source: string
    var pos: nat

    ghost predicate Valid()
      reads this
    {
      pos <= |source|
    }

    constructor (source: string)
      ensures Valid() && this.source == source && pos == 0
    {
      this.source, pos := source, 0;
    }

    method SkipWhile(class_: Class)
      requires Valid()
      modifies this
      ensures Valid() && pos == Skip(source, old(pos), class_)
    {
      while pos < |source| && In(class_, source[pos])
        invariant Valid() && Skip(source, old(pos), class_) == Skip(source, pos, class_)
        decreases |source| - pos
      {
        pos := pos + 1;
      }
    }

    method Sign(kind: TokenType) returns (l: Lexeme)
      requires Valid() && pos < |source|
      modifies this
      ensures Valid() && l == Lexeme(kind, old(pos), old(pos) + 1, pos) && pos == old(pos) + 1
    {
      l := Lexeme(kind, pos, pos + 1, pos + 1);
      pos := pos + 1;
    }

    /** `Lexer::next` */
    method Next() returns (r: Option<Lexeme>)
      requires Valid()
      modifies this
      ensures Valid() && r == NextLexeme(source, old(pos)) && (r.Some? ==> pos == r.value.next)
      decreases |source| - pos
    {
      hide WordKind;
      SkipWhile(Space);
      if pos >= |source| {
        return None;
      }
      ghost var p := pos;
      var c := source[pos];
      if c == '-' {
        pos := pos + 1;
        if pos < |source| && source[pos] == '-' {
          SkipWhile(Not('\n'));
          r := Next();
          return;
        }
        return Some(Lexeme(Illegal, pos - 1, pos, pos));
      }
      var sign := SignKind(c);
      if sign.Some? {
        var l := Sign(sign.value);
        return Some(l);
      }
      if c == '\'' || c == '"' {
        var l := QuotedString(c);
        return Some(l);
      }
      var start := pos;
      if IsDigit(c) {
        SkipWhile(Digits);
        return Some(Lexeme(IntegerText, start, pos, pos));
      }
      if !IsIdentChar(c) {
        pos := pos + 1;
        return Some(Lexeme(Illegal, pos, pos + 1, pos));
      }
      SkipWhile(IdentChars);
      r := Some(Lexeme(WordKind(source[start..pos]), start, pos, pos));
    }

    method QuotedString(quote: char) returns (l: Lexeme)
      requires Valid() && pos < |source| && source[pos] == quote && (quote == '\'' || quote == '"')
      modifies this
      ensures Valid() && l == LexemeAt(source, old(pos)) && pos == l.next
    {
      pos := pos + 1;
      var start := pos;
      SkipWhile(Not(quote));
      if pos >= |source| {
        return Lexeme(UnterminatedString, start, pos, pos);
      }
      l := Lexeme(StringText, start, pos, pos + 1);
      pos := pos + 1;
    }
  }
}
