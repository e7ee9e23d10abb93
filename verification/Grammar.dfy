/**
 The grammar that `src/SQL/Parser.cpp` accepts, as functions over a list of tokens, and the printer it undoes. The
 parser with its position is in module Parser.
 */
module Grammar {
  import opened Ast
  import opened IntText
  import opened Tokens
  import opened Wrappers

  /** What was parsed, and the position behind it. */
  type Parse<T> = Outcome<(T, nat)>

  predicate Sees(ts: seq<Token>, p: nat, kind: TokenType) {
    p < |ts| && ts[p].kind == kind
  }

  function Expect(ts: seq<Token>, p: nat, kind: TokenType): Parse<string> {
    if Sees(ts, p, kind) then Done((ts[p].text, p + 1)) else Failed
  }

  function Prepend<T>(x: T, r: Parse<seq<T>>): Parse<seq<T>> {
    match r
    case Done((xs, p)) => Done(([x] + xs, p))
    case Failed => Failed
    case Trapped => Trapped
  }

  // ---------- Expressions ----------

  /** `parse_expression_prim` */
  function Prim(ts: seq<Token>, p: nat): (r: Parse<Expr>)
    ensures r.Done? ==> p < r.value.1 <= |ts|
    decreases |ts| - p, 0
  {
    if p >= |ts| then Failed
    else match ts[p].kind
      case Identifier => Done((Ident(ts[p].text), p + 1))
      case IntegerText => (
        match Parsed(ts[p].text)
        case Some(i) => Done((IntegerLit(i), p + 1))
        case None => Trapped
      )
      case StringText => Done((StringLit(ts[p].text), p + 1))
      case Asterisk => Done((Star, p + 1))
      case Word(TRUE) => Done((TrueLit, p + 1))
      case Word(FALSE) => Done((FalseLit, p + 1))
      case Word(NULL) => Done((NullLit, p + 1))
      case Word(SELECT) => (
        match ExprList(ts, p + 1)
        case Failed => Failed
        case Trapped => Trapped
        case Done((exprs, q)) => (
          if !Sees(ts, q, Word(FROM)) then Failed
          else match Expression(ts, q + 1)
            case Failed => Failed
            case Trapped => Trapped
            case Done((table, s)) => if Sees(ts, s, Semicolon) then Done((Select(exprs, table), s + 1)) else Failed
        )
      )
      case _ => Failed
  }

  /** Expressions with commas between them, at least one. */
  function ExprList(ts: seq<Token>, p: nat): (r: Parse<seq<Expr>>)
    ensures r.Done? ==> p < r.value.1 <= |ts| && r.value.0 != []
    decreases |ts| - p, 2
  {
    match Expression(ts, p)
    case Failed => Failed
    case Trapped => Trapped
    case Done((e, q)) => if Sees(ts, q, Comma) then Prepend(e, ExprList(ts, q + 1)) else Done(([e], q))
  }

  function OperatorAt(ts: seq<Token>, p: nat): Option<Operator> {
    if Sees(ts, p, Equals) then Some(EQ)
    else if Sees(ts, p, Less) then Some(LT)
    else if Sees(ts, p, Greater) then Some(GT)
    else None
  }

  /** `Parser::expression` */
  function Expression(ts: seq<Token>, p: nat): (r: Parse<Expr>)
    ensures r.Done? ==> p < r.value.1 <= |ts|
    decreases |ts| - p, 1
  {
    match Prim(ts, p)
    case Failed => Failed
    case Trapped => Trapped
    case Done((lhs, q)) => (
      if OperatorAt(ts, q).Some? then
        match Expression(ts, q + 1)
        case Failed => Failed
        case Trapped => Trapped
        case Done((rhs, s)) => Done((Binary(OperatorAt(ts, q).value, lhs, rhs), s))
      else if Sees(ts, q, LParen) then
        match Arguments(ts, q + 1)
        case Failed => Failed
        case Trapped => Trapped
        case Done((args, s)) => Done((Call(lhs, args), s))
      else Done((lhs, q))
    )
  }

  /** The arguments of a call up to the closing parenthesis; commas may be left out. */
  function Arguments(ts: seq<Token>, p: nat): (r: Parse<seq<Expr>>)
    ensures r.Done? ==> p < r.value.1 <= |ts|
    decreases |ts| - p, 2
  {
    if p >= |ts| then Failed
    else if ts[p].kind == RParen then Done(([], p + 1))
    else match Expression(ts, p)
      case Failed => Failed
      case Trapped => Trapped
      case Done((e, q)) =>
        if q >= |ts| then Failed
        else Prepend(e, Arguments(ts, if ts[q].kind == Comma then q + 1 else q))
  }

  // ---------- Printing expressions ----------

  function Tok(kind: TokenType, text: string): seq<Token> {
    [Token(kind, text)]
  }

  function OperatorToken(op: Operator): (ts: seq<Token>)
    ensures |ts| == 1
  {
    match op
    case EQ => Tok(Equals, "=")
    case LT => Tok(Less, "<")
    case GT => Tok(Greater, ">")
  }

  function PrintExpr(e: Expr): (ts: seq<Token>)
    requires Printable(e)
    ensures ts != [] && StartsExpr(ts[0].kind)
    decreases e, 0
  {
    match e
    case IntegerLit(i) => Tok(IntegerText, Decimal(i))
    case StringLit(s) => Tok(StringText, s)
    case TrueLit => Tok(Word(TRUE), "TRUE")
    case FalseLit => Tok(Word(FALSE), "FALSE")
    case NullLit => Tok(Word(NULL), "NULL")
    case Ident(name) => Tok(Identifier, name)
    case Star => Tok(Asterisk, "*")
    case Call(fn, args) => PrintExpr(fn) + Tok(LParen, "(") + PrintArgs(args)
    case Binary(op, lhs, rhs) => PrintExpr(lhs) + OperatorToken(op) + PrintExpr(rhs)
    case Select(exprs, table) =>
      Tok(Word(SELECT), "SELECT") + PrintList(exprs) + Tok(Word(FROM), "FROM") + PrintExpr(table) + Tok(Semicolon, ";")
  }

  function PrintList(es: seq<Expr>): (ts: seq<Token>)
    requires es != [] && AllPrintable(es)
    ensures ts != [] && StartsExpr(ts[0].kind)
    decreases es, 1
  {
    if |es| == 1 then PrintExpr(es[0]) else PrintExpr(es[0]) + Tok(Comma, ",") + PrintList(es[1..])
  }

  function PrintArgs(es: seq<Expr>): (ts: seq<Token>)
    requires AllPrintable(es)
    ensures ts != [] && (StartsExpr(ts[0].kind) || ts[0].kind == RParen)
    decreases es, 1
  {
    if es == [] then Tok(RParen, ")")
    else if |es| == 1 then PrintExpr(es[0]) + Tok(RParen, ")")
    else PrintExpr(es[0]) + Tok(Comma, ",") + PrintArgs(es[1..])
  }

  /** Expressions that can stand left of an operator or of an argument list. */
  predicate Primary(e: Expr) {
    !e.Binary? && !e.Call?
  }

  /** Expressions that the parser can make: operators associate to the right, and integers have no sign. */
  predicate Printable(e: Expr)
    decreases e, 0
  {
    match e
    case IntegerLit(i) => i >= 0
    case Call(fn, args) => Primary(fn) && Printable(fn) && AllPrintable(args)
    case Binary(_, lhs, rhs) => Primary(lhs) && Printable(lhs) && Printable(rhs)
    case Select(exprs, table) => exprs != [] && Printable(table) && AllPrintable(exprs)
    case _ => true
  }

  predicate AllPrintable(es: seq<Expr>)
    decreases es, 1
  {
    forall i :: 0 <= i < |es| ==> Printable(es[i])
  }

  predicate StartsExpr(kind: TokenType) {
    match kind
    case Identifier => true
    case IntegerText => true
    case StringText => true
    case Asterisk => true
    case Word(w) => w == TRUE || w == FALSE || w == NULL || w == SELECT
    case _ => false
  }

  // ---------- Parsing undoes printing: expressions ----------

  /** The tokens ps stand at position p. */
  predicate At(ts: seq<Token>, p: nat, ps: seq<Token>) {
    p + |ps| <= |ts| && ts[p..p + |ps|] == ps
  }

  /** No operator and no argument list goes on at p. */
  predicate Stops(ts: seq<Token>, p: nat) {
    OperatorAt(ts, p) == None && !Sees(ts, p, LParen)
  }

  lemma AtSplit(ts: seq<Token>, p: nat, a: seq<Token>, b: seq<Token>)
    requires At(ts, p, a + b)
    ensures At(ts, p, a) && At(ts, p + |a|, b)
  {
    var all := ts[p..p + |a + b|];
    assert all[..|a|] == a && all[|a|..] == b;
    assert ts[p..p + |a|] == all[..|a|];
    assert ts[p + |a|..p + |a| + |b|] == all[|a|..];
  }

  lemma AtFirst(ts: seq<Token>, p: nat, a: seq<Token>)
    requires At(ts, p, a) && a != []
    ensures p < |ts| && ts[p] == a[0]
  {
    assert ts[p..p + |a|][0] == ts[p];
  }

  /** Two parts with one token between them. */
  lemma AtJoined(ts: seq<Token>, p: nat, a: seq<Token>, b: Token, c: seq<Token>)
    requires At(ts, p, a + [b] + c)
    ensures At(ts, p, a) && At(ts, p + |a| + 1, c) && |a + [b] + c| == |a| + 1 + |c|
    ensures p + |a| < |ts| && ts[p + |a|] == b
  {
    AtSplit(ts, p, a + [b], c);
    AtSplit(ts, p, a, [b]);
    AtFirst(ts, p + |a|, [b]);
  }

  lemma BinaryParts(e: Expr)
    requires e.Binary? && Printable(e)
    ensures Printable(e.lhs) && Primary(e.lhs) && Printable(e.rhs)
    ensures PrintExpr(e) == PrintExpr(e.lhs) + [OperatorToken(e.op)[0]] + PrintExpr(e.rhs)
  {
  }

  lemma OperatorSeen(ts: seq<Token>, q: nat, op: Operator)
    requires q < |ts| && ts[q] == OperatorToken(op)[0]
    ensures OperatorAt(ts, q) == Some(op)
  {
  }

  lemma LoneStep(ts: seq<Token>, p: nat, e: Expr, q: nat)
    requires Prim(ts, p) == Done((e, q)) && Stops(ts, q)
    ensures Expression(ts, p) == Done((e, q))
  {
    hide Prim, Arguments;
  }

  lemma BinaryStep(ts: seq<Token>, p: nat, lhs: Expr, q: nat, op: Operator, rhs: Expr, s: nat)
    requires Prim(ts, p) == Done((lhs, q)) && OperatorAt(ts, q) == Some(op) && Expression(ts, q + 1) == Done((rhs, s))
    ensures Expression(ts, p) == Done((Binary(op, lhs, rhs), s))
  {
    hide Prim, Arguments;
  }

  lemma CallStep(ts: seq<Token>, p: nat, fn: Expr, q: nat, args: seq<Expr>, s: nat)
    requires Prim(ts, p) == Done((fn, q)) && Sees(ts, q, LParen) && Arguments(ts, q + 1) == Done((args, s))
    ensures Expression(ts, p) == Done((Call(fn, args), s))
  {
    hide Prim, Arguments;
  }

  lemma SelectStep(ts: seq<Token>, p: nat, exprs: seq<Expr>, q: nat, table: Expr, s: nat)
    requires Sees(ts, p, Word(SELECT)) && ExprList(ts, p + 1) == Done((exprs, q)) && Sees(ts, q, Word(FROM))
    requires Expression(ts, q + 1) == Done((table, s)) && Sees(ts, s, Semicolon)
    ensures Prim(ts, p) == Done((Select(exprs, table), s + 1))
  {
    hide ExprList, Expression;
  }

  lemma ListStep(ts: seq<Token>, p: nat, e: Expr, q: nat, es: seq<Expr>, s: nat)
    requires Expression(ts, p) == Done((e, q)) && Sees(ts, q, Comma) && ExprList(ts, q + 1) == Done((es, s))
    ensures ExprList(ts, p) == Done(([e] + es, s))
  {
    hide Expression;
  }

  lemma ListEnd(ts: seq<Token>, p: nat, e: Expr, q: nat)
    requires Expression(ts, p) == Done((e, q)) && !Sees(ts, q, Comma)
    ensures ExprList(ts, p) == Done(([e], q))
  {
    hide Expression;
  }

  lemma ArgStep(ts: seq<Token>, p: nat, e: Expr, q: nat, es: seq<Expr>, s: nat)
    requires p < |ts| && ts[p].kind != RParen && Expression(ts, p) == Done((e, q)) && q < |ts|
    requires Arguments(ts, if Sees(ts, q, Comma) then q + 1 else q) == Done((es, s))
    ensures Arguments(ts, p) == Done(([e] + es, s))
  {
    hide Expression;
  }

  lemma ArgsEnd(ts: seq<Token>, p: nat)
    requires Sees(ts, p, RParen)
    ensures Arguments(ts, p).Done? && Arguments(ts, p).value.0 == [] && Arguments(ts, p).value.1 == p + 1
  {
    hide Expression;
  }

  lemma {:induction false} PrimUndo(e: Expr, ts: seq<Token>, p: nat)
    requires Printable(e) && Primary(e) && At(ts, p, PrintExpr(e))
    ensures Prim(ts, p) == Done((e, p + |PrintExpr(e)|))
    decreases e, 1
  {
    if e.Select? {
      SelectUndo(e, ts, p);
    } else {
      AtomUndo(e, ts, p);
    }
  }

  lemma AtomUndo(e: Expr, ts: seq<Token>, p: nat)
    requires Printable(e) && Primary(e) && !e.Select? && At(ts, p, PrintExpr(e))
    ensures Prim(ts, p) == Done((e, p + |PrintExpr(e)|))
  {
    hide Parsed, Decimal, At;
    AtFirst(ts, p, PrintExpr(e));
    if e.IntegerLit? {
      ParsedUndo(e.value);
      PrintedIs(e.value);
    }
  }

  lemma PrintedIs(i: nat)
    ensures Printed(i) == Decimal(i)
  {
  }

  lemma {:induction false} SelectUndo(e: Expr, ts: seq<Token>, p: nat)
    requires Printable(e) && e.Select? && At(ts, p, PrintExpr(e))
    ensures Prim(ts, p) == Done((e, p + |PrintExpr(e)|))
    decreases e, 0
  {
    hide At, Stops, Prim, ExprList, Expression, PrintList, PrintExpr, Printable, AllPrintable;
    SelectParts(e);
    var b, d := PrintList(e.exprs), PrintExpr(e.table);
    var q := p + 1 + |b|;
    AtJoined(ts, p, Tok(Word(SELECT), "SELECT") + b, Token(Word(FROM), "FROM"), d + Tok(Semicolon, ";"));
    AtSplit(ts, p, Tok(Word(SELECT), "SELECT"), b);
    AtFirst(ts, p, Tok(Word(SELECT), "SELECT"));
    AtSplit(ts, q + 1, d, Tok(Semicolon, ";"));
    AtFirst(ts, q + 1 + |d|, Tok(Semicolon, ";"));
    KeywordStops(ts, q);
    KeywordStops(ts, q + 1 + |d|);
    ListUndo(e.exprs, ts, p + 1);
    ExprUndo(e.table, ts, q + 1);
    SelectStep(ts, p, e.exprs, q, e.table, q + 1 + |d|);
  }

  lemma SelectParts(e: Expr)
    requires e.Select? && Printable(e)
    ensures e.exprs != [] && Printable(e.table) && AllPrintable(e.exprs)
    ensures PrintExpr(e) == (Tok(Word(SELECT), "SELECT") + PrintList(e.exprs)) + [Token(Word(FROM), "FROM")]
                            + (PrintExpr(e.table) + Tok(Semicolon, ";"))
  {
  }

  lemma KeywordStops(ts: seq<Token>, q: nat)
    requires q < |ts| && (ts[q].kind.Word? || ts[q].kind == Semicolon)
    ensures Stops(ts, q)
  {
  }

  lemma {:induction false} ExprUndo(e: Expr, ts: seq<Token>, p: nat)
    requires Printable(e) && At(ts, p, PrintExpr(e)) && Stops(ts, p + |PrintExpr(e)|)
    ensures Expression(ts, p) == Done((e, p + |PrintExpr(e)|))
    decreases e, 2
  {
    hide At, Stops, Prim, Expression, Printable, PrintExpr;
    if e.Binary? {
      BinaryUndo(e, ts, p);
    } else if e.Call? {
      CallUndo(e, ts, p);
    } else {
      PrimUndo(e, ts, p);
      LoneStep(ts, p, e, p + |PrintExpr(e)|);
    }
  }

  lemma {:induction false} BinaryUndo(e: Expr, ts: seq<Token>, p: nat)
    requires e.Binary? && Printable(e) && At(ts, p, PrintExpr(e)) && Stops(ts, p + |PrintExpr(e)|)
    ensures Expression(ts, p) == Done((e, p + |PrintExpr(e)|))
    decreases e, 1
  {
    hide At, Stops, Prim, Expression, PrintExpr, Printable, OperatorToken, OperatorAt;
    BinaryParts(e);
    var a, b, c := PrintExpr(e.lhs), OperatorToken(e.op)[0], PrintExpr(e.rhs);
    AtJoined(ts, p, a, b, c);
    OperatorSeen(ts, p + |a|, e.op);
    PrimUndo(e.lhs, ts, p);
    ExprUndo(e.rhs, ts, p + |a| + 1);
    BinaryStep(ts, p, e.lhs, p + |a|, e.op, e.rhs, p + |a| + 1 + |c|);
  }

  lemma {:induction false} CallUndo(e: Expr, ts: seq<Token>, p: nat)
    requires e.Call? && Printable(e) && At(ts, p, PrintExpr(e))
    ensures Expression(ts, p) == Done((e, p + |PrintExpr(e)|))
    decreases e, 1
  {
    hide At, Prim, Expression, Arguments, PrintArgs, PrintList;
    var a, b, c := PrintExpr(e.fn), Tok(LParen, "("), PrintArgs(e.args);
    AtSplit(ts, p, a + b, c);
    AtSplit(ts, p, a, b);
    AtFirst(ts, p + |a|, b);
    PrimUndo(e.fn, ts, p);
    ArgsUndo(e.args, ts, p + |a| + 1);
    CallStep(ts, p, e.fn, p + |a|, e.args, p + |a| + 1 + |c|);
  }

  lemma {:induction false} ListUndo(es: seq<Expr>, ts: seq<Token>, p: nat)
    requires es != [] && AllPrintable(es)
    requires At(ts, p, PrintList(es))
    requires Stops(ts, p + |PrintList(es)|) && !Sees(ts, p + |PrintList(es)|, Comma)
    ensures ExprList(ts, p) == Done((es, p + |PrintList(es)|))
    decreases es, 3
  {
    hide At, Stops, Expression, ExprList, PrintExpr, Printable;
    var a := PrintExpr(es[0]);
    if |es| == 1 {
      ExprUndo(es[0], ts, p);
      ListEnd(ts, p, es[0], p + |a|);
      assert es == [es[0]];
    } else {
      var c := PrintList(es[1..]);
      AtJoined(ts, p, a, Token(Comma, ","), c);
      CommaStops(ts, p + |a|);
      ExprUndo(es[0], ts, p);
      ListUndo(es[1..], ts, p + |a| + 1);
      ListStep(ts, p, es[0], p + |a|, es[1..], p + |a| + 1 + |c|);
      assert es == [es[0]] + es[1..];
    }
  }

  lemma CommaStops(ts: seq<Token>, q: nat)
    requires Sees(ts, q, Comma)
    ensures Stops(ts, q)
  {
  }

  lemma {:induction false} ArgsUndo(es: seq<Expr>, ts: seq<Token>, p: nat)
    requires AllPrintable(es)
    requires At(ts, p, PrintArgs(es))
    ensures Arguments(ts, p) == Done((es, p + |PrintArgs(es)|))
    decreases es, 3
  {
    hide At, Expression, Arguments, PrintExpr, Printable;
    AtFirst(ts, p, PrintArgs(es));
    if es == [] {
      ArgsEnd(ts, p);
    } else if |es| == 1 {
      LastArgUndo(es, ts, p);
    } else {
      MoreArgsUndo(es, ts, p);
    }
  }

  lemma {:induction false} LastArgUndo(es: seq<Expr>, ts: seq<Token>, p: nat)
    requires |es| == 1 && Printable(es[0]) && At(ts, p, PrintArgs(es))
    ensures Arguments(ts, p) == Done((es, p + |PrintArgs(es)|))
    decreases es, 2
  {
    hide At, Expression, Arguments, PrintExpr, Printable;
    var a, b := PrintExpr(es[0]), Tok(RParen, ")");
    AtSplit(ts, p, a, b);
    AtFirst(ts, p, a);
    AtFirst(ts, p + |a|, b);
    ExprUndo(es[0], ts, p);
    ArgsEnd(ts, p + |a|);
    ArgStep(ts, p, es[0], p + |a|, [], p + |a| + 1);
    assert es == [es[0]] + [];
  }

  lemma {:induction false} MoreArgsUndo(es: seq<Expr>, ts: seq<Token>, p: nat)
    requires |es| > 1 && AllPrintable(es)
    requires At(ts, p, PrintArgs(es))
    ensures Arguments(ts, p) == Done((es, p + |PrintArgs(es)|))
    decreases es, 2
  {
    hide At, Expression, Arguments, PrintExpr, Printable;
    var a, c := PrintExpr(es[0]), PrintArgs(es[1..]);
    AtJoined(ts, p, a, Token(Comma, ","), c);
    AtFirst(ts, p, a);
    ExprUndo(es[0], ts, p);
    ArgsUndo(es[1..], ts, p + |a| + 1);
    ArgStep(ts, p, es[0], p + |a|, es[1..], p + |a| + 1 + |c|);
    assert es == [es[0]] + es[1..];
  }
}
