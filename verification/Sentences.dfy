/**
 The grammar as a relation between token lists and what they stand for: no position is computed, no alternative is tried
 first. A list of tokens is parsed as a query exactly when it is a writing of that query.
 */
module Sentences {
  import opened Ast
  import opened Grammar
  import opened IntText
  import opened StatementGrammar
  import opened Tokens
  import opened Wrappers

  // ---------- Expressions ----------

  /** One token of this kind stands at p, whatever its text is. */
  predicate One(ts: seq<Token>, p: nat, kind: TokenType) {
    p < |ts| && ts[p].kind == kind
  }

  /** This name stands at p. */
  predicate NameAt(name: string, ts: seq<Token>, p: nat) {
    One(ts, p, Identifier) && ts[p].text == name
  }

  predicate OperatorIs(op: Operator, ts: seq<Token>, p: nat) {
    match op
    case EQ => One(ts, p, Equals)
    case LT => One(ts, p, Less)
    case GT => One(ts, p, Greater)
  }

  /** What can stand left of an operator or of arguments. */
  predicate Simple(e: Expr) {
    !e.Binary? && !e.Call?
  }

  /** The tokens from p up to q are a writing of the expression. Comparisons group to the right. */
  ghost predicate ExprAt(e: Expr, ts: seq<Token>, p: nat, q: nat)
    decreases e, 0
  {
    match e
    case IntegerLit(i) => q == p + 1 && One(ts, p, IntegerText) && Parsed(ts[p].text) == Some(i)
    case StringLit(s) => q == p + 1 && One(ts, p, StringText) && ts[p].text == s
    case TrueLit => q == p + 1 && One(ts, p, Word(TRUE))
    case FalseLit => q == p + 1 && One(ts, p, Word(FALSE))
    case NullLit => q == p + 1 && One(ts, p, Word(NULL))
    case Ident(name) => q == p + 1 && NameAt(name, ts, p)
    case Star => q == p + 1 && One(ts, p, Asterisk)
    case Call(fn, args) =>
      Simple(fn) && exists m: nat :: ExprAt(fn, ts, p, m) && One(ts, m, LParen) && ArgsAt(args, ts, m + 1, q)
    case Binary(op, lhs, rhs) =>
      Simple(lhs) && exists m: nat :: ExprAt(lhs, ts, p, m) && OperatorIs(op, ts, m) && ExprAt(rhs, ts, m + 1, q)
    case Select(exprs, table) =>
      && q > 0 && One(ts, p, Word(SELECT)) && One(ts, q - 1, Semicolon)
      && exists m: nat :: ListAt(exprs, ts, p + 1, m) && One(ts, m, Word(FROM)) && ExprAt(table, ts, m + 1, q - 1)
  }

  /** One or more expressions with a comma between any two. */
  ghost predicate ListAt(es: seq<Expr>, ts: seq<Token>, p: nat, q: nat)
    decreases es, 1
  {
    es != [] &&
    if |es| == 1 then ExprAt(es[0], ts, p, q)
    else exists m: nat :: ExprAt(es[0], ts, p, m) && One(ts, m, Comma) && ListAt(es[1..], ts, m + 1, q)
  }

  /** Arguments, each with or without a comma behind it, and the closing parenthesis. */
  ghost predicate ArgsAt(es: seq<Expr>, ts: seq<Token>, p: nat, q: nat)
    decreases es, 1
  {
    if es == [] then q == p + 1 && One(ts, p, RParen)
    else
      exists m: nat ::
        && ExprAt(es[0], ts, p, m)
        && (ArgsAt(es[1..], ts, m, q) || (One(ts, m, Comma) && ArgsAt(es[1..], ts, m + 1, q)))
  }

  // ---------- Parsed expressions are writings ----------

  lemma {:induction false} PrimIsWriting(ts: seq<Token>, p: nat)
    requires Prim(ts, p).Done?
    ensures var (e, q) := Prim(ts, p).value; Simple(e) && ExprAt(e, ts, p, q)
    decreases |ts| - p, 0
  {
    hide Expression, ExprList, Parsed, ListAt, ArgsAt;
    if ts[p].kind == Word(SELECT) {
      var (exprs, m) := ExprList(ts, p + 1).value;
      var (table, s) := Expression(ts, m + 1).value;
      ListIsWriting(ts, p + 1);
      ExprIsWriting(ts, m + 1);
      assert ListAt(exprs, ts, p + 1, m) && One(ts, m, Word(FROM)) && ExprAt(table, ts, m + 1, s);
    }
  }

  lemma {:induction false} ListIsWriting(ts: seq<Token>, p: nat)
    requires ExprList(ts, p).Done?
    ensures var (es, q) := ExprList(ts, p).value; ListAt(es, ts, p, q)
    decreases |ts| - p, 2
  {
    hide Expression, ExprAt;
    var (e, m) := Expression(ts, p).value;
    ExprIsWriting(ts, p);
    if Sees(ts, m, Comma) {
      var (es, q) := ExprList(ts, m + 1).value;
      ListIsWriting(ts, m + 1);
      assert ([e] + es)[1..] == es;
      assert ExprAt(e, ts, p, m) && One(ts, m, Comma) && ListAt(([e] + es)[1..], ts, m + 1, q);
    }
  }

  lemma {:induction false} ExprIsWriting(ts: seq<Token>, p: nat)
    requires Expression(ts, p).Done?
    ensures var (e, q) := Expression(ts, p).value; ExprAt(e, ts, p, q)
    decreases |ts| - p, 1
  {
    hide Prim, Arguments, ExprAt, ArgsAt;
    var (lhs, m) := Prim(ts, p).value;
    PrimIsWriting(ts, p);
    if OperatorAt(ts, m).Some? {
      ExprIsWriting(ts, m + 1);
      var (rhs, q) := Expression(ts, m + 1).value;
      BinaryAt(OperatorAt(ts, m).value, lhs, rhs, ts, p, m, q);
    } else if Sees(ts, m, LParen) {
      ArgsAreWriting(ts, m + 1);
      var (args, q) := Arguments(ts, m + 1).value;
      CallAt(lhs, args, ts, p, m, q);
    }
  }

  lemma BinaryAt(op: Operator, lhs: Expr, rhs: Expr, ts: seq<Token>, p: nat, m: nat, q: nat)
    requires Simple(lhs) && ExprAt(lhs, ts, p, m) && OperatorIs(op, ts, m) && ExprAt(rhs, ts, m + 1, q)
    ensures ExprAt(Binary(op, lhs, rhs), ts, p, q)
  {
  }

  lemma CallAt(fn: Expr, args: seq<Expr>, ts: seq<Token>, p: nat, m: nat, q: nat)
    requires Simple(fn) && ExprAt(fn, ts, p, m) && One(ts, m, LParen) && ArgsAt(args, ts, m + 1, q)
    ensures ExprAt(Call(fn, args), ts, p, q)
  {
    hide ArgsAt;
  }

  lemma {:induction false} ArgsAreWriting(ts: seq<Token>, p: nat)
    requires Arguments(ts, p).Done?
    ensures var (es, q) := Arguments(ts, p).value; ArgsAt(es, ts, p, q)
    decreases |ts| - p, 2
  {
    hide Expression, ExprAt;
    if ts[p].kind != RParen {
      var (e, m) := Expression(ts, p).value;
      ExprIsWriting(ts, p);
      var next := if ts[m].kind == Comma then m + 1 else m;
      ArgsAreWriting(ts, next);
      var (es, q) := Arguments(ts, next).value;
      assert ([e] + es)[1..] == es;
      assert ExprAt(e, ts, p, m) && (ArgsAt(es, ts, m, q) || (One(ts, m, Comma) && ArgsAt(es, ts, m + 1, q)));
    }
  }

  // ---------- Writings are parsed ----------

  lemma {:induction false} ExprStarts(e: Expr, ts: seq<Token>, p: nat, q: nat)
    requires ExprAt(e, ts, p, q)
    ensures p < |ts| && StartsExpr(ts[p].kind)
    decreases e
  {
    hide ListAt, ArgsAt, Parsed;
    if e.Call? {
      var m := CallSplit(e, ts, p, q);
      ExprStarts(e.fn, ts, p, m);
    } else if e.Binary? {
      var m := BinarySplit(e, ts, p, q);
      ExprStarts(e.lhs, ts, p, m);
    }
  }

  lemma StartStops(ts: seq<Token>, p: nat)
    requires p < |ts| && (StartsExpr(ts[p].kind) || ts[p].kind == RParen || ts[p].kind == Comma)
    ensures Stops(ts, p)
  {
  }

  lemma SelectAt(e: Expr, ts: seq<Token>, p: nat, q: nat) returns (m: nat)
    requires e.Select? && ExprAt(e, ts, p, q)
    ensures q > 0 && One(ts, p, Word(SELECT)) && One(ts, q - 1, Semicolon)
    ensures ListAt(e.exprs, ts, p + 1, m) && One(ts, m, Word(FROM)) && ExprAt(e.table, ts, m + 1, q - 1)
  {
    hide ListAt;
    m :| ListAt(e.exprs, ts, p + 1, m) && One(ts, m, Word(FROM)) && ExprAt(e.table, ts, m + 1, q - 1);
  }

  lemma BinarySplit(e: Expr, ts: seq<Token>, p: nat, q: nat) returns (m: nat)
    requires e.Binary? && ExprAt(e, ts, p, q)
    ensures Simple(e.lhs) && ExprAt(e.lhs, ts, p, m) && OperatorIs(e.op, ts, m) && ExprAt(e.rhs, ts, m + 1, q)
  {
    m :| ExprAt(e.lhs, ts, p, m) && OperatorIs(e.op, ts, m) && ExprAt(e.rhs, ts, m + 1, q);
  }

  lemma CallSplit(e: Expr, ts: seq<Token>, p: nat, q: nat) returns (m: nat)
    requires e.Call? && ExprAt(e, ts, p, q)
    ensures Simple(e.fn) && ExprAt(e.fn, ts, p, m) && One(ts, m, LParen) && ArgsAt(e.args, ts, m + 1, q)
  {
    hide ArgsAt;
    m :| ExprAt(e.fn, ts, p, m) && One(ts, m, LParen) && ArgsAt(e.args, ts, m + 1, q);
  }

  lemma {:induction false} PrimParsed(e: Expr, ts: seq<Token>, p: nat, q: nat)
    requires Simple(e) && ExprAt(e, ts, p, q)
    ensures Prim(ts, p) == Done((e, q))
    decreases e, 0
  {
    hide Stops, Prim, Expression, ExprList, ExprAt, ListAt, ArgsAt;
    if e.Select? {
      var m := SelectAt(e, ts, p, q);
      KeywordStops(ts, m);
      KeywordStops(ts, q - 1);
      ListParsed(e.exprs, ts, p + 1, m);
      ExprParsed(e.table, ts, m + 1, q - 1);
      SelectStep(ts, p, e.exprs, m, e.table, q - 1);
    } else {
      AtomParsed(e, ts, p, q);
    }
  }

  lemma AtomParsed(e: Expr, ts: seq<Token>, p: nat, q: nat)
    requires Simple(e) && !e.Select? && ExprAt(e, ts, p, q)
    ensures Prim(ts, p) == Done((e, q))
  {
    hide Parsed, Expression, ExprList;
  }

  lemma {:induction false} ExprParsed(e: Expr, ts: seq<Token>, p: nat, q: nat)
    requires ExprAt(e, ts, p, q) && Stops(ts, q)
    ensures Expression(ts, p) == Done((e, q))
    decreases e, 1
  {
    hide Stops, Prim, Expression, Arguments, ExprAt, ListAt, ArgsAt;
    if e.Call? {
      var m := CallSplit(e, ts, p, q);
      PrimParsed(e.fn, ts, p, m);
      ArgsParsed(e.args, ts, m + 1, q);
      CallStep(ts, p, e.fn, m, e.args, q);
    } else if e.Binary? {
      var m := BinarySplit(e, ts, p, q);
      PrimParsed(e.lhs, ts, p, m);
      ExprParsed(e.rhs, ts, m + 1, q);
      BinaryStep(ts, p, e.lhs, m, e.op, e.rhs, q);
    } else {
      PrimParsed(e, ts, p, q);
      LoneStep(ts, p, e, q);
    }
  }

  lemma {:induction false} ListParsed(es: seq<Expr>, ts: seq<Token>, p: nat, q: nat)
    requires ListAt(es, ts, p, q) && Stops(ts, q) && !Sees(ts, q, Comma)
    ensures ExprList(ts, p) == Done((es, q))
    decreases es, 2
  {
    hide Stops, Expression, ExprList, ExprAt;
    if |es| == 1 {
      ExprParsed(es[0], ts, p, q);
      ListEnd(ts, p, es[0], q);
      assert es == [es[0]];
    } else {
      var m: nat :| ExprAt(es[0], ts, p, m) && One(ts, m, Comma) && ListAt(es[1..], ts, m + 1, q);
      CommaStops(ts, m);
      ExprParsed(es[0], ts, p, m);
      ListParsed(es[1..], ts, m + 1, q);
      ListStep(ts, p, es[0], m, es[1..], q);
      assert es == [es[0]] + es[1..];
    }
  }

  lemma ArgsStart(es: seq<Expr>, ts: seq<Token>, p: nat, q: nat)
    requires ArgsAt(es, ts, p, q)
    ensures p < |ts| && (StartsExpr(ts[p].kind) || ts[p].kind == RParen)
  {
    hide ExprAt;
    if es != [] {
      var m: nat :| ExprAt(es[0], ts, p, m) &&
        (ArgsAt(es[1..], ts, m, q) || (One(ts, m, Comma) && ArgsAt(es[1..], ts, m + 1, q)));
      ExprStarts(es[0], ts, p, m);
    }
  }

  lemma {:induction false} ArgsParsed(es: seq<Expr>, ts: seq<Token>, p: nat, q: nat)
    requires ArgsAt(es, ts, p, q)
    ensures Arguments(ts, p) == Done((es, q))
    decreases es, 2
  {
    hide Stops, Expression, Arguments, ExprAt;
    if es == [] {
      ArgsEnd(ts, p);
    } else {
      var m: nat :| ExprAt(es[0], ts, p, m) &&
        (ArgsAt(es[1..], ts, m, q) || (One(ts, m, Comma) && ArgsAt(es[1..], ts, m + 1, q)));
      ExprStarts(es[0], ts, p, m);
      var next := if One(ts, m, Comma) then m + 1 else m;
      if !(One(ts, m, Comma) && ArgsAt(es[1..], ts, m + 1, q)) {
        ArgsStart(es[1..], ts, m, q);
      }
      StartStops(ts, m);
      ExprParsed(es[0], ts, p, m);
      ArgsParsed(es[1..], ts, next, q);
      ArgStep(ts, p, es[0], m, es[1..], q);
      assert es == [es[0]] + es[1..];
    }
  }

  // ---------- Statements ----------

  /** Names with a comma between any two. */
  predicate NamesAt(names: seq<string>, ts: seq<Token>, p: nat, q: nat) {
    && names != [] && q == p + 2 * |names| - 1
    && (forall i :: 0 <= i < |names| ==> NameAt(names[i], ts, p + 2 * i))
    && forall i :: 0 < i < |names| ==> One(ts, p + 2 * i - 1, Comma)
  }

  /** Names of columns, each with the name of its type. */
  predicate DefsAt(defs: seq<(string, string)>, ts: seq<Token>, p: nat, q: nat) {
    && defs != [] && q == p + 3 * |defs| - 1
    && (forall i :: 0 <= i < |defs| ==> NameAt(defs[i].0, ts, p + 3 * i) && NameAt(defs[i].1, ts, p + 3 * i + 1))
    && forall i :: 0 < i < |defs| ==> One(ts, p + 3 * i - 1, Comma)
  }

  ghost predicate ClauseAt(c: SetClause, ts: seq<Token>, p: nat, q: nat) {
    NameAt(c.name, ts, p) && One(ts, p + 1, Equals) && ExprAt(c.value, ts, p + 2, q)
  }

  ghost predicate ClausesAt(cs: seq<SetClause>, ts: seq<Token>, p: nat, q: nat)
    decreases |cs|
  {
    cs != [] &&
    if |cs| == 1 then ClauseAt(cs[0], ts, p, q)
    else exists m: nat :: ClauseAt(cs[0], ts, p, m) && One(ts, m, Comma) && ClausesAt(cs[1..], ts, m + 1, q)
  }

  ghost predicate RowAt(row: seq<Expr>, ts: seq<Token>, p: nat, q: nat) {
    q > 0 && One(ts, p, LParen) && ListAt(row, ts, p + 1, q - 1) && One(ts, q - 1, RParen)
  }

  ghost predicate RowsAt(rows: seq<seq<Expr>>, ts: seq<Token>, p: nat, q: nat)
    decreases |rows|
  {
    rows != [] &&
    if |rows| == 1 then RowAt(rows[0], ts, p, q)
    else exists m: nat :: RowAt(rows[0], ts, p, m) && One(ts, m, Comma) && RowsAt(rows[1..], ts, m + 1, q)
  }

  ghost predicate FilterAt(f: Option<Expr>, ts: seq<Token>, p: nat, q: nat) {
    if f.Some? then One(ts, p, Word(WHERE)) && ExprAt(f.value, ts, p + 1, q) else q == p
  }

  /** The name of the table of an INSERT, which may be missing and is empty then. */
  predicate TableAt(name: string, ts: seq<Token>, p: nat, q: nat) {
    if q == p then name == "" else q == p + 1 && NameAt(name, ts, p)
  }

  ghost predicate InsertAt(s: Stmt, ts: seq<Token>, p: nat, q: nat, n: nat, c: nat)
    requires s.InsertStmt?
  {
    && q > 0 && One(ts, p, Word(INSERT)) && One(ts, p + 1, Word(INTO)) && TableAt(s.name, ts, p + 2, n)
    && One(ts, n, LParen) && NamesAt(s.columns, ts, n + 1, c) && One(ts, c, RParen)
    && One(ts, c + 1, Word(VALUES)) && RowsAt(s.rows, ts, c + 2, q - 1) && One(ts, q - 1, Semicolon)
  }

  ghost predicate UpdateAt(s: Stmt, ts: seq<Token>, p: nat, q: nat, t: nat, c: nat)
    requires s.UpdateStmt?
  {
    && q > 0 && One(ts, p, Word(UPDATE)) && ExprAt(s.table, ts, p + 1, t) && One(ts, t, Word(SET))
    && ClausesAt(s.sets, ts, t + 1, c) && FilterAt(s.filter, ts, c, q - 1) && One(ts, q - 1, Semicolon)
  }

  ghost predicate DeleteAt(s: Stmt, ts: seq<Token>, p: nat, q: nat, t: nat)
    requires s.DeleteStmt?
  {
    && q > 0 && One(ts, p, Word(DELETE)) && One(ts, p + 1, Word(FROM)) && ExprAt(s.table, ts, p + 2, t)
    && FilterAt(s.filter, ts, t, q - 1) && One(ts, q - 1, Semicolon)
  }

  /** Two keywords, a name and a semicolon. */
  predicate ShortAt(a: Keyword, b: Keyword, name: string, ts: seq<Token>, p: nat, q: nat) {
    && q == p + 4 && One(ts, p, Word(a)) && One(ts, p + 1, Word(b))
    && NameAt(name, ts, p + 2) && One(ts, p + 3, Semicolon)
  }

  /** The tokens from p up to q are a writing of the statement. */
  ghost predicate StmtAt(s: Stmt, ts: seq<Token>, p: nat, q: nat) {
    match s
    case ExprStmt(e) => ExprAt(e, ts, p, q)
    case InsertStmt(_, _, _) => exists n: nat, c: nat :: InsertAt(s, ts, p, q, n, c)
    case UpdateStmt(_, _, _) => exists t: nat, c: nat :: UpdateAt(s, ts, p, q, t, c)
    case DeleteStmt(_, _) => exists t: nat :: DeleteAt(s, ts, p, q, t)
    case UseStmt(name) => q == p + 3 && One(ts, p, Word(USE)) && NameAt(name, ts, p + 1) && One(ts, p + 2, Semicolon)
    case DropStmt(DropTable, name) => ShortAt(DROP, TABLE, name, ts, p, q)
    case DropStmt(DropDatabase, name) => ShortAt(DROP, DATABASE, name, ts, p, q)
    case CreateDatabaseStmt(name) => ShortAt(CREATE, DATABASE, name, ts, p, q)
    case CreateUserStmt(name) => ShortAt(CREATE, USER, name, ts, p, q)
    case CreateTableStmt(name, defs) =>
      && q > 1 && One(ts, p, Word(CREATE)) && One(ts, p + 1, Word(TABLE)) && NameAt(name, ts, p + 2)
      && One(ts, p + 3, LParen) && DefsAt(defs, ts, p + 4, q - 2) && One(ts, q - 2, RParen) && One(ts, q - 1, Semicolon)
    case AlterUserStmt(name, clauses) =>
      && q > 0 && One(ts, p, Word(ALTER)) && One(ts, p + 1, Word(USER)) && NameAt(name, ts, p + 2)
      && One(ts, p + 3, Word(SET)) && ClausesAt(clauses, ts, p + 4, q - 1) && One(ts, q - 1, Semicolon)
  }

  /** The tokens from p to the end are a writing of the statements, one after the other. */
  ghost predicate QueryAt(stmts: seq<Stmt>, ts: seq<Token>, p: nat)
    decreases |stmts|
  {
    if stmts == [] then p == |ts|
    else exists q: nat :: StmtAt(stmts[0], ts, p, q) && QueryAt(stmts[1..], ts, q)
  }

  // ---------- Parsed statements are writings ----------

  lemma {:induction false} NamesAreWriting(ts: seq<Token>, p: nat)
    requires Names(ts, p).Done?
    ensures var (names, q) := Names(ts, p).value; NamesAt(names, ts, p, q)
    decreases |ts| - p
  {
    if Sees(ts, p + 1, Comma) {
      NamesAreWriting(ts, p + 2);
      var rest := Names(ts, p + 2).value.0;
      var names := [ts[p].text] + rest;
      forall i | 0 <= i < |names|
        ensures NameAt(names[i], ts, p + 2 * i) && (i > 0 ==> One(ts, p + 2 * i - 1, Comma))
      {
        if i > 0 {
          assert NameAt(rest[i - 1], ts, p + 2 + 2 * (i - 1));
          assert i > 1 ==> One(ts, p + 2 + 2 * (i - 1) - 1, Comma);
        }
      }
    }
  }

  lemma {:induction false} DefsAreWriting(ts: seq<Token>, p: nat)
    requires ColumnDefs(ts, p).Done?
    ensures var (defs, q) := ColumnDefs(ts, p).value; DefsAt(defs, ts, p, q)
    decreases |ts| - p
  {
    if Sees(ts, p + 2, Comma) {
      DefsAreWriting(ts, p + 3);
      var rest := ColumnDefs(ts, p + 3).value.0;
      var defs := [(ts[p].text, ts[p + 1].text)] + rest;
      forall i | 0 <= i < |defs|
        ensures NameAt(defs[i].0, ts, p + 3 * i) && NameAt(defs[i].1, ts, p + 3 * i + 1)
        ensures i > 0 ==> One(ts, p + 3 * i - 1, Comma)
      {
        if i > 0 {
          assert NameAt(rest[i - 1].0, ts, p + 3 + 3 * (i - 1));
          assert i > 1 ==> One(ts, p + 3 + 3 * (i - 1) - 1, Comma);
        }
      }
    }
  }

  lemma {:induction false} ClausesAreWriting(ts: seq<Token>, p: nat)
    requires Clauses(ts, p).Done?
    ensures var (cs, q) := Clauses(ts, p).value; ClausesAt(cs, ts, p, q)
    decreases |ts| - p
  {
    hide Expression, ExprAt;
    ExprIsWriting(ts, p + 2);
    var (c, m) := Clause(ts, p).value;
    assert ClauseAt(c, ts, p, m);
    if Sees(ts, m, Comma) {
      ClausesAreWriting(ts, m + 1);
      var (cs, q) := Clauses(ts, m + 1).value;
      assert ([c] + cs)[1..] == cs;
      assert ClauseAt(c, ts, p, m) && One(ts, m, Comma) && ClausesAt(cs, ts, m + 1, q);
    }
  }

  lemma {:induction false} RowsAreWriting(ts: seq<Token>, p: nat)
    requires Rows(ts, p).Done?
    ensures var (rows, q) := Rows(ts, p).value; RowsAt(rows, ts, p, q)
    decreases |ts| - p
  {
    hide ExprList, ListAt;
    ListIsWriting(ts, p + 1);
    var (row, m) := RowOfValues(ts, p).value;
    assert RowAt(row, ts, p, m);
    if Sees(ts, m, Comma) {
      RowsAreWriting(ts, m + 1);
      var (rows, q) := Rows(ts, m + 1).value;
      assert ([row] + rows)[1..] == rows;
      assert RowAt(row, ts, p, m) && One(ts, m, Comma) && RowsAt(rows, ts, m + 1, q);
    }
  }

  lemma FilterIsWriting(ts: seq<Token>, p: nat)
    requires p <= |ts| && Filter(ts, p).Done?
    ensures var (f, q) := Filter(ts, p).value; FilterAt(f, ts, p, q)
  {
    hide Expression, ExprAt;
    if Sees(ts, p, Word(WHERE)) {
      ExprIsWriting(ts, p + 1);
    }
  }

  lemma InsertIsWriting(ts: seq<Token>, p: nat)
    requires Sees(ts, p, Word(INSERT)) && Insert(ts, p).Done?
    ensures var (s, q) := Insert(ts, p).value; StmtAt(s, ts, p, q)
  {
    hide Names, Rows, NamesAt, RowsAt;
    var (s, q) := Insert(ts, p).value;
    var n := if Sees(ts, p + 2, Identifier) then p + 3 else p + 2;
    var c := Names(ts, n + 1).value.1;
    NamesAreWriting(ts, n + 1);
    RowsAreWriting(ts, c + 2);
    assert InsertAt(s, ts, p, q, n, c);
  }

  lemma UpdateIsWriting(ts: seq<Token>, p: nat)
    requires Sees(ts, p, Word(UPDATE)) && Update(ts, p).Done?
    ensures var (s, q) := Update(ts, p).value; StmtAt(s, ts, p, q)
  {
    hide Expression, Clauses, Filter, ExprAt, ClausesAt, FilterAt;
    var (s, q) := Update(ts, p).value;
    var t := Expression(ts, p + 1).value.1;
    var c := Clauses(ts, t + 1).value.1;
    ExprIsWriting(ts, p + 1);
    ClausesAreWriting(ts, t + 1);
    FilterIsWriting(ts, c);
    assert UpdateAt(s, ts, p, q, t, c);
  }

  lemma DeleteIsWriting(ts: seq<Token>, p: nat)
    requires Sees(ts, p, Word(DELETE)) && Delete(ts, p).Done?
    ensures var (s, q) := Delete(ts, p).value; StmtAt(s, ts, p, q)
  {
    hide Expression, Filter, ExprAt, FilterAt;
    var (s, q) := Delete(ts, p).value;
    var t := Expression(ts, p + 2).value.1;
    ExprIsWriting(ts, p + 2);
    FilterIsWriting(ts, t);
    assert DeleteAt(s, ts, p, q, t);
  }

  lemma CreateIsWriting(ts: seq<Token>, p: nat)
    requires Sees(ts, p, Word(CREATE)) && Create(ts, p).Done?
    ensures var (s, q) := Create(ts, p).value; StmtAt(s, ts, p, q)
  {
    hide ColumnDefs, DefsAt;
    if Sees(ts, p + 1, Word(TABLE)) {
      DefsAreWriting(ts, p + 4);
    }
  }

  lemma AlterIsWriting(ts: seq<Token>, p: nat)
    requires Sees(ts, p, Word(ALTER)) && Alter(ts, p).Done?
    ensures var (s, q) := Alter(ts, p).value; StmtAt(s, ts, p, q)
  {
    hide Clauses, ClausesAt;
    ClausesAreWriting(ts, p + 4);
  }

  lemma ShortIsWriting(ts: seq<Token>, p: nat)
    ensures Sees(ts, p, Word(DROP)) && Drop(ts, p).Done? ==> var (s, q) := Drop(ts, p).value; StmtAt(s, ts, p, q)
    ensures Sees(ts, p, Word(USE)) && Use(ts, p).Done? ==> var (s, q) := Use(ts, p).value; StmtAt(s, ts, p, q)
  {
  }

  /** A statement that starts with none of the keywords of statements is an expression. */
  predicate StartsOther(ts: seq<Token>, p: nat) {
    && p < |ts|
    && ts[p].kind !in [Word(DELETE), Word(INSERT), Word(UPDATE), Word(DROP), Word(CREATE), Word(USE), Word(ALTER)]
  }

  lemma DispatchOther(ts: seq<Token>, p: nat)
    requires StartsOther(ts, p)
    ensures match Expression(ts, p)
            case Done((e, q)) => Statement(ts, p) == Done((ExprStmt(e), q))
            case Failed => Statement(ts, p) == Failed
            case Trapped => Statement(ts, p) == Trapped
  {
    hide Expression;
  }

  lemma OtherIsWriting(ts: seq<Token>, p: nat)
    requires StartsOther(ts, p) && Statement(ts, p).Done?
    ensures var (s, q) := Statement(ts, p).value; StmtAt(s, ts, p, q)
  {
    hide Expression, Statement, ExprAt;
    DispatchOther(ts, p);
    ExprIsWriting(ts, p);
  }

  lemma StmtIsWriting(ts: seq<Token>, p: nat)
    requires Statement(ts, p).Done?
    ensures var (s, q) := Statement(ts, p).value; StmtAt(s, ts, p, q)
  {
    hide Statement, Delete, Insert, Update, Drop, Create, Use, Alter, StmtAt;
    Dispatch(ts, p);
    NotBehindEnd(ts, p);
    if StartsOther(ts, p) {
      OtherIsWriting(ts, p);
    } else {
      ShortIsWriting(ts, p);
      match ts[p].kind.keyword
      case DELETE => DeleteIsWriting(ts, p);
      case INSERT => InsertIsWriting(ts, p);
      case UPDATE => UpdateIsWriting(ts, p);
      case CREATE => CreateIsWriting(ts, p);
      case ALTER => AlterIsWriting(ts, p);
      case _ =>
    }
  }

  lemma NotBehindEnd(ts: seq<Token>, p: nat)
    requires Statement(ts, p).Done?
    ensures p < |ts|
  {
  }

  lemma {:induction false} QueryIsWriting(ts: seq<Token>, p: nat)
    requires p <= |ts| && Statements(ts, p).Done?
    ensures QueryAt(Statements(ts, p).value, ts, p)
    decreases |ts| - p
  {
    hide Statement, StmtAt;
    if p < |ts| {
      var (s, q) := Statement(ts, p).value;
      StmtIsWriting(ts, p);
      QueryIsWriting(ts, q);
      var rest := Statements(ts, q).value;
      assert ([s] + rest)[1..] == rest;
      assert StmtAt(s, ts, p, q) && QueryAt(([s] + rest)[1..], ts, q);
    }
  }

  // ---------- Writings of statements are parsed ----------

  lemma {:induction false} NamesParsed(names: seq<string>, ts: seq<Token>, p: nat, q: nat)
    requires NamesAt(names, ts, p, q) && !Sees(ts, q, Comma)
    ensures Names(ts, p) == Done((names, q))
    decreases |names|
  {
    assert NameAt(names[0], ts, p);
    if |names| == 1 {
      assert names == [names[0]];
    } else {
      var rest := names[1..];
      assert One(ts, p + 2 * 1 - 1, Comma);
      forall i | 0 <= i < |rest|
        ensures NameAt(rest[i], ts, p + 2 + 2 * i) && (i > 0 ==> One(ts, p + 2 + 2 * i - 1, Comma))
      {
        assert NameAt(names[i + 1], ts, p + 2 * (i + 1));
        assert One(ts, p + 2 * (i + 1) - 1, Comma);
      }
      NamesParsed(rest, ts, p + 2, q);
      assert names == [names[0]] + rest;
    }
  }

  lemma {:induction false} DefsParsed(defs: seq<(string, string)>, ts: seq<Token>, p: nat, q: nat)
    requires DefsAt(defs, ts, p, q) && !Sees(ts, q, Comma)
    ensures ColumnDefs(ts, p) == Done((defs, q))
    decreases |defs|
  {
    assert NameAt(defs[0].0, ts, p) && NameAt(defs[0].1, ts, p + 3 * 0 + 1);
    if |defs| == 1 {
      assert defs == [defs[0]];
    } else {
      var rest := defs[1..];
      assert One(ts, p + 3 * 1 - 1, Comma);
      forall i | 0 <= i < |rest|
        ensures NameAt(rest[i].0, ts, p + 3 + 3 * i) && NameAt(rest[i].1, ts, p + 3 + 3 * i + 1)
        ensures i > 0 ==> One(ts, p + 3 + 3 * i - 1, Comma)
      {
        assert NameAt(defs[i + 1].0, ts, p + 3 * (i + 1)) && NameAt(defs[i + 1].1, ts, p + 3 * (i + 1) + 1);
        assert One(ts, p + 3 * (i + 1) - 1, Comma);
      }
      DefsParsed(rest, ts, p + 3, q);
      assert defs == [defs[0]] + rest;
    }
  }

  lemma ClauseParsed(c: SetClause, ts: seq<Token>, p: nat, q: nat)
    requires ClauseAt(c, ts, p, q) && Stops(ts, q)
    ensures Clause(ts, p) == Done((c, q))
  {
    hide Expression, ExprAt, Stops;
    ExprParsed(c.value, ts, p + 2, q);
  }

  lemma {:induction false} ClausesParsed(cs: seq<SetClause>, ts: seq<Token>, p: nat, q: nat)
    requires ClausesAt(cs, ts, p, q) && Closes(ts, q)
    ensures Clauses(ts, p) == Done((cs, q))
    decreases |cs|
  {
    hide Clause, ClauseAt, Stops;
    ClosesStops(ts, q);
    if |cs| == 1 {
      ClauseParsed(cs[0], ts, p, q);
      assert cs == [cs[0]];
    } else {
      var m: nat :| ClauseAt(cs[0], ts, p, m) && One(ts, m, Comma) && ClausesAt(cs[1..], ts, m + 1, q);
      CommaStops(ts, m);
      ClauseParsed(cs[0], ts, p, m);
      ClausesParsed(cs[1..], ts, m + 1, q);
      assert cs == [cs[0]] + cs[1..];
    }
  }

  lemma RowParsed(row: seq<Expr>, ts: seq<Token>, p: nat, q: nat)
    requires RowAt(row, ts, p, q)
    ensures RowOfValues(ts, p) == Done((row, q))
  {
    hide ExprList, ListAt, Stops;
    ClosesStops(ts, q - 1);
    ListParsed(row, ts, p + 1, q - 1);
  }

  lemma {:induction false} RowsParsed(rows: seq<seq<Expr>>, ts: seq<Token>, p: nat, q: nat)
    requires RowsAt(rows, ts, p, q) && !Sees(ts, q, Comma)
    ensures Rows(ts, p) == Done((rows, q))
    decreases |rows|
  {
    hide RowOfValues, RowAt;
    if |rows| == 1 {
      RowParsed(rows[0], ts, p, q);
      assert rows == [rows[0]];
    } else {
      var m: nat :| RowAt(rows[0], ts, p, m) && One(ts, m, Comma) && RowsAt(rows[1..], ts, m + 1, q);
      RowParsed(rows[0], ts, p, m);
      RowsParsed(rows[1..], ts, m + 1, q);
      assert rows == [rows[0]] + rows[1..];
    }
  }

  lemma FilterParsed(f: Option<Expr>, ts: seq<Token>, p: nat, q: nat)
    requires FilterAt(f, ts, p, q) && One(ts, q, Semicolon)
    ensures p < |ts| && Filter(ts, p) == Done((f, q)) && Closes(ts, p)
  {
    hide Expression, ExprAt, Stops;
    ClosesStops(ts, q);
    if f.Some? {
      ExprParsed(f.value, ts, p + 1, q);
    }
  }

  lemma InsertParsed(s: Stmt, ts: seq<Token>, p: nat, q: nat)
    requires s.InsertStmt? && StmtAt(s, ts, p, q)
    ensures Sees(ts, p, Word(INSERT)) && Insert(ts, p) == Done((s, q))
  {
    hide Names, Rows, NamesAt, RowsAt;
    var n: nat, c: nat :| InsertAt(s, ts, p, q, n, c);
    NamesParsed(s.columns, ts, n + 1, c);
    RowsParsed(s.rows, ts, c + 2, q - 1);
  }

  lemma UpdateParsed(s: Stmt, ts: seq<Token>, p: nat, q: nat)
    requires s.UpdateStmt? && StmtAt(s, ts, p, q)
    ensures Sees(ts, p, Word(UPDATE)) && Update(ts, p) == Done((s, q))
  {
    hide Expression, Clauses, Filter, ExprAt, ClausesAt, FilterAt, Stops;
    var t: nat, c: nat :| UpdateAt(s, ts, p, q, t, c);
    ClosesStops(ts, t);
    ExprParsed(s.table, ts, p + 1, t);
    FilterParsed(s.filter, ts, c, q - 1);
    ClausesParsed(s.sets, ts, t + 1, c);
  }

  lemma DeleteParsed(s: Stmt, ts: seq<Token>, p: nat, q: nat)
    requires s.DeleteStmt? && StmtAt(s, ts, p, q)
    ensures Sees(ts, p, Word(DELETE)) && Delete(ts, p) == Done((s, q))
  {
    hide Expression, Filter, ExprAt, FilterAt, Stops;
    var t: nat :| DeleteAt(s, ts, p, q, t);
    FilterParsed(s.filter, ts, t, q - 1);
    ClosesStops(ts, t);
    ExprParsed(s.table, ts, p + 2, t);
  }

  lemma CreateTableParsed(s: Stmt, ts: seq<Token>, p: nat, q: nat)
    requires s.CreateTableStmt? && StmtAt(s, ts, p, q)
    ensures Sees(ts, p, Word(CREATE)) && Create(ts, p) == Done((s, q))
  {
    hide ColumnDefs, DefsAt;
    DefsParsed(s.columnTypes, ts, p + 4, q - 2);
  }

  lemma AlterParsed(s: Stmt, ts: seq<Token>, p: nat, q: nat)
    requires s.AlterUserStmt? && StmtAt(s, ts, p, q)
    ensures Sees(ts, p, Word(ALTER)) && Alter(ts, p) == Done((s, q))
  {
    hide Clauses, ClausesAt;
    ClausesParsed(s.clauses, ts, p + 4, q - 1);
  }

  lemma ShortParsed(s: Stmt, ts: seq<Token>, p: nat, q: nat)
    requires (s.UseStmt? || s.DropStmt? || s.CreateDatabaseStmt? || s.CreateUserStmt?) && StmtAt(s, ts, p, q)
    ensures s.UseStmt? ==> Sees(ts, p, Word(USE)) && Use(ts, p) == Done((s, q))
    ensures s.DropStmt? ==> Sees(ts, p, Word(DROP)) && Drop(ts, p) == Done((s, q))
    ensures s.CreateDatabaseStmt? || s.CreateUserStmt? ==> Sees(ts, p, Word(CREATE)) && Create(ts, p) == Done((s, q))
  {
  }

  lemma ExprStmtParsed(e: Expr, ts: seq<Token>, p: nat, q: nat)
    requires ExprAt(e, ts, p, q) && Stops(ts, q)
    ensures Statement(ts, p) == Done((ExprStmt(e), q)) && StartsExpr(ts[p].kind)
  {
    hide Statement, Expression, ExprAt, Stops;
    ExprStarts(e, ts, p, q);
    ExprParsed(e, ts, p, q);
    DispatchExpr(ts, p, e, q);
  }

  lemma StmtParsed(s: Stmt, ts: seq<Token>, p: nat, q: nat)
    requires StmtAt(s, ts, p, q) && (s.ExprStmt? ==> Stops(ts, q))
    ensures Statement(ts, p) == Done((s, q))
  {
    hide Statement, Delete, Insert, Update, Drop, Create, Use, Alter, Stops, ExprAt, ClausesAt, DefsAt, NameAt, ShortAt;
    hide InsertAt, UpdateAt, DeleteAt;
    Dispatch(ts, p);
    match s
    case ExprStmt(e) => ExprStmtParsed(e, ts, p, q);
    case InsertStmt(_, _, _) => InsertParsed(s, ts, p, q);
    case UpdateStmt(_, _, _) => UpdateParsed(s, ts, p, q);
    case DeleteStmt(_, _) => DeleteParsed(s, ts, p, q);
    case CreateTableStmt(_, _) => CreateTableParsed(s, ts, p, q);
    case AlterUserStmt(_, _) => AlterParsed(s, ts, p, q);
    case _ => ShortParsed(s, ts, p, q);
  }

  lemma KeywordFirst(s: Stmt, ts: seq<Token>, p: nat, q: nat)
    requires !s.ExprStmt? && StmtAt(s, ts, p, q)
    ensures p < |ts| && ts[p].kind.Word?
  {
    hide Delete, Insert, Update, Drop, Create, Use, Alter, ClausesAt, DefsAt, NameAt, InsertAt, UpdateAt, DeleteAt;
    match s
    case InsertStmt(_, _, _) => InsertParsed(s, ts, p, q);
    case UpdateStmt(_, _, _) => UpdateParsed(s, ts, p, q);
    case DeleteStmt(_, _) => DeleteParsed(s, ts, p, q);
    case _ =>
  }

  /** No operator and no parenthesis starts a statement. */
  lemma StmtStarts(s: Stmt, ts: seq<Token>, p: nat, q: nat)
    requires StmtAt(s, ts, p, q)
    ensures p < |ts| && Stops(ts, p)
  {
    hide StmtAt, ExprAt, Stops;
    if s.ExprStmt? {
      ExprOfStmt(s, ts, p, q);
      ExprStarts(s.expr, ts, p, q);
      StartStops(ts, p);
    } else {
      KeywordFirst(s, ts, p, q);
      KeywordStops(ts, p);
    }
  }

  lemma ExprOfStmt(s: Stmt, ts: seq<Token>, p: nat, q: nat)
    requires s.ExprStmt? && StmtAt(s, ts, p, q)
    ensures ExprAt(s.expr, ts, p, q)
  {
    hide ExprAt;
  }

  lemma {:induction false} QueryParsed(stmts: seq<Stmt>, ts: seq<Token>, p: nat)
    requires p <= |ts| && QueryAt(stmts, ts, p)
    ensures Statements(ts, p) == Done(stmts)
    decreases |stmts|
  {
    hide Statement, StmtAt, Stops;
    if stmts != [] {
      var q: nat :| StmtAt(stmts[0], ts, p, q) && QueryAt(stmts[1..], ts, q);
      StmtStarts(stmts[0], ts, p, q);
      if stmts[1..] == [] {
        EndStops(ts, q);
      } else {
        var r: nat :| StmtAt(stmts[1..][0], ts, q, r) && QueryAt(stmts[1..][1..], ts, r);
        StmtStarts(stmts[1], ts, q, r);
      }
      StmtParsed(stmts[0], ts, p, q);
      QueryParsed(stmts[1..], ts, q);
      assert stmts == [stmts[0]] + stmts[1..];
    }
  }

  /** A list of tokens is parsed as a query exactly when it is a writing of the query. */
  lemma QueryIff(ts: seq<Token>, stmts: seq<Stmt>)
    ensures Statements(ts, 0) == Done(stmts) <==> QueryAt(stmts, ts, 0)
  {
    hide Statements, QueryAt;
    if Statements(ts, 0).Done? {
      QueryIsWriting(ts, 0);
    }
    if QueryAt(stmts, ts, 0) {
      QueryParsed(stmts, ts, 0);
    }
  }

  // ---------- When the parser stops the server ----------

  /** Every number among the tokens can be read. The lexer makes no other numbers. */
  predicate NumbersParse(ts: seq<Token>) {
    forall i :: 0 <= i < |ts| && ts[i].kind == IntegerText ==> Parsed(ts[i].text).Some?
  }

  lemma {:induction false} PrimGoesOn(ts: seq<Token>, p: nat)
    requires NumbersParse(ts)
    ensures !Prim(ts, p).Trapped?
    decreases |ts| - p, 0
  {
    hide Parsed, Expression, ExprList;
    if Sees(ts, p, Word(SELECT)) {
      ListGoesOn(ts, p + 1);
      var exprs := ExprList(ts, p + 1);
      if exprs.Done? {
        ExprGoesOn(ts, exprs.value.1 + 1);
      }
    }
  }

  lemma {:induction false} ListGoesOn(ts: seq<Token>, p: nat)
    requires NumbersParse(ts)
    ensures !ExprList(ts, p).Trapped?
    decreases |ts| - p, 2
  {
    hide Expression, NumbersParse;
    ExprGoesOn(ts, p);
    var e := Expression(ts, p);
    if e.Done? && Sees(ts, e.value.1, Comma) {
      ListGoesOn(ts, e.value.1 + 1);
    }
  }

  lemma {:induction false} ExprGoesOn(ts: seq<Token>, p: nat)
    requires NumbersParse(ts)
    ensures !Expression(ts, p).Trapped?
    decreases |ts| - p, 1
  {
    hide Prim, Arguments, NumbersParse;
    PrimGoesOn(ts, p);
    var lhs := Prim(ts, p);
    if lhs.Done? {
      var m := lhs.value.1;
      ExprGoesOn(ts, m + 1);
      ArgsGoOn(ts, m + 1);
    }
  }

  lemma {:induction false} ArgsGoOn(ts: seq<Token>, p: nat)
    requires NumbersParse(ts)
    ensures !Arguments(ts, p).Trapped?
    decreases |ts| - p, 2
  {
    hide Expression, NumbersParse;
    if p < |ts| {
      ExprGoesOn(ts, p);
      var e := Expression(ts, p);
      if e.Done? && e.value.1 < |ts| {
        ArgsGoOn(ts, if ts[e.value.1].kind == Comma then e.value.1 + 1 else e.value.1);
      }
    }
  }

  lemma {:induction false} ClausesGoOn(ts: seq<Token>, p: nat)
    requires NumbersParse(ts)
    ensures !Clauses(ts, p).Trapped?
    decreases |ts| - p
  {
    hide Expression, NumbersParse;
    ExprGoesOn(ts, p + 2);
    var c := Clause(ts, p);
    if c.Done? && Sees(ts, c.value.1, Comma) {
      ClausesGoOn(ts, c.value.1 + 1);
    }
  }

  lemma {:induction false} RowsGoOn(ts: seq<Token>, p: nat)
    requires NumbersParse(ts)
    ensures !Rows(ts, p).Trapped?
    decreases |ts| - p
  {
    hide ExprList, NumbersParse;
    ListGoesOn(ts, p + 1);
    var row := RowOfValues(ts, p);
    if row.Done? && Sees(ts, row.value.1, Comma) {
      RowsGoOn(ts, row.value.1 + 1);
    }
  }

  lemma FilterGoesOn(ts: seq<Token>, p: nat)
    requires NumbersParse(ts) && p <= |ts|
    ensures !Filter(ts, p).Trapped?
  {
    hide Expression, NumbersParse;
    ExprGoesOn(ts, p + 1);
  }

  lemma InsertGoesOn(ts: seq<Token>, p: nat)
    requires NumbersParse(ts)
    ensures !Insert(ts, p).Trapped?
  {
    hide Names, Rows, NumbersParse;
    var n := if Sees(ts, p + 2, Identifier) then p + 3 else p + 2;
    var columns := Names(ts, n + 1);
    NamesGoOn(ts, n + 1);
    if columns.Done? {
      RowsGoOn(ts, columns.value.1 + 2);
    }
  }

  lemma UpdateGoesOn(ts: seq<Token>, p: nat)
    requires NumbersParse(ts)
    ensures !Update(ts, p).Trapped?
  {
    hide Expression, Clauses, Filter, NumbersParse;
    ExprGoesOn(ts, p + 1);
    var table := Expression(ts, p + 1);
    if table.Done? {
      ClausesGoOn(ts, table.value.1 + 1);
      var sets := Clauses(ts, table.value.1 + 1);
      if sets.Done? {
        FilterGoesOn(ts, sets.value.1);
      }
    }
  }

  lemma DeleteGoesOn(ts: seq<Token>, p: nat)
    requires NumbersParse(ts)
    ensures !Delete(ts, p).Trapped?
  {
    hide Expression, Filter, NumbersParse;
    ExprGoesOn(ts, p + 2);
    var table := Expression(ts, p + 2);
    if table.Done? {
      FilterGoesOn(ts, table.value.1);
    }
  }

  /** ALTER and something other than USER behind it. */
  predicate AltersOther(ts: seq<Token>, p: nat) {
    One(ts, p, Word(ALTER)) && p + 1 < |ts| && ts[p + 1].kind != Word(USER)
  }

  lemma AlterGoesOn(ts: seq<Token>, p: nat)
    requires NumbersParse(ts) && Sees(ts, p, Word(ALTER))
    ensures Alter(ts, p).Trapped? <==> AltersOther(ts, p)
  {
    hide Clauses, NumbersParse;
    ClausesGoOn(ts, p + 4);
  }

  lemma ShortGoesOn(ts: seq<Token>, p: nat)
    ensures !Drop(ts, p).Trapped? && !Create(ts, p).Trapped? && !Use(ts, p).Trapped?
  {
    hide ColumnDefs;
    DefsGoOn(ts, p + 4);
  }

  lemma {:induction false} NamesGoOn(ts: seq<Token>, p: nat)
    ensures !Names(ts, p).Trapped?
    decreases |ts| - p
  {
    if Sees(ts, p + 1, Comma) {
      NamesGoOn(ts, p + 2);
    }
  }

  lemma {:induction false} DefsGoOn(ts: seq<Token>, p: nat)
    ensures !ColumnDefs(ts, p).Trapped?
    decreases |ts| - p
  {
    if Sees(ts, p + 2, Comma) {
      DefsGoOn(ts, p + 3);
    }
  }

  lemma StmtGoesOn(ts: seq<Token>, p: nat)
    requires NumbersParse(ts)
    ensures Statement(ts, p).Trapped? <==> AltersOther(ts, p)
  {
    hide Statement, Delete, Insert, Update, Drop, Create, Use, Alter, NumbersParse, Expression;
    if StartsOther(ts, p) {
      DispatchOther(ts, p);
      ExprGoesOn(ts, p);
    } else if p < |ts| {
      Dispatch(ts, p);
      ShortGoesOn(ts, p);
      match ts[p].kind.keyword
      case DELETE => DeleteGoesOn(ts, p);
      case INSERT => InsertGoesOn(ts, p);
      case UPDATE => UpdateGoesOn(ts, p);
      case ALTER => AlterGoesOn(ts, p);
      case _ =>
    } else {
      NothingThere(ts, p);
    }
  }

  lemma NothingThere(ts: seq<Token>, p: nat)
    requires p >= |ts|
    ensures Statement(ts, p) == Failed
  {
  }

  /** From p on the tokens are a writing of some statements, and behind those is ALTER with another word than USER. */
  ghost predicate AltersAfter(stmts: seq<Stmt>, ts: seq<Token>, p: nat)
    decreases |stmts|
  {
    if stmts == [] then AltersOther(ts, p)
    else exists q: nat :: StmtAt(stmts[0], ts, p, q) && AltersAfter(stmts[1..], ts, q)
  }

  lemma {:induction false} StopFound(ts: seq<Token>, p: nat) returns (stmts: seq<Stmt>)
    requires p <= |ts| && NumbersParse(ts) && Statements(ts, p).Trapped?
    ensures AltersAfter(stmts, ts, p)
    decreases |ts| - p
  {
    hide Statement, StmtAt, NumbersParse;
    StmtGoesOn(ts, p);
    stmts := [];
    if Statement(ts, p).Done? {
      var (s, q) := Statement(ts, p).value;
      StmtIsWriting(ts, p);
      var rest := StopFound(ts, q);
      stmts := [s] + rest;
      assert stmts[1..] == rest;
      assert StmtAt(s, ts, p, q) && AltersAfter(stmts[1..], ts, q);
    }
  }

  lemma {:induction false} StopReached(stmts: seq<Stmt>, ts: seq<Token>, p: nat)
    requires p <= |ts| && NumbersParse(ts) && AltersAfter(stmts, ts, p)
    ensures Statements(ts, p).Trapped?
    decreases |stmts|
  {
    hide Statement, StmtAt, NumbersParse, Stops;
    if stmts == [] {
      StmtGoesOn(ts, p);
    } else {
      var q: nat :| StmtAt(stmts[0], ts, p, q) && AltersAfter(stmts[1..], ts, q);
      StmtStarts(stmts[0], ts, p, q);
      if stmts[1..] == [] {
        KeywordStops(ts, q);
      } else {
        var r: nat :| StmtAt(stmts[1..][0], ts, q, r) && AltersAfter(stmts[1..][1..], ts, r);
        StmtStarts(stmts[1], ts, q, r);
      }
      StmtParsed(stmts[0], ts, p, q);
      StopReached(stmts[1..], ts, q);
    }
  }

  /** The server stops exactly at ALTER with another word than USER behind statements that can be parsed. */
  lemma QueryStopsIff(ts: seq<Token>)
    requires NumbersParse(ts)
    ensures Statements(ts, 0) == Trapped <==> exists stmts :: AltersAfter(stmts, ts, 0)
  {
    hide Statements, AltersAfter, NumbersParse;
    if Statements(ts, 0).Trapped? {
      var stmts := StopFound(ts, 0);
    }
    if exists stmts :: AltersAfter(stmts, ts, 0) {
      var stmts :| AltersAfter(stmts, ts, 0);
      StopReached(stmts, ts, 0);
    }
  }
}
