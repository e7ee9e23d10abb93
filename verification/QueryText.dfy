/**
 Lexer and parser together: which sources are queries, and what they ask for.
 */
module QueryText {
  import opened Ast
  import opened Grammar
  import opened IntText
  import Lexer
  import opened Sentences
  import opened SourceText
  import opened StatementGrammar
  import opened Tokens
  import opened Wrappers

  /** What a source is parsed as. */
  function Parsing(src: string): Outcome<seq<Stmt>> {
    Statements(Lexer.Lex(src, 0), 0)
  }

  /** A source is parsed as a query exactly when it is a writing of tokens that are a writing of the query. */
  lemma SourceIff(src: string, stmts: seq<Stmt>)
    ensures Parsing(src) == Done(stmts) <==> exists ts :: Writing(src, 0, ts) && QueryAt(stmts, ts, 0)
  {
    hide Lexer.Lex, Statements, Writing, QueryAt;
    var tokens := Lexer.Lex(src, 0);
    LexIff(src, tokens);
    QueryIff(tokens, stmts);
    forall ts | Writing(src, 0, ts)
      ensures ts == tokens
    {
      LexIff(src, ts);
    }
  }

  lemma {:induction false} WrittenNumbersParse(src: string, p: nat, ts: seq<Token>)
    requires Writing(src, p, ts)
    ensures NumbersParse(ts)
    decreases |ts|
  {
    hide Gap, LastGap, TokenAt, Parsed;
    if ts != [] {
      var q: nat, e: nat :| Gap(src, p, q) && TokenAt(src, q, e, ts[0]) && Writing(src, e, ts[1..]);
      WrittenNumbersParse(src, e, ts[1..]);
      if ts[0].kind == IntegerText {
        NumberParses(src, q, e, ts[0]);
      }
      forall i | 0 <= i < |ts| && ts[i].kind == IntegerText
        ensures Parsed(ts[i].text).Some?
      {
        assert i > 0 ==> ts[i] == ts[1..][i - 1];
      }
    }
  }

  lemma NumberParses(src: string, q: nat, e: nat, t: Token)
    requires TokenAt(src, q, e, t) && t.kind == IntegerText
    ensures Parsed(t.text).Some?
  {
    assert forall i :: 0 <= i < |t.text| ==> t.text[i] == src[q + i];
  }

  /** A source stops the server exactly when it is statements and behind them ALTER with another word than USER. */
  lemma SourceStopsIff(src: string)
    ensures Parsing(src) == Trapped <==> exists ts, stmts :: Writing(src, 0, ts) && AltersAfter(stmts, ts, 0)
  {
    hide Lexer.Lex, Statements, Writing, AltersAfter, NumbersParse;
    var tokens := Lexer.Lex(src, 0);
    LexIff(src, tokens);
    WrittenNumbersParse(src, 0, tokens);
    QueryStopsIff(tokens);
    if Parsing(src).Trapped? {
      var stmts :| AltersAfter(stmts, tokens, 0);
      assert Writing(src, 0, tokens) && AltersAfter(stmts, tokens, 0);
    }
    forall ts | Writing(src, 0, ts)
      ensures ts == tokens
    {
      LexIff(src, ts);
    }
  }

  // ---------- Printed queries as text ----------

  /** Names are words other than keywords, and strings can be quoted. */
  ghost predicate LegalExpr(e: Expr)
    decreases e, 0
  {
    match e
    case StringLit(s) => LegalString(s)
    case Ident(name) => LegalName(name)
    case Call(fn, args) => LegalExpr(fn) && LegalExprs(args)
    case Binary(_, lhs, rhs) => LegalExpr(lhs) && LegalExpr(rhs)
    case Select(exprs, table) => LegalExprs(exprs) && LegalExpr(table)
    case _ => true
  }

  ghost predicate LegalExprs(es: seq<Expr>)
    decreases es, 1
  {
    forall i :: 0 <= i < |es| ==> LegalExpr(es[i])
  }

  ghost predicate LegalClauses(cs: seq<SetClause>) {
    forall i :: 0 <= i < |cs| ==> LegalName(cs[i].name) && LegalExpr(cs[i].value)
  }

  ghost predicate LegalStmt(s: Stmt) {
    match s
    case ExprStmt(e) => LegalExpr(e)
    case InsertStmt(name, columns, rows) =>
      && LegalName(name) && (forall i :: 0 <= i < |columns| ==> LegalName(columns[i]))
      && forall i :: 0 <= i < |rows| ==> LegalExprs(rows[i])
    case UpdateStmt(table, sets, filter) =>
      LegalExpr(table) && LegalClauses(sets) && (filter.Some? ==> LegalExpr(filter.value))
    case DeleteStmt(table, filter) => LegalExpr(table) && (filter.Some? ==> LegalExpr(filter.value))
    case UseStmt(name) => LegalName(name)
    case DropStmt(_, name) => LegalName(name)
    case CreateDatabaseStmt(name) => LegalName(name)
    case CreateTableStmt(name, defs) =>
      LegalName(name) && forall i :: 0 <= i < |defs| ==> LegalName(defs[i].0) && LegalName(defs[i].1)
    case CreateUserStmt(name) => LegalName(name)
    case AlterUserStmt(name, clauses) => LegalName(name) && LegalClauses(clauses)
  }

  lemma LegalJoin(a: seq<Token>, b: seq<Token>)
    requires AllLegal(a) && AllLegal(b)
    ensures AllLegal(a + b)
  {
    hide Legal;
  }

  /** Keywords and signs as the printer writes them. */
  lemma FixedLegal()
    ensures forall text :: LegalName(text) ==> AllLegal(Id(text))
    ensures AllLegal(Tok(Comma, ",")) && AllLegal(Tok(LParen, "(")) && AllLegal(Tok(RParen, ")")) && AllLegal(End())
    ensures AllLegal(Tok(Asterisk, "*")) && AllLegal(Tok(Equals, "="))
    ensures forall op :: AllLegal(OperatorToken(op))
  {
    hide LegalName;
  }

  lemma KeywordLegal(k: Keyword, text: string)
    requires text == Lexer.Spelling(k)
    ensures AllLegal(Tok(Word(k), text))
  {
    hide Lexer.Spelling;
    KeywordNotEmpty(k);
    forall i | 0 <= i < |text|
      ensures WordChar(text[i]) && !DigitChar(text[i])
    {
      KeywordIsUpper(k, i);
    }
  }

  lemma KeywordNotEmpty(k: Keyword)
    ensures Lexer.Spelling(k) != ""
  {
  }

  lemma {:induction false} PrintedExprLegal(e: Expr)
    requires Printable(e) && LegalExpr(e)
    ensures AllLegal(PrintExpr(e))
    decreases e, 1
  {
    hide AllLegal, PrintList, PrintArgs, LegalName, LegalString, Tok, OperatorToken, Decimal;
    FixedLegal();
    match e
    case IntegerLit(i) => NumberLegal(i);
    case StringLit(s) => StringLegal(s);
    case TrueLit => KeywordLegal(TRUE, "TRUE");
    case FalseLit => KeywordLegal(FALSE, "FALSE");
    case NullLit => KeywordLegal(NULL, "NULL");
    case Ident(name) => NameLegal(name);
    case Star =>
    case Call(fn, args) =>
      PrintedExprLegal(fn);
      PrintedArgsLegal(args);
      LegalJoin(PrintExpr(fn), Tok(LParen, "("));
      LegalJoin(PrintExpr(fn) + Tok(LParen, "("), PrintArgs(args));
    case Binary(op, lhs, rhs) =>
      PrintedExprLegal(lhs);
      PrintedExprLegal(rhs);
      LegalJoin(PrintExpr(lhs), OperatorToken(op));
      LegalJoin(PrintExpr(lhs) + OperatorToken(op), PrintExpr(rhs));
    case Select(exprs, table) => PrintedSelectLegal(e);
  }

  lemma {:induction false} PrintedSelectLegal(e: Expr)
    requires e.Select? && Printable(e) && LegalExpr(e)
    ensures AllLegal(PrintExpr(e))
    decreases e, 0
  {
    hide AllLegal, PrintList, LegalName, Tok, End;
    FixedLegal();
    var select, list := Tok(Word(SELECT), "SELECT"), PrintList(e.exprs);
    var from, table := Tok(Word(FROM), "FROM"), PrintExpr(e.table);
    KeywordLegal(SELECT, "SELECT");
    KeywordLegal(FROM, "FROM");
    PrintedListLegal(e.exprs);
    PrintedExprLegal(e.table);
    LegalJoin(select, list);
    LegalJoin(select + list, from);
    LegalJoin(select + list + from, table);
    SemicolonLegal();
    LegalJoin(select + list + from + table, Tok(Semicolon, ";"));
  }

  lemma SemicolonLegal()
    ensures AllLegal(Tok(Semicolon, ";"))
  {
    FixedLegal();
  }

  lemma NumberLegal(n: nat)
    ensures AllLegal(Tok(IntegerText, Decimal(n)))
  {
    hide Decimal;
  }

  lemma StringLegal(s: string)
    requires LegalString(s)
    ensures AllLegal(Tok(StringText, s))
  {
  }

  lemma NameLegal(name: string)
    requires LegalName(name)
    ensures AllLegal(Tok(Identifier, name))
  {
    hide LegalName;
  }

  lemma {:induction false} PrintedListLegal(es: seq<Expr>)
    requires es != [] && AllPrintable(es) && LegalExprs(es)
    ensures AllLegal(PrintList(es))
    decreases es, 1
  {
    hide AllLegal, Tok, LegalName, Printable, PrintExpr, LegalExpr;
    FixedLegal();
    PrintedExprLegal(es[0]);
    if |es| > 1 {
      PrintedListLegal(es[1..]);
      LegalJoin(PrintExpr(es[0]), Tok(Comma, ","));
      LegalJoin(PrintExpr(es[0]) + Tok(Comma, ","), PrintList(es[1..]));
    }
  }

  lemma {:induction false} PrintedArgsLegal(es: seq<Expr>)
    requires AllPrintable(es) && LegalExprs(es)
    ensures AllLegal(PrintArgs(es))
    decreases es, 1
  {
    hide AllLegal, Tok, LegalName, Printable, PrintExpr, LegalExpr;
    FixedLegal();
    if es != [] {
      PrintedExprLegal(es[0]);
      LegalJoin(PrintExpr(es[0]), Tok(RParen, ")"));
      PrintedArgsLegal(es[1..]);
      LegalJoin(PrintExpr(es[0]), Tok(Comma, ","));
      LegalJoin(PrintExpr(es[0]) + Tok(Comma, ","), PrintArgs(es[1..]));
    }
  }

  lemma {:induction false} PrintedNamesLegal(names: seq<string>)
    requires names != [] && forall i :: 0 <= i < |names| ==> LegalName(names[i])
    ensures AllLegal(PrintNames(names))
    decreases |names|
  {
    hide AllLegal, Tok, LegalName;
    FixedLegal();
    if |names| > 1 {
      PrintedNamesLegal(names[1..]);
      LegalJoin(Id(names[0]), Tok(Comma, ","));
      LegalJoin(Id(names[0]) + Tok(Comma, ","), PrintNames(names[1..]));
    }
  }

  lemma {:induction false} PrintedDefsLegal(defs: seq<(string, string)>)
    requires defs != [] && forall i :: 0 <= i < |defs| ==> LegalName(defs[i].0) && LegalName(defs[i].1)
    ensures AllLegal(PrintDefs(defs))
    decreases |defs|
  {
    hide AllLegal, Tok, LegalName;
    FixedLegal();
    LegalJoin(Id(defs[0].0), Id(defs[0].1));
    if |defs| > 1 {
      PrintedDefsLegal(defs[1..]);
      LegalJoin(Id(defs[0].0) + Id(defs[0].1), Tok(Comma, ","));
      LegalJoin(Id(defs[0].0) + Id(defs[0].1) + Tok(Comma, ","), PrintDefs(defs[1..]));
    }
  }

  lemma PrintedClauseLegal(c: SetClause)
    requires Printable(c.value) && LegalName(c.name) && LegalExpr(c.value)
    ensures AllLegal(PrintClause(c))
  {
    hide AllLegal, Tok, LegalName, PrintExpr;
    FixedLegal();
    PrintedExprLegal(c.value);
    LegalJoin(Id(c.name), Tok(Equals, "="));
    LegalJoin(Id(c.name) + Tok(Equals, "="), PrintExpr(c.value));
  }

  lemma {:induction false} PrintedClausesLegal(cs: seq<SetClause>)
    requires cs != [] && PrintableClauses(cs) && LegalClauses(cs)
    ensures AllLegal(PrintClauses(cs))
    decreases |cs|
  {
    hide AllLegal, Tok, LegalName, PrintClause, LegalExpr, Printable;
    FixedLegal();
    PrintedClauseLegal(cs[0]);
    if |cs| > 1 {
      PrintedClausesLegal(cs[1..]);
      LegalJoin(PrintClause(cs[0]), Tok(Comma, ","));
      LegalJoin(PrintClause(cs[0]) + Tok(Comma, ","), PrintClauses(cs[1..]));
    }
  }

  lemma PrintedRowLegal(row: seq<Expr>)
    requires row != [] && AllPrintable(row) && LegalExprs(row)
    ensures AllLegal(PrintRow(row))
  {
    hide AllLegal, Tok, LegalName, PrintList, LegalExpr;
    FixedLegal();
    PrintedListLegal(row);
    LegalJoin(Tok(LParen, "("), PrintList(row));
    LegalJoin(Tok(LParen, "(") + PrintList(row), Tok(RParen, ")"));
  }

  lemma {:induction false} PrintedRowsLegal(rows: seq<seq<Expr>>)
    requires rows != [] && PrintableRows(rows) && forall i :: 0 <= i < |rows| ==> LegalExprs(rows[i])
    ensures AllLegal(PrintRows(rows))
    decreases |rows|
  {
    hide AllLegal, Tok, LegalName, PrintRow, LegalExprs, AllPrintable;
    FixedLegal();
    PrintedRowLegal(rows[0]);
    if |rows| > 1 {
      PrintedRowsLegal(rows[1..]);
      LegalJoin(PrintRow(rows[0]), Tok(Comma, ","));
      LegalJoin(PrintRow(rows[0]) + Tok(Comma, ","), PrintRows(rows[1..]));
    }
  }

  lemma PrintedFilterLegal(f: Option<Expr>)
    requires PrintableFilter(f) && (f.Some? ==> LegalExpr(f.value))
    ensures AllLegal(PrintFilter(f) + End())
  {
    hide AllLegal, Tok, LegalName, End, LegalExpr, Printable, PrintExpr;
    FixedLegal();
    NoTokensLegal();
    KeywordLegal(WHERE, "WHERE");
    if f.Some? {
      PrintedExprLegal(f.value);
      LegalJoin(Key(WHERE, "WHERE"), PrintExpr(f.value));
    }
    LegalJoin(PrintFilter(f), End());
  }

  lemma NoTokensLegal()
    ensures AllLegal([])
  {
  }

  /** A keyword and legal tokens behind it. */
  lemma KeyJoin(k: Keyword, text: string, rest: seq<Token>)
    requires text == Lexer.Spelling(k) && AllLegal(rest)
    ensures AllLegal(Key(k, text) + rest)
  {
    hide AllLegal, Lexer.Spelling;
    KeywordLegal(k, text);
    LegalJoin(Key(k, text), rest);
  }

  lemma PrintedInsertLegal(s: Stmt)
    requires s.InsertStmt? && PrintableStmt(s) && LegalStmt(s)
    ensures AllLegal(PrintStmt(s))
  {
    hide AllLegal, Tok, Id, Key, LegalName, PrintNames, PrintRows, End, LegalExprs, PrintableRows;
    FixedLegal();
    PrintedNamesLegal(s.columns);
    PrintedRowsLegal(s.rows);
    var values := PrintRows(s.rows) + End();
    LegalJoin(PrintRows(s.rows), End());
    KeyJoin(VALUES, "VALUES", values);
    var tail := Tok(RParen, ")") + (Key(VALUES, "VALUES") + values);
    LegalJoin(Tok(RParen, ")"), Key(VALUES, "VALUES") + values);
    LegalJoin(PrintNames(s.columns), tail);
    LegalJoin(Tok(LParen, "("), PrintNames(s.columns) + tail);
    LegalJoin(Id(s.name), Tok(LParen, "(") + (PrintNames(s.columns) + tail));
    KeyJoin(INTO, "INTO", Id(s.name) + (Tok(LParen, "(") + (PrintNames(s.columns) + tail)));
    KeyJoin(INSERT, "INSERT", PrintInsert(s.name, s.columns, s.rows));
  }

  lemma PrintedUpdateLegal(s: Stmt)
    requires s.UpdateStmt? && PrintableStmt(s) && LegalStmt(s)
    ensures AllLegal(PrintStmt(s))
  {
    hide AllLegal, Tok, Key, LegalName, PrintClauses, PrintFilter, End, PrintExpr, LegalExpr, Printable, LegalClauses;
    PrintedExprLegal(s.table);
    PrintedClausesLegal(s.sets);
    PrintedFilterLegal(s.filter);
    var rest := PrintFilter(s.filter) + End();
    LegalJoin(PrintClauses(s.sets), rest);
    KeyJoin(SET, "SET", PrintClauses(s.sets) + rest);
    LegalJoin(PrintExpr(s.table), Key(SET, "SET") + (PrintClauses(s.sets) + rest));
    KeyJoin(UPDATE, "UPDATE", PrintUpdate(s.table, s.sets, s.filter));
  }

  lemma PrintedDeleteLegal(s: Stmt)
    requires s.DeleteStmt? && PrintableStmt(s) && LegalStmt(s)
    ensures AllLegal(PrintStmt(s))
  {
    hide AllLegal, Tok, Key, LegalName, PrintFilter, End, PrintExpr, LegalExpr, Printable;
    PrintedExprLegal(s.table);
    PrintedFilterLegal(s.filter);
    LegalJoin(PrintExpr(s.table), PrintFilter(s.filter) + End());
    KeyJoin(FROM, "FROM", PrintExpr(s.table) + (PrintFilter(s.filter) + End()));
    KeyJoin(DELETE, "DELETE", PrintDelete(s.table, s.filter));
  }

  lemma PrintedCreateTableLegal(s: Stmt)
    requires s.CreateTableStmt? && PrintableStmt(s) && LegalStmt(s)
    ensures AllLegal(PrintStmt(s))
  {
    hide AllLegal, Tok, Id, Key, LegalName, PrintDefs, End;
    FixedLegal();
    PrintedDefsLegal(s.columnTypes);
    var rest := Tok(RParen, ")") + End();
    LegalJoin(Tok(RParen, ")"), End());
    LegalJoin(PrintDefs(s.columnTypes), rest);
    LegalJoin(Tok(LParen, "("), PrintDefs(s.columnTypes) + rest);
    LegalJoin(Id(s.name), Tok(LParen, "(") + (PrintDefs(s.columnTypes) + rest));
    KeyJoin(TABLE, "TABLE", Id(s.name) + (Tok(LParen, "(") + (PrintDefs(s.columnTypes) + rest)));
    KeyJoin(CREATE, "CREATE", PrintCreateTable(s.name, s.columnTypes));
  }

  lemma PrintedAlterLegal(s: Stmt)
    requires s.AlterUserStmt? && PrintableStmt(s) && LegalStmt(s)
    ensures AllLegal(PrintStmt(s))
  {
    hide AllLegal, Tok, Id, Key, LegalName, PrintClauses, End, LegalClauses;
    FixedLegal();
    PrintedClausesLegal(s.clauses);
    var rest := PrintClauses(s.clauses) + End();
    LegalJoin(PrintClauses(s.clauses), End());
    KeyJoin(SET, "SET", rest);
    LegalJoin(Id(s.name), Key(SET, "SET") + rest);
    KeyJoin(USER, "USER", Id(s.name) + (Key(SET, "SET") + rest));
    KeyJoin(ALTER, "ALTER", PrintAlter(s.name, s.clauses));
  }

  lemma PrintedStmtLegal(s: Stmt)
    requires PrintableStmt(s) && LegalStmt(s)
    ensures AllLegal(PrintStmt(s))
  {
    hide AllLegal, LegalName, Tok, Id, Key, End, PrintInsert, PrintUpdate, PrintDelete, PrintCreateTable, PrintAlter, PrintExpr;
    hide LegalExpr, Printable, LegalClauses;
    match s
    case ExprStmt(e) => PrintedExprLegal(e);
    case InsertStmt(_, _, _) => PrintedInsertLegal(s);
    case UpdateStmt(_, _, _) => PrintedUpdateLegal(s);
    case DeleteStmt(_, _) => PrintedDeleteLegal(s);
    case CreateTableStmt(_, _) => PrintedCreateTableLegal(s);
    case AlterUserStmt(_, _) => PrintedAlterLegal(s);
    case _ => PrintedShortLegal(s);
  }

  lemma PrintedShortLegal(s: Stmt)
    requires s.UseStmt? || s.DropStmt? || s.CreateDatabaseStmt? || s.CreateUserStmt?
    requires LegalStmt(s)
    ensures AllLegal(PrintStmt(s))
  {
    hide AllLegal, LegalName, Tok, Id, Key, End;
    FixedLegal();
    var rest := Id(s.name) + End();
    LegalJoin(Id(s.name), End());
    KeyJoin(TABLE, "TABLE", rest);
    KeyJoin(DATABASE, "DATABASE", rest);
    KeyJoin(USER, "USER", rest);
    match s
    case UseStmt(_) => KeyJoin(USE, "USE", rest);
    case DropStmt(DropTable, _) => KeyJoin(DROP, "DROP", Key(TABLE, "TABLE") + rest);
    case DropStmt(DropDatabase, _) => KeyJoin(DROP, "DROP", Key(DATABASE, "DATABASE") + rest);
    case CreateDatabaseStmt(_) => KeyJoin(CREATE, "CREATE", Key(DATABASE, "DATABASE") + rest);
    case CreateUserStmt(_) => KeyJoin(CREATE, "CREATE", Key(USER, "USER") + rest);
  }

  lemma {:induction false} PrintedQueryLegal(stmts: seq<Stmt>)
    requires forall i :: 0 <= i < |stmts| ==> PrintableStmt(stmts[i]) && LegalStmt(stmts[i])
    ensures AllLegal(PrintQuery(stmts))
    decreases |stmts|
  {
    hide AllLegal, PrintStmt, PrintableStmt, LegalStmt;
    NoTokensLegal();
    if stmts != [] {
      PrintedStmtLegal(stmts[0]);
      PrintedQueryLegal(stmts[1..]);
      LegalJoin(PrintStmt(stmts[0]), PrintQuery(stmts[1..]));
    }
  }

  /**
   Lexer and parser together undo writing a query as text, with any white space and comments between its tokens. The
   names in it have to be words that are not keywords, and no string may hold both kinds of quotes.
   */
  lemma QueryTextUndo(stmts: seq<Stmt>, gaps: seq<string>)
    requires forall i :: 0 <= i < |stmts| ==> PrintableStmt(stmts[i]) && LegalStmt(stmts[i])
    requires Gaps(PrintQuery(stmts), gaps)
    ensures Parsing(Source(PrintQuery(stmts), gaps)) == Done(stmts)
  {
    hide PrintQuery, Source, Lexer.Lex, Statements, PrintableStmt, LegalStmt, AllLegal, Gap, LastGap, Written;
    var ts := PrintQuery(stmts);
    PrintedQueryLegal(stmts);
    LexUndo(ts, gaps);
    assert ts[0..] == ts;
    QueryUndo(stmts, ts, 0);
  }
}
