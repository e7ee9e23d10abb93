/**
 Statements and queries: what the statement parsers of `src/SQL/Parser.cpp` accept, and the printer they undo.
 */
module StatementGrammar {
  import opened Ast
  import opened Grammar
  import opened Tokens
  import opened Wrappers

  // ---------- Lists ----------

  /** Names with commas between them, at least one. */
  function Names(ts: seq<Token>, p: nat): (r: Parse<seq<string>>)
    ensures r.Done? ==> p < r.value.1 <= |ts|
    decreases |ts| - p
  {
    if !Sees(ts, p, Identifier) then Failed
    else if Sees(ts, p + 1, Comma) then Prepend(ts[p].text, Names(ts, p + 2))
    else Done(([ts[p].text], p + 1))
  }

  /** Columns with their types. */
  function ColumnDefs(ts: seq<Token>, p: nat): (r: Parse<seq<(string, string)>>)
    ensures r.Done? ==> p < r.value.1 <= |ts|
    decreases |ts| - p
  {
    if !Sees(ts, p, Identifier) || !Sees(ts, p + 1, Identifier) then Failed
    else if Sees(ts, p + 2, Comma) then Prepend((ts[p].text, ts[p + 1].text), ColumnDefs(ts, p + 3))
    else Done(([(ts[p].text, ts[p + 1].text)], p + 2))
  }

  /** `set_clause` */
  function Clause(ts: seq<Token>, p: nat): (r: Parse<SetClause>)
    ensures r.Done? ==> p < r.value.1 <= |ts|
  {
    if !Sees(ts, p, Identifier) || !Sees(ts, p + 1, Equals) then Failed
    else match Expression(ts, p + 2)
      case Failed => Failed
      case Trapped => Trapped
      case Done((e, q)) => Done((SetClause(ts[p].text, e), q))
  }

  function Clauses(ts: seq<Token>, p: nat): (r: Parse<seq<SetClause>>)
    ensures r.Done? ==> p < r.value.1 <= |ts|
    decreases |ts| - p
  {
    match Clause(ts, p)
    case Failed => Failed
    case Trapped => Trapped
    case Done((c, q)) => if Sees(ts, q, Comma) then Prepend(c, Clauses(ts, q + 1)) else Done(([c], q))
  }

  /** One row of values in parentheses. */
  function RowOfValues(ts: seq<Token>, p: nat): (r: Parse<seq<Expr>>)
    ensures r.Done? ==> p < r.value.1 <= |ts|
  {
    if !Sees(ts, p, LParen) then Failed
    else match ExprList(ts, p + 1)
      case Failed => Failed
      case Trapped => Trapped
      case Done((es, q)) => if Sees(ts, q, RParen) then Done((es, q + 1)) else Failed
  }

  function Rows(ts: seq<Token>, p: nat): (r: Parse<seq<seq<Expr>>>)
    ensures r.Done? ==> p < r.value.1 <= |ts|
    decreases |ts| - p
  {
    match RowOfValues(ts, p)
    case Failed => Failed
    case Trapped => Trapped
    case Done((row, q)) => if Sees(ts, q, Comma) then Prepend(row, Rows(ts, q + 1)) else Done(([row], q))
  }

  /** An optional filter. */
  function Filter(ts: seq<Token>, p: nat): (r: Parse<Option<Expr>>)
    requires p <= |ts|
    ensures r.Done? ==> p <= r.value.1 <= |ts|
  {
    if !Sees(ts, p, Word(WHERE)) then Done((None, p))
    else match Expression(ts, p + 1)
      case Failed => Failed
      case Trapped => Trapped
      case Done((e, q)) => Done((Some(e), q))
  }

  // ---------- Statements ----------

  /** Every statement but an expression ends with a semicolon of its own. */
  function Closed(ts: seq<Token>, s: Stmt, p: nat): Parse<Stmt> {
    if Sees(ts, p, Semicolon) then Done((s, p + 1)) else Failed
  }

  /** INSERT; when the name of the table is missing, the parser notes an error and goes on with an empty name. */
  function Insert(ts: seq<Token>, p: nat): (r: Parse<Stmt>)
    ensures r.Done? ==> p < r.value.1 <= |ts|
  {
    if !Sees(ts, p + 1, Word(INTO)) then Failed
    else if Sees(ts, p + 2, Identifier) then InsertRest(ts, ts[p + 2].text, p + 3)
    else InsertRest(ts, "", p + 2)
  }

  function InsertRest(ts: seq<Token>, name: string, q: nat): (r: Parse<Stmt>)
    ensures r.Done? ==> q < r.value.1 <= |ts|
  {
    if !Sees(ts, q, LParen) then Failed
    else match Names(ts, q + 1)
      case Failed => Failed
      case Trapped => Trapped
      case Done((columns, c)) => (
        if !Sees(ts, c, RParen) || !Sees(ts, c + 1, Word(VALUES)) then Failed
        else match Rows(ts, c + 2)
          case Failed => Failed
          case Trapped => Trapped
          case Done((rows, s)) => Closed(ts, InsertStmt(name, columns, rows), s)
      )
  }

  function Update(ts: seq<Token>, p: nat): (r: Parse<Stmt>)
    ensures r.Done? ==> p < r.value.1 <= |ts|
  {
    match Expression(ts, p + 1)
    case Failed => Failed
    case Trapped => Trapped
    case Done((table, q)) => (
      if !Sees(ts, q, Word(SET)) then Failed
      else match Clauses(ts, q + 1)
        case Failed => Failed
        case Trapped => Trapped
        case Done((sets, c)) => (
          match Filter(ts, c)
          case Failed => Failed
          case Trapped => Trapped
          case Done((filter, s)) => Closed(ts, UpdateStmt(table, sets, filter), s)
        )
    )
  }

  function Delete(ts: seq<Token>, p: nat): (r: Parse<Stmt>)
    ensures r.Done? ==> p < r.value.1 <= |ts|
  {
    if !Sees(ts, p + 1, Word(FROM)) then Failed
    else match Expression(ts, p + 2)
      case Failed => Failed
      case Trapped => Trapped
      case Done((table, q)) => (
        match Filter(ts, q)
        case Failed => Failed
        case Trapped => Trapped
        case Done((filter, s)) => Closed(ts, DeleteStmt(table, filter), s)
      )
  }

  function Drop(ts: seq<Token>, p: nat): (r: Parse<Stmt>)
    ensures r.Done? ==> p < r.value.1 <= |ts|
  {
    if !Sees(ts, p + 2, Identifier) then Failed
    else if Sees(ts, p + 1, Word(TABLE)) then Closed(ts, DropStmt(DropTable, ts[p + 2].text), p + 3)
    else if Sees(ts, p + 1, Word(DATABASE)) then Closed(ts, DropStmt(DropDatabase, ts[p + 2].text), p + 3)
    else Failed
  }

  function Create(ts: seq<Token>, p: nat): (r: Parse<Stmt>)
    ensures r.Done? ==> p < r.value.1 <= |ts|
  {
    if !Sees(ts, p + 2, Identifier) then Failed
    else if Sees(ts, p + 1, Word(DATABASE)) then Closed(ts, CreateDatabaseStmt(ts[p + 2].text), p + 3)
    else if Sees(ts, p + 1, Word(USER)) then Closed(ts, CreateUserStmt(ts[p + 2].text), p + 3)
    else if Sees(ts, p + 1, Word(TABLE)) then CreateTableRest(ts, ts[p + 2].text, p + 3)
    else Failed
  }

  function CreateTableRest(ts: seq<Token>, name: string, q: nat): (r: Parse<Stmt>)
    ensures r.Done? ==> q < r.value.1 <= |ts|
  {
    if !Sees(ts, q, LParen) then Failed
    else match ColumnDefs(ts, q + 1)
      case Failed => Failed
      case Trapped => Trapped
      case Done((defs, c)) => if Sees(ts, c, RParen) then Closed(ts, CreateTableStmt(name, defs), c + 1) else Failed
  }

  /** ALTER; a target other than USER stops the server. */
  function Alter(ts: seq<Token>, p: nat): (r: Parse<Stmt>)
    ensures r.Done? ==> p < r.value.1 <= |ts|
  {
    if p + 1 >= |ts| then Failed
    else if ts[p + 1].kind != Word(USER) then Trapped
    else if !Sees(ts, p + 2, Identifier) || !Sees(ts, p + 3, Word(SET)) then Failed
    else match Clauses(ts, p + 4)
      case Failed => Failed
      case Trapped => Trapped
      case Done((clauses, q)) => Closed(ts, AlterUserStmt(ts[p + 2].text, clauses), q)
  }

  function Use(ts: seq<Token>, p: nat): (r: Parse<Stmt>)
    ensures r.Done? ==> p < r.value.1 <= |ts|
  {
    if Sees(ts, p + 1, Identifier) then Closed(ts, UseStmt(ts[p + 1].text), p + 2) else Failed
  }

  /** `Parser::stmt`; an expression is a statement without a semicolon, and SELECT brings its own. */
  function Statement(ts: seq<Token>, p: nat): (r: Parse<Stmt>)
    ensures r.Done? ==> p < r.value.1 <= |ts|
  {
    if p >= |ts| then Failed
    else match ts[p].kind
      case Word(DELETE) => Delete(ts, p)
      case Word(INSERT) => Insert(ts, p)
      case Word(UPDATE) => Update(ts, p)
      case Word(DROP) => Drop(ts, p)
      case Word(CREATE) => Create(ts, p)
      case Word(USE) => Use(ts, p)
      case Word(ALTER) => Alter(ts, p)
      case _ => (
        match Expression(ts, p)
        case Failed => Failed
        case Trapped => Trapped
        case Done((e, q)) => Done((ExprStmt(e), q))
      )
  }

  /** `Parser::query` */
  function Statements(ts: seq<Token>, p: nat): Outcome<seq<Stmt>>
    requires p <= |ts|
    decreases |ts| - p
  {
    if p == |ts| then Done([])
    else match Statement(ts, p)
      case Failed => Failed
      case Trapped => Trapped
      case Done((s, q)) => (
        match Statements(ts, q)
        case Failed => Failed
        case Trapped => Trapped
        case Done(rest) => Done([s] + rest)
      )
  }

  // ---------- Printing ----------

  function Key(k: Keyword, text: string): seq<Token> {
    Tok(Word(k), text)
  }

  function Id(name: string): seq<Token> {
    Tok(Identifier, name)
  }

  function PrintNames(names: seq<string>): seq<Token>
    requires names != []
  {
    if |names| == 1 then Id(names[0]) else Id(names[0]) + Tok(Comma, ",") + PrintNames(names[1..])
  }

  function PrintDefs(defs: seq<(string, string)>): seq<Token>
    requires defs != []
  {
    if |defs| == 1 then Id(defs[0].0) + Id(defs[0].1)
    else Id(defs[0].0) + Id(defs[0].1) + Tok(Comma, ",") + PrintDefs(defs[1..])
  }

  function PrintClause(c: SetClause): seq<Token>
    requires Printable(c.value)
  {
    Id(c.name) + Tok(Equals, "=") + PrintExpr(c.value)
  }

  function PrintClauses(cs: seq<SetClause>): seq<Token>
    requires cs != [] && PrintableClauses(cs)
  {
    if |cs| == 1 then PrintClause(cs[0]) else PrintClause(cs[0]) + Tok(Comma, ",") + PrintClauses(cs[1..])
  }

  function PrintRow(row: seq<Expr>): seq<Token>
    requires row != [] && AllPrintable(row)
  {
    Tok(LParen, "(") + PrintList(row) + Tok(RParen, ")")
  }

  function PrintRows(rows: seq<seq<Expr>>): seq<Token>
    requires rows != [] && PrintableRows(rows)
  {
    if |rows| == 1 then PrintRow(rows[0]) else PrintRow(rows[0]) + Tok(Comma, ",") + PrintRows(rows[1..])
  }

  function PrintFilter(f: Option<Expr>): seq<Token>
    requires PrintableFilter(f)
  {
    if f.Some? then Key(WHERE, "WHERE") + PrintExpr(f.value) else []
  }

  predicate PrintableClauses(cs: seq<SetClause>) {
    forall i :: 0 <= i < |cs| ==> Printable(cs[i].value)
  }

  predicate PrintableRows(rows: seq<seq<Expr>>) {
    forall i :: 0 <= i < |rows| ==> rows[i] != [] && AllPrintable(rows[i])
  }

  predicate PrintableFilter(f: Option<Expr>) {
    f.Some? ==> Printable(f.value)
  }

  predicate PrintableStmt(s: Stmt) {
    match s
    case ExprStmt(e) => Printable(e)
    case InsertStmt(_, columns, rows) => columns != [] && rows != [] && PrintableRows(rows)
    case UpdateStmt(table, sets, filter) =>
      Printable(table) && sets != [] && PrintableClauses(sets) && PrintableFilter(filter)
    case DeleteStmt(table, filter) => Printable(table) && PrintableFilter(filter)
    case CreateTableStmt(_, defs) => defs != []
    case AlterUserStmt(_, clauses) => clauses != [] && PrintableClauses(clauses)
    case _ => true
  }

  function PrintStmt(s: Stmt): (ts: seq<Token>)
    requires PrintableStmt(s)
    ensures ts != [] && (StartsExpr(ts[0].kind) || ts[0].kind.Word?)
  {
    match s
    case ExprStmt(e) => PrintExpr(e)
    case InsertStmt(name, columns, rows) => Key(INSERT, "INSERT") + PrintInsert(name, columns, rows)
    case UpdateStmt(table, sets, filter) => Key(UPDATE, "UPDATE") + PrintUpdate(table, sets, filter)
    case DeleteStmt(table, filter) => Key(DELETE, "DELETE") + PrintDelete(table, filter)
    case UseStmt(name) => Key(USE, "USE") + (Id(name) + End())
    case DropStmt(DropTable, name) => Key(DROP, "DROP") + (Key(TABLE, "TABLE") + (Id(name) + End()))
    case DropStmt(DropDatabase, name) => Key(DROP, "DROP") + (Key(DATABASE, "DATABASE") + (Id(name) + End()))
    case CreateDatabaseStmt(name) => Key(CREATE, "CREATE") + (Key(DATABASE, "DATABASE") + (Id(name) + End()))
    case CreateUserStmt(name) => Key(CREATE, "CREATE") + (Key(USER, "USER") + (Id(name) + End()))
    case CreateTableStmt(name, defs) => Key(CREATE, "CREATE") + PrintCreateTable(name, defs)
    case AlterUserStmt(name, clauses) => Key(ALTER, "ALTER") + PrintAlter(name, clauses)
  }

  function End(): seq<Token> {
    Tok(Semicolon, ";")
  }

  function PrintInsert(name: string, columns: seq<string>, rows: seq<seq<Expr>>): seq<Token>
    requires columns != [] && rows != [] && PrintableRows(rows)
  {
    Key(INTO, "INTO") + (Id(name) + (Tok(LParen, "(") + (PrintNames(columns)
      + (Tok(RParen, ")") + (Key(VALUES, "VALUES") + (PrintRows(rows) + End()))))))
  }

  function PrintUpdate(table: Expr, sets: seq<SetClause>, filter: Option<Expr>): seq<Token>
    requires Printable(table) && sets != [] && PrintableClauses(sets) && PrintableFilter(filter)
  {
    PrintExpr(table) + (Key(SET, "SET") + (PrintClauses(sets) + (PrintFilter(filter) + End())))
  }

  function PrintDelete(table: Expr, filter: Option<Expr>): seq<Token>
    requires Printable(table) && PrintableFilter(filter)
  {
    Key(FROM, "FROM") + (PrintExpr(table) + (PrintFilter(filter) + End()))
  }

  function PrintCreateTable(name: string, defs: seq<(string, string)>): seq<Token>
    requires defs != []
  {
    Key(TABLE, "TABLE") + (Id(name) + (Tok(LParen, "(") + (PrintDefs(defs) + (Tok(RParen, ")") + End()))))
  }

  function PrintAlter(name: string, clauses: seq<SetClause>): seq<Token>
    requires clauses != [] && PrintableClauses(clauses)
  {
    Key(USER, "USER") + (Id(name) + (Key(SET, "SET") + (PrintClauses(clauses) + End())))
  }

  function PrintQuery(stmts: seq<Stmt>): seq<Token>
    requires forall i :: 0 <= i < |stmts| ==> PrintableStmt(stmts[i])
  {
    if stmts == [] then [] else PrintStmt(stmts[0]) + PrintQuery(stmts[1..])
  }

  // ---------- Parsing undoes printing: lists ----------

  lemma AtOne(ts: seq<Token>, p: nat, kind: TokenType, text: string, rest: seq<Token>)
    requires At(ts, p, Tok(kind, text) + rest)
    ensures Sees(ts, p, kind) && ts[p].text == text && At(ts, p + 1, rest) && |Tok(kind, text) + rest| == 1 + |rest|
  {
    AtSplit(ts, p, Tok(kind, text), rest);
    AtFirst(ts, p, Tok(kind, text));
  }

  lemma AtLast(ts: seq<Token>, p: nat, kind: TokenType, text: string)
    requires At(ts, p, Tok(kind, text))
    ensures Sees(ts, p, kind) && ts[p].text == text
  {
    AtFirst(ts, p, Tok(kind, text));
  }

  /** What can follow a list or an expression inside a statement. */
  predicate Closes(ts: seq<Token>, p: nat) {
    p < |ts| && (ts[p].kind == Semicolon || ts[p].kind == RParen || ts[p].kind.Word?)
  }

  lemma ClosesStops(ts: seq<Token>, p: nat)
    requires Closes(ts, p) || Sees(ts, p, Comma)
    ensures Stops(ts, p) && (Closes(ts, p) ==> !Sees(ts, p, Comma))
  {
  }

  lemma {:induction false} NamesUndo(names: seq<string>, ts: seq<Token>, p: nat)
    requires names != [] && At(ts, p, PrintNames(names)) && Closes(ts, p + |PrintNames(names)|)
    ensures Names(ts, p) == Done((names, p + |PrintNames(names)|))
    decreases names
  {
    hide At;
    if |names| == 1 {
      AtLast(ts, p, Identifier, names[0]);
      assert names == [names[0]];
    } else {
      var rest := PrintNames(names[1..]);
      assert PrintNames(names) == Id(names[0]) + (Tok(Comma, ",") + rest);
      AtOne(ts, p, Identifier, names[0], Tok(Comma, ",") + rest);
      AtOne(ts, p + 1, Comma, ",", rest);
      NamesUndo(names[1..], ts, p + 2);
      assert names == [names[0]] + names[1..];
    }
  }

  lemma DefAt(d: (string, string), rest: seq<Token>, ts: seq<Token>, p: nat)
    requires At(ts, p, Id(d.0) + Id(d.1) + Tok(Comma, ",") + rest)
    ensures Sees(ts, p, Identifier) && ts[p].text == d.0 && Sees(ts, p + 1, Identifier) && ts[p + 1].text == d.1
    ensures Sees(ts, p + 2, Comma) && At(ts, p + 3, rest)
    ensures |Id(d.0) + Id(d.1) + Tok(Comma, ",") + rest| == 3 + |rest|
  {
    hide At;
    AtJoined(ts, p, Id(d.0) + Id(d.1), Token(Comma, ","), rest);
    AtOne(ts, p, Identifier, d.0, Id(d.1));
    AtLast(ts, p + 1, Identifier, d.1);
  }

  lemma {:induction false} DefsUndo(defs: seq<(string, string)>, ts: seq<Token>, p: nat)
    requires defs != [] && At(ts, p, PrintDefs(defs)) && Closes(ts, p + |PrintDefs(defs)|)
    ensures ColumnDefs(ts, p) == Done((defs, p + |PrintDefs(defs)|))
    decreases defs
  {
    hide At;
    var d := defs[0];
    if |defs| == 1 {
      AtOne(ts, p, Identifier, d.0, Id(d.1));
      AtLast(ts, p + 1, Identifier, d.1);
      assert defs == [d];
    } else {
      var rest := PrintDefs(defs[1..]);
      DefAt(d, rest, ts, p);
      DefsUndo(defs[1..], ts, p + 3);
      assert defs == [d] + defs[1..];
    }
  }

  lemma ClauseUndo(c: SetClause, ts: seq<Token>, p: nat)
    requires Printable(c.value) && At(ts, p, PrintClause(c)) && Stops(ts, p + |PrintClause(c)|)
    ensures Clause(ts, p) == Done((c, p + |PrintClause(c)|))
  {
    hide At, Expression, PrintExpr, Stops;
    var value := PrintExpr(c.value);
    assert PrintClause(c) == Id(c.name) + (Tok(Equals, "=") + value);
    AtOne(ts, p, Identifier, c.name, Tok(Equals, "=") + value);
    AtOne(ts, p + 1, Equals, "=", value);
    ExprUndo(c.value, ts, p + 2);
  }

  lemma {:induction false} ClausesUndo(cs: seq<SetClause>, ts: seq<Token>, p: nat)
    requires cs != [] && PrintableClauses(cs) && At(ts, p, PrintClauses(cs)) && Closes(ts, p + |PrintClauses(cs)|)
    ensures Clauses(ts, p) == Done((cs, p + |PrintClauses(cs)|))
    decreases cs
  {
    hide At, Clause, PrintClause, Stops;
    var first := PrintClause(cs[0]);
    if |cs| == 1 {
      ClosesStops(ts, p + |first|);
      ClauseUndo(cs[0], ts, p);
      assert cs == [cs[0]];
    } else {
      var rest := PrintClauses(cs[1..]);
      AtJoined(ts, p, first, Token(Comma, ","), rest);
      ClosesStops(ts, p + |first|);
      ClauseUndo(cs[0], ts, p);
      ClausesUndo(cs[1..], ts, p + |first| + 1);
      assert cs == [cs[0]] + cs[1..];
    }
  }

  lemma RowUndo(row: seq<Expr>, ts: seq<Token>, p: nat)
    requires row != [] && AllPrintable(row) && At(ts, p, PrintRow(row))
    ensures RowOfValues(ts, p) == Done((row, p + |PrintRow(row)|))
  {
    hide At, ExprList, PrintList, Stops;
    var list := PrintList(row);
    assert PrintRow(row) == Tok(LParen, "(") + (list + Tok(RParen, ")"));
    AtOne(ts, p, LParen, "(", list + Tok(RParen, ")"));
    AtSplit(ts, p + 1, list, Tok(RParen, ")"));
    AtLast(ts, p + 1 + |list|, RParen, ")");
    ClosesStops(ts, p + 1 + |list|);
    ListUndo(row, ts, p + 1);
  }

  lemma {:induction false} RowsUndo(rows: seq<seq<Expr>>, ts: seq<Token>, p: nat)
    requires rows != [] && PrintableRows(rows) && At(ts, p, PrintRows(rows)) && Closes(ts, p + |PrintRows(rows)|)
    ensures Rows(ts, p) == Done((rows, p + |PrintRows(rows)|))
    decreases rows
  {
    hide At, RowOfValues, PrintRow;
    var first := PrintRow(rows[0]);
    if |rows| == 1 {
      RowUndo(rows[0], ts, p);
      assert rows == [rows[0]];
    } else {
      var rest := PrintRows(rows[1..]);
      AtJoined(ts, p, first, Token(Comma, ","), rest);
      RowUndo(rows[0], ts, p);
      RowsUndo(rows[1..], ts, p + |first| + 1);
      assert rows == [rows[0]] + rows[1..];
    }
  }

  lemma FilterUndo(f: Option<Expr>, ts: seq<Token>, p: nat)
    requires PrintableFilter(f) && At(ts, p, PrintFilter(f) + End())
    ensures Filter(ts, p) == Done((f, p + |PrintFilter(f)|)) && Sees(ts, p + |PrintFilter(f)|, Semicolon) && Closes(ts, p)
  {
    hide At, Expression, PrintExpr, Stops;
    AtSplit(ts, p, PrintFilter(f), End());
    AtLast(ts, p + |PrintFilter(f)|, Semicolon, ";");
    if f.Some? {
      AtOne(ts, p, Word(WHERE), "WHERE", PrintExpr(f.value));
      ClosesStops(ts, p + |PrintFilter(f)|);
      ExprUndo(f.value, ts, p + 1);
    }
  }

  // ---------- Parsing undoes printing: statements ----------

  lemma InsertStep(ts: seq<Token>, p: nat, columns: seq<string>, c: nat, rows: seq<seq<Expr>>, r: nat)
    requires Sees(ts, p + 1, Word(INTO)) && Sees(ts, p + 2, Identifier) && Sees(ts, p + 3, LParen)
    requires Names(ts, p + 4) == Done((columns, c)) && Sees(ts, c, RParen) && Sees(ts, c + 1, Word(VALUES))
    requires Rows(ts, c + 2) == Done((rows, r)) && Sees(ts, r, Semicolon)
    ensures Insert(ts, p) == Done((InsertStmt(ts[p + 2].text, columns, rows), r + 1))
  {
    hide Names, Rows;
  }

  lemma InsertHead(name: string, rest: seq<Token>, ts: seq<Token>, p: nat)
    requires At(ts, p, Key(INTO, "INTO") + (Id(name) + (Tok(LParen, "(") + rest)))
    ensures Sees(ts, p, Word(INTO)) && Sees(ts, p + 1, Identifier) && ts[p + 1].text == name && Sees(ts, p + 2, LParen)
    ensures At(ts, p + 3, rest) && |Key(INTO, "INTO") + (Id(name) + (Tok(LParen, "(") + rest))| == 3 + |rest|
  {
    hide At;
    AtOne(ts, p, Word(INTO), "INTO", Id(name) + (Tok(LParen, "(") + rest));
    AtOne(ts, p + 1, Identifier, name, Tok(LParen, "(") + rest);
    AtOne(ts, p + 2, LParen, "(", rest);
  }

  lemma InsertTail(rest: seq<Token>, ts: seq<Token>, c: nat)
    requires At(ts, c, Tok(RParen, ")") + (Key(VALUES, "VALUES") + (rest + End())))
    ensures Sees(ts, c, RParen) && Sees(ts, c + 1, Word(VALUES)) && At(ts, c + 2, rest)
    ensures Sees(ts, c + 2 + |rest|, Semicolon)
    ensures |Tok(RParen, ")") + (Key(VALUES, "VALUES") + (rest + End()))| == 3 + |rest|
  {
    hide At;
    AtOne(ts, c, RParen, ")", Key(VALUES, "VALUES") + (rest + End()));
    AtOne(ts, c + 1, Word(VALUES), "VALUES", rest + End());
    AtSplit(ts, c + 2, rest, End());
    AtLast(ts, c + 2 + |rest|, Semicolon, ";");
  }

  lemma InsertBody(name: string, columns: seq<string>, rows: seq<seq<Expr>>, ts: seq<Token>, p: nat)
    requires columns != [] && rows != [] && PrintableRows(rows) && At(ts, p + 1, PrintInsert(name, columns, rows))
    ensures Insert(ts, p) == Done((InsertStmt(name, columns, rows), p + 1 + |PrintInsert(name, columns, rows)|))
  {
    hide At, Insert, Names, Rows, PrintNames, PrintRows, PrintableRows;
    var names, values := PrintNames(columns), PrintRows(rows);
    var tail := Tok(RParen, ")") + (Key(VALUES, "VALUES") + (values + End()));
    var c := p + 4 + |names|;
    InsertHead(name, names + tail, ts, p + 1);
    AtSplit(ts, p + 4, names, tail);
    InsertTail(values, ts, c);
    NamesUndo(columns, ts, p + 4);
    RowsUndo(rows, ts, c + 2);
    InsertStep(ts, p, columns, c, rows, c + 2 + |values|);
  }

  lemma UpdateBody(table: Expr, sets: seq<SetClause>, filter: Option<Expr>, ts: seq<Token>, p: nat)
    requires Printable(table) && sets != [] && PrintableClauses(sets) && PrintableFilter(filter)
    requires At(ts, p + 1, PrintUpdate(table, sets, filter))
    ensures Update(ts, p) == Done((UpdateStmt(table, sets, filter), p + 1 + |PrintUpdate(table, sets, filter)|))
  {
    hide At, Stops, Expression, Clauses, Filter, PrintExpr, PrintClauses, PrintFilter;
    var rest2 := PrintFilter(filter) + End();
    var rest1 := Key(SET, "SET") + (PrintClauses(sets) + rest2);
    var q := p + 1 + |PrintExpr(table)|;
    var c := q + 1 + |PrintClauses(sets)|;
    AtSplit(ts, p + 1, PrintExpr(table), rest1);
    AtOne(ts, q, Word(SET), "SET", PrintClauses(sets) + rest2);
    AtSplit(ts, q + 1, PrintClauses(sets), rest2);
    ClosesStops(ts, q);
    ExprUndo(table, ts, p + 1);
    FilterUndo(filter, ts, c);
    ClausesUndo(sets, ts, q + 1);
  }

  lemma DeleteBody(table: Expr, filter: Option<Expr>, ts: seq<Token>, p: nat)
    requires Printable(table) && PrintableFilter(filter) && At(ts, p + 1, PrintDelete(table, filter))
    ensures Delete(ts, p) == Done((DeleteStmt(table, filter), p + 1 + |PrintDelete(table, filter)|))
  {
    hide At, Stops, Expression, Filter, PrintExpr, PrintFilter;
    var rest := PrintFilter(filter) + End();
    var q := p + 2 + |PrintExpr(table)|;
    AtOne(ts, p + 1, Word(FROM), "FROM", PrintExpr(table) + rest);
    AtSplit(ts, p + 2, PrintExpr(table), rest);
    FilterUndo(filter, ts, q);
    ClosesStops(ts, q);
    ExprUndo(table, ts, p + 2);
  }

  lemma CreateTableBody(name: string, defs: seq<(string, string)>, ts: seq<Token>, p: nat)
    requires defs != [] && At(ts, p + 1, PrintCreateTable(name, defs))
    ensures Create(ts, p) == Done((CreateTableStmt(name, defs), p + 1 + |PrintCreateTable(name, defs)|))
  {
    hide At, ColumnDefs, PrintDefs;
    var rest1 := Tok(RParen, ")") + End();
    var q := p + 4 + |PrintDefs(defs)|;
    AtOne(ts, p + 1, Word(TABLE), "TABLE", Id(name) + (Tok(LParen, "(") + (PrintDefs(defs) + rest1)));
    AtOne(ts, p + 2, Identifier, name, Tok(LParen, "(") + (PrintDefs(defs) + rest1));
    AtOne(ts, p + 3, LParen, "(", PrintDefs(defs) + rest1);
    AtSplit(ts, p + 4, PrintDefs(defs), rest1);
    AtOne(ts, q, RParen, ")", End());
    AtLast(ts, q + 1, Semicolon, ";");
    DefsUndo(defs, ts, p + 4);
  }

  lemma AlterBody(name: string, clauses: seq<SetClause>, ts: seq<Token>, p: nat)
    requires clauses != [] && PrintableClauses(clauses) && At(ts, p + 1, PrintAlter(name, clauses))
    ensures Alter(ts, p) == Done((AlterUserStmt(name, clauses), p + 1 + |PrintAlter(name, clauses)|))
  {
    hide At, Clauses, PrintClauses;
    var rest := PrintClauses(clauses) + End();
    var q := p + 4 + |PrintClauses(clauses)|;
    AtOne(ts, p + 1, Word(USER), "USER", Id(name) + (Key(SET, "SET") + rest));
    AtOne(ts, p + 2, Identifier, name, Key(SET, "SET") + rest);
    AtOne(ts, p + 3, Word(SET), "SET", rest);
    AtSplit(ts, p + 4, PrintClauses(clauses), End());
    AtLast(ts, q, Semicolon, ";");
    ClausesUndo(clauses, ts, p + 4);
  }

  /** Statements of the form: keyword, keyword, name, semicolon. */
  lemma ShortAt(k: Keyword, text: string, name: string, ts: seq<Token>, p: nat)
    requires At(ts, p, Key(k, text) + (Id(name) + End()))
    ensures Sees(ts, p, Word(k)) && Sees(ts, p + 1, Identifier) && ts[p + 1].text == name && Sees(ts, p + 2, Semicolon)
  {
    hide At;
    AtOne(ts, p, Word(k), text, Id(name) + End());
    AtOne(ts, p + 1, Identifier, name, End());
    AtLast(ts, p + 2, Semicolon, ";");
  }

  /** The first token of a statement decides. */
  lemma Dispatch(ts: seq<Token>, p: nat)
    ensures Sees(ts, p, Word(DELETE)) ==> Statement(ts, p) == Delete(ts, p)
    ensures Sees(ts, p, Word(INSERT)) ==> Statement(ts, p) == Insert(ts, p)
    ensures Sees(ts, p, Word(UPDATE)) ==> Statement(ts, p) == Update(ts, p)
    ensures Sees(ts, p, Word(DROP)) ==> Statement(ts, p) == Drop(ts, p)
    ensures Sees(ts, p, Word(CREATE)) ==> Statement(ts, p) == Create(ts, p)
    ensures Sees(ts, p, Word(USE)) ==> Statement(ts, p) == Use(ts, p)
    ensures Sees(ts, p, Word(ALTER)) ==> Statement(ts, p) == Alter(ts, p)
  {
    hide Delete, Insert, Update, Drop, Create, Use, Alter, Expression;
  }

  lemma DispatchExpr(ts: seq<Token>, p: nat, e: Expr, q: nat)
    requires p < |ts| && StartsExpr(ts[p].kind) && Expression(ts, p) == Done((e, q))
    ensures Statement(ts, p) == Done((ExprStmt(e), q))
  {
    hide Delete, Insert, Update, Drop, Create, Use, Alter, Expression;
  }

  lemma InsertUndo(s: Stmt, ts: seq<Token>, p: nat)
    requires s.InsertStmt? && PrintableStmt(s) && At(ts, p, PrintStmt(s))
    ensures Sees(ts, p, Word(INSERT)) && Insert(ts, p) == Done((s, p + |PrintStmt(s)|))
  {
    hide At, Insert, PrintInsert, PrintableRows;
    AtOne(ts, p, Word(INSERT), "INSERT", PrintInsert(s.name, s.columns, s.rows));
    InsertBody(s.name, s.columns, s.rows, ts, p);
  }

  lemma UpdateUndo(s: Stmt, ts: seq<Token>, p: nat)
    requires s.UpdateStmt? && PrintableStmt(s) && At(ts, p, PrintStmt(s))
    ensures Sees(ts, p, Word(UPDATE)) && Update(ts, p) == Done((s, p + |PrintStmt(s)|))
  {
    hide At, Update, PrintUpdate, PrintableClauses, PrintableFilter, Printable;
    AtOne(ts, p, Word(UPDATE), "UPDATE", PrintUpdate(s.table, s.sets, s.filter));
    UpdateBody(s.table, s.sets, s.filter, ts, p);
  }

  lemma DeleteUndo(s: Stmt, ts: seq<Token>, p: nat)
    requires s.DeleteStmt? && PrintableStmt(s) && At(ts, p, PrintStmt(s))
    ensures Sees(ts, p, Word(DELETE)) && Delete(ts, p) == Done((s, p + |PrintStmt(s)|))
  {
    hide At, Delete, PrintDelete, PrintableFilter, Printable;
    AtOne(ts, p, Word(DELETE), "DELETE", PrintDelete(s.table, s.filter));
    DeleteBody(s.table, s.filter, ts, p);
  }

  lemma CreateTableUndo(s: Stmt, ts: seq<Token>, p: nat)
    requires s.CreateTableStmt? && PrintableStmt(s) && At(ts, p, PrintStmt(s))
    ensures Sees(ts, p, Word(CREATE)) && Create(ts, p) == Done((s, p + |PrintStmt(s)|))
  {
    hide At, Create, PrintCreateTable;
    AtOne(ts, p, Word(CREATE), "CREATE", PrintCreateTable(s.name, s.columnTypes));
    CreateTableBody(s.name, s.columnTypes, ts, p);
  }

  lemma AlterUndo(s: Stmt, ts: seq<Token>, p: nat)
    requires s.AlterUserStmt? && PrintableStmt(s) && At(ts, p, PrintStmt(s))
    ensures Sees(ts, p, Word(ALTER)) && Alter(ts, p) == Done((s, p + |PrintStmt(s)|))
  {
    hide At, Alter, PrintAlter, PrintableClauses;
    AtOne(ts, p, Word(ALTER), "ALTER", PrintAlter(s.name, s.clauses));
    AlterBody(s.name, s.clauses, ts, p);
  }

  lemma ExprStmtUndo(s: Stmt, ts: seq<Token>, p: nat)
    requires s.ExprStmt? && PrintableStmt(s) && At(ts, p, PrintStmt(s)) && Stops(ts, p + |PrintStmt(s)|)
    ensures Statement(ts, p) == Done((s, p + |PrintStmt(s)|))
  {
    hide At, Stops, Statement, Expression, PrintExpr, Printable;
    AtFirst(ts, p, PrintExpr(s.expr));
    ExprUndo(s.expr, ts, p);
    DispatchExpr(ts, p, s.expr, p + |PrintExpr(s.expr)|);
  }

  /** A statement that is not an expression needs nothing behind it: its semicolon is its own. */
  lemma StmtUndo(s: Stmt, ts: seq<Token>, p: nat)
    requires PrintableStmt(s) && At(ts, p, PrintStmt(s)) && (s.ExprStmt? ==> Stops(ts, p + |PrintStmt(s)|))
    ensures Statement(ts, p) == Done((s, p + |PrintStmt(s)|))
  {
    hide At, Stops, PrintStmt, PrintableStmt;
    hide Statement, Insert, Update, Delete, Create, Drop, Use, Alter, Expression;
    Dispatch(ts, p);
    match s
    case ExprStmt(_) => ExprStmtUndo(s, ts, p);
    case InsertStmt(_, _, _) => InsertUndo(s, ts, p);
    case UpdateStmt(_, _, _) => UpdateUndo(s, ts, p);
    case DeleteStmt(_, _) => DeleteUndo(s, ts, p);
    case CreateTableStmt(_, _) => CreateTableUndo(s, ts, p);
    case AlterUserStmt(_, _) => AlterUndo(s, ts, p);
    case UseStmt(_) => UseUndo(s, ts, p);
    case DropStmt(_, _) => DropUndo(s, ts, p);
    case CreateDatabaseStmt(_) => CreateUndo(s, ts, p);
    case CreateUserStmt(_) => CreateUndo(s, ts, p);
  }

  lemma UseUndo(s: Stmt, ts: seq<Token>, p: nat)
    requires s.UseStmt? && At(ts, p, PrintStmt(s))
    ensures Sees(ts, p, Word(USE)) && Use(ts, p) == Done((s, p + |PrintStmt(s)|))
  {
    hide At;
    ShortAt(USE, "USE", s.name, ts, p);
  }

  lemma DropUndo(s: Stmt, ts: seq<Token>, p: nat)
    requires s.DropStmt? && At(ts, p, PrintStmt(s))
    ensures Sees(ts, p, Word(DROP)) && Drop(ts, p) == Done((s, p + |PrintStmt(s)|))
  {
    hide At;
    var k, text := if s.target == DropTable then TABLE else DATABASE, if s.target == DropTable then "TABLE" else "DATABASE";
    AtOne(ts, p, Word(DROP), "DROP", Key(k, text) + (Id(s.name) + End()));
    ShortAt(k, text, s.name, ts, p + 1);
  }

  lemma CreateUndo(s: Stmt, ts: seq<Token>, p: nat)
    requires (s.CreateDatabaseStmt? || s.CreateUserStmt?) && At(ts, p, PrintStmt(s))
    ensures Sees(ts, p, Word(CREATE)) && Create(ts, p) == Done((s, p + |PrintStmt(s)|))
  {
    hide At, ColumnDefs;
    var k, text := if s.CreateUserStmt? then USER else DATABASE, if s.CreateUserStmt? then "USER" else "DATABASE";
    AtOne(ts, p, Word(CREATE), "CREATE", Key(k, text) + (Id(s.name) + End()));
    ShortAt(k, text, s.name, ts, p + 1);
  }

  /** Whole queries: the parser gives back the statements and consumes every token. */
  lemma {:induction false} QueryUndo(stmts: seq<Stmt>, ts: seq<Token>, p: nat)
    requires forall i :: 0 <= i < |stmts| ==> PrintableStmt(stmts[i])
    requires p <= |ts| && ts[p..] == PrintQuery(stmts)
    ensures Statements(ts, p) == Done(stmts)
    decreases stmts
  {
    hide At, Stops, PrintStmt, PrintableStmt, Statement;
    if stmts != [] {
      var first, rest := PrintStmt(stmts[0]), PrintQuery(stmts[1..]);
      QueryStart(ts, p, first, rest);
      if stmts[1..] != [] {
        NextStops(ts, p + |first|, PrintStmt(stmts[1]), PrintQuery(stmts[1..][1..]));
      } else {
        EndStops(ts, p + |first|);
      }
      StmtUndo(stmts[0], ts, p);
      QueryUndo(stmts[1..], ts, p + |first|);
      assert stmts == [stmts[0]] + stmts[1..];
    }
  }

  lemma QueryStart(ts: seq<Token>, p: nat, first: seq<Token>, rest: seq<Token>)
    requires p <= |ts| && ts[p..] == first + rest
    ensures At(ts, p, first) && p + |first| <= |ts| && ts[p + |first|..] == rest
  {
    assert ts[p..p + |first|] == ts[p..][..|first|];
    assert ts[p + |first|..] == ts[p..][|first|..];
  }

  lemma NextStops(ts: seq<Token>, q: nat, next: seq<Token>, rest: seq<Token>)
    requires q <= |ts| && ts[q..] == next + rest && next != [] && (StartsExpr(next[0].kind) || next[0].kind.Word?)
    ensures Stops(ts, q)
  {
    assert ts[q] == ts[q..][0] == next[0];
  }

  lemma EndStops(ts: seq<Token>, q: nat)
    requires q >= |ts|
    ensures Stops(ts, q)
  {
  }

  /** An expression statement that is not a SELECT cannot be followed by a semicolon. */
  lemma SemicolonStops(e: Expr, ts: seq<Token>, p: nat)
    requires Printable(e) && At(ts, p, PrintExpr(e) + End()) && !e.Select?
    ensures Statement(ts, p) == Done((ExprStmt(e), p + |PrintExpr(e)|))
    ensures Statements(ts, p).Failed?
  {
    hide At, Expression, PrintExpr, Stops;
    var q := p + |PrintExpr(e)|;
    AtSplit(ts, p, PrintExpr(e), End());
    AtLast(ts, q, Semicolon, ";");
    AtInside(ts, p, PrintExpr(e) + End());
    SemicolonHalts(ts, q);
    StmtUndo(ExprStmt(e), ts, p);
    assert PrintStmt(ExprStmt(e)) == PrintExpr(e);
  }

  lemma AtInside(ts: seq<Token>, p: nat, ps: seq<Token>)
    requires At(ts, p, ps)
    ensures p + |ps| <= |ts|
  {
  }

  lemma SemicolonHalts(ts: seq<Token>, q: nat)
    requires Sees(ts, q, Semicolon)
    ensures Stops(ts, q) && Statement(ts, q).Failed?
  {
    assert Prim(ts, q).Failed?;
    assert Expression(ts, q).Failed?;
  }
}
