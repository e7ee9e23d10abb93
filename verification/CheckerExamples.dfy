/**
 Queries that the type checker as written gets wrong: each compiles, runs and is well typed.
 */
module CheckerExamples {
  import opened Ast
  import opened CheckerConditions
  import opened CheckerSoundness
  import opened Execution
  import opened Lowering
  import opened RecordLayout
  import opened StatementMeaning
  import opened TypeCheck
  import opened Wrappers

  lemma OneStmt(s: Stmt, db: Db)
    requires Modelled(s) && StarsOnTop(s) && Clean(s) && WellFormedDb(db) && LowerStmt(s, db, []).Done?
    ensures Runnable([s], db) && Effects([s], 1, db) == [EffectOf(s, db)]
  {
    hide LowerStmt, EffectOf, Clean, StarsOnTop;
    assert LowerQuery([s], 0, db) == Done([]);
    assert LowerQuery([s], 1, db) == LowerStmt(s, db, []);
    assert Effects([s], 0, db) == [];
  }

  // ---------- `<` ----------

  /** `SELECT a < b FROM t;` */
  const ORDER_QUERY := ExprStmt(Select([Binary(LT, Ident("a"), Ident("b"))], Ident("t")))

  lemma OrderLowers(db: Db)
    requires db == map["t" := Schema(["a", "b"], [INTEGER, INTEGER])]
    ensures LowerStmt(ORDER_QUERY, db, []).Done?
  {
    hide CompileArgs;
    var s0 := State([] + [FetchTable("t", db["t"])], map[][Ident("t") := 0]);
    var s1 := State(s0.code + [FetchColumn(0, "a")], s0.memo[Ident("a") := 1]);
    var s2 := State(s1.code + [FetchColumn(0, "b")], s1.memo[Ident("b") := 2]);
    assert LowerTable(Ident("t"), db, []) == Done(Single(s0, 0));
    assert LowerSingle(Ident("a"), InTable(0), db, s0) == Done(Single(s1, 1));
    assert LowerSingle(Ident("b"), InTable(0), db, s1) == Done(Single(s2, 2));
    assert LowerNode(Binary(LT, Ident("a"), Ident("b")), InTable(0), db, s0).Done?;
    assert LowerItems(ORDER_QUERY.expr.exprs, 0, 0, db, s0) == Done((s0, 0));
  }

  lemma OrderEffect(db: Db, functions: Functions)
    requires db == map["t" := Schema(["a", "b"], [INTEGER, INTEGER])]
    ensures EffectTyped(EffectOf(ORDER_QUERY, db), db, functions) && !EffectOrderFree(EffectOf(ORDER_QUERY, db))
    ensures StarsOnTop(ORDER_QUERY) && Clean(ORDER_QUERY)
  {
    var e := EffectOf(ORDER_QUERY, db);
    var v := Compared(LT, ColumnOf("t", "a"), ColumnOf("t", "b"));
    var exprs := ORDER_QUERY.expr.exprs;
    assert ShownItems(exprs, 0, "t", db["t"]) == [];
    assert e.columns == [Shown("t", v, "")];
    var t := Typed(db["t"]);
    assert FindColumn(t, "a") == Some(TYPE_INT);
    assert FindColumn(TypedSchema(t.names[1..], t.types[1..]), "b") == Some(TYPE_INT);
    assert TypeOfValue(v, db, functions) == Some(TYPE_BOOL);
  }

  /** `<` between two INTEGER columns stops the checker as written. */
  lemma OrderExample(functions: Functions)
    ensures var db := map["t" := Schema(["a", "b"], [INTEGER, INTEGER])];
            && Runnable([ORDER_QUERY], db)
            && Checked([ORDER_QUERY], db, functions, Repaired).Done?
            && Checked([ORDER_QUERY], db, functions, AsWritten).Trapped?
  {
    hide LowerStmt, EffectOf, Clean, StarsOnTop, EffectTyped, EffectOrderFree, Runnable, Checked;
    var db := map["t" := Schema(["a", "b"], [INTEGER, INTEGER])];
    OrderLowers(db);
    OrderEffect(db, functions);
    OneStmt(ORDER_QUERY, db);
    AcceptsIff([ORDER_QUERY], db, functions);
    WrittenAcceptsIff([ORDER_QUERY], db, functions);
    NothingHinders(Effects([ORDER_QUERY], 1, db), db, functions);
    assert Hinders(Effects([ORDER_QUERY], 1, db), 0, db, functions, Stops);
  }

  lemma NothingHinders(effects: seq<Effect>, db: Db, functions: Functions)
    ensures Fitting(effects[..0], db, functions)
  {
  }

  // ---------- Two INSERTs ----------

  /** `INSERT INTO table (column) VALUES (v);` */
  function InsertOne(table: string, column: string, v: Expr): Stmt {
    InsertStmt(table, [column], [[v]])
  }

  predicate Literal(v: Expr) {
    v.IntegerLit? || v.StringLit?
  }

  lemma InsertLowers(table: string, column: string, v: Expr, db: Db, code: Code)
    requires table in db && db[table].names == [column] && Literal(v)
    ensures LowerStmt(InsertOne(table, column, v), db, code).Done?
    ensures StarsOnTop(InsertOne(table, column, v)) && Clean(InsertOne(table, column, v))
  {
    hide CompileArgs;
    var s0 := State(code + [FetchTable(table, db[table])], map[][Ident(table) := |code|]);
    assert CompileExpr(Ident(table), Global, db, code) == Done(Emit(code, FetchTable(table, db[table])));
    assert LowerSingle(Ident(table), Global, db, State(code, map[])) == Done(Single(s0, |code|));
    assert TableSchema(s0.code, |code|) == Some(db[table]);
    assert LowerRows([[v]], 0, [column], |code|, db, s0) == Done(s0);
    assert LowerValues([v], 0, [column], |code|, db, s0) == Done(s0);
    assert LowerSingle(v, InTable(|code|), db, s0).Done?;
    assert [[v]][0] == [v];
  }

  lemma InsertEffect(table: string, column: string, v: Expr, db: Db)
    ensures EffectOf(InsertOne(table, column, v), db) == InsertRows(table, [[Cell(column, Meaning(v, table))]])
    ensures Concat([[Cell(column, Meaning(v, table))]]) == [Cell(column, Meaning(v, table))]
  {
    var cells := [Cell(column, Meaning(v, table))];
    assert RowCells([v], [column], table) == cells;
    assert AllCells([[v]], [column], table) == [cells];
    assert [cells][..0] == [];
  }

  /** What two such INSERTs ask for, and what the checker says. */
  lemma TwoInserts(t: string, u: string, a: string, b: string, v: Expr, w: Expr, db: Db, functions: Functions)
    requires t in db && u in db && db[t].names == [a] && db[u].names == [b] && WellFormedDb(db) && Literal(v) && Literal(w)
    requires CellTyped(Cell(a, Meaning(v, t)), t, db, functions) && CellTyped(Cell(b, Meaning(w, u)), u, db, functions)
    requires !CellTyped(Cell(a, Meaning(v, t)), u, db, functions)
    ensures var stmts := [InsertOne(t, a, v), InsertOne(u, b, w)];
            && Runnable(stmts, db)
            && Checked(stmts, db, functions, Repaired).Done?
            && if TypeOfColumn(u, a, db).None? then Checked(stmts, db, functions, AsWritten).Trapped?
               else Checked(stmts, db, functions, AsWritten).Failed?
  {
    hide LowerStmt, Clean, StarsOnTop, CellTyped, Checked, MisfitGives, Inserted, Concat, Meaning, InsertOne;
    var first, second := InsertOne(t, a, v), InsertOne(u, b, w);
    var stmts := [first, second];
    InsertsRun(first, second, t, u, a, b, v, w, db);
    InsertEffect(t, a, v, db);
    InsertEffect(u, b, w, db);
    var effects := Effects(stmts, 2, db);
    LiteralsHaveNoOrder(v, t);
    LiteralsHaveNoOrder(w, u);
    AcceptsIff(stmts, db, functions);
    WrittenAcceptsIff(stmts, db, functions);
    var verdict := MisfitVerdict(Cell(a, Meaning(v, t)), u, db);
    FirstIsPending(effects, Cell(a, Meaning(v, t)), u, db, functions);
    assert Hinders(effects, 1, db, functions, verdict);
  }

  lemma InsertsRun(first: Stmt, second: Stmt, t: string, u: string, a: string, b: string, v: Expr, w: Expr, db: Db)
    requires t in db && u in db && db[t].names == [a] && db[u].names == [b] && WellFormedDb(db) && Literal(v) && Literal(w)
    requires first == InsertOne(t, a, v) && second == InsertOne(u, b, w)
    ensures Runnable([first, second], db)
    ensures Effects([first, second], 2, db) == [EffectOf(first, db), EffectOf(second, db)]
  {
    hide LowerStmt, EffectOf, Clean, StarsOnTop;
    var stmts := [first, second];
    InsertLowers(t, a, v, db, []);
    var code := LowerStmt(first, db, []).value;
    InsertLowers(u, b, w, db, code);
    assert LowerQuery(stmts, 0, db) == Done([]);
    assert LowerQuery(stmts, 1, db) == Done(code);
    assert LowerQuery(stmts, 2, db).Done?;
    assert Effects(stmts, 0, db) == [];
    assert Effects(stmts, 1, db) == [EffectOf(first, db)];
  }

  lemma LiteralsHaveNoOrder(v: Expr, table: string)
    requires Literal(v)
    ensures OrderFree(Meaning(v, table))
  {
  }

  /** The cell of the first INSERT is the only one pending at the second. */
  lemma FirstIsPending(effects: seq<Effect>, c: Cell, later: string, db: Db, functions: Functions)
    requires |effects| == 2 && effects[0].InsertRows? && Concat(effects[0].rows) == [c]
    requires EffectTyped(effects[0], db, functions) && EffectOrderFree(effects[0]) && !CellTyped(c, later, db, functions)
    ensures Fitting(effects[..1], db, functions)
    ensures MisfitGives(Inserted(effects[..1]), later, db, functions, MisfitVerdict(c, later, db))
  {
    hide Concat, CellTyped, MisfitVerdict, EffectTyped, EffectOrderFree;
    assert effects[..1][..0] == [];
    assert Inserted(effects[..1]) == [c];
    assert FirstMisfit([c], 0, later, db, functions);
  }

  /** An INSERT of a column that the table of a later INSERT does not have: the checker as written stops. */
  lemma OtherColumnExample(functions: Functions)
    ensures var db := map["t" := Schema(["a"], [INTEGER]), "u" := Schema(["b"], [INTEGER])];
            var stmts := [InsertOne("t", "a", IntegerLit(1)), InsertOne("u", "b", IntegerLit(1))];
            && Runnable(stmts, db)
            && Checked(stmts, db, functions, Repaired).Done?
            && Checked(stmts, db, functions, AsWritten).Trapped?
  {
    hide Runnable, Checked;
    var db := map["t" := Schema(["a"], [INTEGER]), "u" := Schema(["b"], [INTEGER])];
    assert FindColumn(Typed(db["t"]), "a") == Some(TYPE_INT) && FindColumn(Typed(db["u"]), "b") == Some(TYPE_INT);
    TwoInserts("t", "u", "a", "b", IntegerLit(1), IntegerLit(1), db, functions);
  }

  /** A column of the same name at another type: the checker as written rejects the second INSERT, which is right. */
  lemma OtherTypeExample(functions: Functions)
    ensures var db := map["t" := Schema(["a"], [INTEGER]), "u" := Schema(["a"], [TEXT])];
            var stmts := [InsertOne("t", "a", IntegerLit(1)), InsertOne("u", "a", StringLit("x"))];
            && Runnable(stmts, db)
            && Checked(stmts, db, functions, Repaired).Done?
            && Checked(stmts, db, functions, AsWritten).Failed?
  {
    hide Runnable, Checked;
    var db := map["t" := Schema(["a"], [INTEGER]), "u" := Schema(["a"], [TEXT])];
    assert FindColumn(Typed(db["t"]), "a") == Some(TYPE_INT) && FindColumn(Typed(db["u"]), "a") == Some(TYPE_STRING);
    TwoInserts("t", "u", "a", "a", IntegerLit(1), StringLit("x"), db, functions);
  }
}
