/**
 When a query compiles: the conditions on its statements and on the tables of the database, and which error or stop comes
 first where one of them fails.
 */
module CompileConditions {
  import opened Ast
  import opened Lowering
  import opened Wrappers

  // ---------- Faults ----------

  /** One check of the compiler: fine, an error for the user, or a failed assertion, which stops the server. */
  datatype Fault = Fine | Error | Stop

  /** The checks are made in order, and the first that is not fine decides. */
  function First(fs: seq<Fault>): Fault {
    if fs == [] then Fine else if fs[0] != Fine then fs[0] else First(fs[1..])
  }

  predicate Agrees<T>(r: Outcome<T>, fs: seq<Fault>) {
    match First(fs)
    case Fine => r.Done?
    case Error => r.Failed?
    case Stop => r.Trapped?
  }

  function Expected(ok: bool, otherwise: Fault): seq<Fault> {
    [if ok then Fine else otherwise]
  }

  lemma {:induction false} FirstIs(fs: seq<Fault>)
    ensures First(fs) == Fine <==> forall k :: 0 <= k < |fs| ==> fs[k] == Fine
    ensures First(fs) != Fine ==>
              exists k :: 0 <= k < |fs| && fs[k] == First(fs) && forall i :: 0 <= i < k ==> fs[i] == Fine
  {
    if fs != [] && fs[0] == Fine {
      FirstIs(fs[1..]);
      assert forall k :: 0 < k < |fs| ==> fs[k] == fs[1..][k - 1];
      if First(fs) != Fine {
        var k :| 0 <= k < |fs[1..]| && fs[1..][k] == First(fs[1..]) && forall i :: 0 <= i < k ==> fs[1..][i] == Fine;
        assert fs[k + 1] == First(fs);
        assert forall i :: 0 < i < k + 1 ==> fs[i] == fs[1..][i - 1];
      }
    }
  }

  lemma {:induction false} FirstJoin(a: seq<Fault>, b: seq<Fault>)
    ensures First(a + b) == if First(a) == Fine then First(b) else First(a)
  {
    if a == [] {
      assert a + b == b;
    } else {
      assert (a + b)[1..] == a[1..] + b;
      FirstJoin(a[1..], b);
    }
  }

  lemma FirstOne(f: Fault)
    ensures First([f]) == f && First([]) == Fine
  {
  }

  // ---------- The checks on an expression ----------

  /** A literal, a name or a call; the arguments of a call are such expressions again. */
  function LeafFaults(e: Expr, names: set<string>): seq<Fault>
    decreases e, 0
  {
    match e
    case Ident(name) => Expected(name in names, Error)
    case Call(fn, args) => if fn.Ident? then ArgsFaults(args, |args|, names) else [Stop]
    case Binary(_, _, _) => [Stop]
    case Star => [Stop]
    case Select(_, _) => [Stop]
    case _ => []
  }

  function ArgsFaults(args: seq<Expr>, n: nat, names: set<string>): seq<Fault>
    requires n <= |args|
    decreases args, n
  {
    if n == 0 then [] else ArgsFaults(args, n - 1, names) + LeafFaults(args[n - 1], names)
  }

  /** An expression where a table is wanted: only the name of a table is one. */
  function TableFaults(e: Expr, db: Db): seq<Fault> {
    if e.Ident? then Expected(e.name in db, Error) else OutsideFaults(e, db) + [Error]
  }

  /** An expression outside of a table: names are those of tables. */
  function OutsideFaults(e: Expr, db: Db): seq<Fault> {
    match e
    case Binary(_, lhs, rhs) => OutsideFaults(lhs, db) + OutsideFaults(rhs, db)
    case _ => LeafFaults(e, db.Keys)
  }

  function Elements(columns: seq<string>): set<string> {
    set c | c in columns
  }

  /** One value wanted, with the columns of table t at hand. A star is one value only if it is free to be. */
  function ValueFaults(e: Expr, t: string, columns: seq<string>, free: bool): seq<Fault> {
    match e
    case Ident(name) => Expected(name == t || name in columns, Error)
    case Binary(_, lhs, rhs) => ValueFaults(lhs, t, columns, free) + ValueFaults(rhs, t, columns, free)
    case Star => Expected(free, Stop)
    case _ => LeafFaults(e, Elements(columns))
  }

  // ---------- The checks on a statement ----------

  /**
   Item n of a select list: a star by itself stands for all columns. Inside of a comparison it is one value if the table
   has one column, or if there was a star before in the list.
   */
  function ItemFaults(exprs: seq<Expr>, n: nat, t: string, columns: seq<string>): seq<Fault>
    requires n < |exprs|
  {
    if exprs[n] == Star then [] else ValueFaults(exprs[n], t, columns, |columns| == 1 || Star in exprs[..n])
  }

  function ItemsFaults(exprs: seq<Expr>, n: nat, t: string, columns: seq<string>): seq<Fault>
    requires n <= |exprs|
  {
    if n == 0 then [] else ItemsFaults(exprs, n - 1, t, columns) + ItemFaults(exprs, n - 1, t, columns)
  }

  function ValuesFaults(values: seq<Expr>, n: nat, t: string, columns: seq<string>): seq<Fault>
    requires n <= |values|
  {
    if n == 0 then [] else ValuesFaults(values, n - 1, t, columns) + ValueFaults(values[n - 1], t, columns, |columns| == 1)
  }

  /** The rows of an INSERT of `width` columns: first the number of values in a row, then the values. */
  function RowsFaults(rows: seq<seq<Expr>>, n: nat, width: nat, t: string, columns: seq<string>): seq<Fault>
    requires n <= |rows|
  {
    if n == 0 then []
    else
      RowsFaults(rows, n - 1, width, t, columns) + Expected(|rows[n - 1]| == width, Error) +
      ValuesFaults(rows[n - 1], |rows[n - 1]|, t, columns)
  }

  /** The clauses of an UPDATE: the name of a column, and its value. */
  function SetsFaults(sets: seq<SetClause>, n: nat, t: string, columns: seq<string>): seq<Fault>
    requires n <= |sets|
  {
    if n == 0 then []
    else
      SetsFaults(sets, n - 1, t, columns) + Expected(sets[n - 1].name in columns, Error) +
      ValueFaults(sets[n - 1].value, t, columns, |columns| == 1)
  }

  /** The columns of a table; none if there is no such table, which is an error before they matter. */
  function ColumnsOf(table: Expr, db: Db): seq<string> {
    if table.Ident? && table.name in db then db[table.name].names else []
  }

  function TableName(table: Expr): string {
    if table.Ident? then table.name else ""
  }

  function StmtFaults(s: Stmt, db: Db): seq<Fault>
    requires Modelled(s)
  {
    match s
    case ExprStmt(e) =>
      TableFaults(e.table, db) + ItemsFaults(e.exprs, |e.exprs|, TableName(e.table), ColumnsOf(e.table, db))
    case InsertStmt(name, columns, rows) => (
      var own := ColumnsOf(Ident(name), db);
      TableFaults(Ident(name), db) +
      Expected(|columns| == |own| && forall c :: c in columns ==> c in own, Error) +
      RowsFaults(rows, |rows|, |columns|, name, own)
    )
    case UpdateStmt(table, sets, filter) =>
      Expected(filter.None?, Stop) + TableFaults(table, db) +
      SetsFaults(sets, |sets|, TableName(table), ColumnsOf(table, db))
    case DeleteStmt(table, filter) => Expected(filter.None?, Stop) + TableFaults(table, db)
  }

  /** The statements are compiled in order. */
  function QueryFaults(stmts: seq<Stmt>, n: nat, db: Db): seq<Fault>
    requires n <= |stmts| && forall i :: 0 <= i < |stmts| ==> Modelled(stmts[i])
  {
    if n == 0 then [] else QueryFaults(stmts, n - 1, db) + StmtFaults(stmts[n - 1], db)
  }

  // ---------- Leaves ----------

  /** The names that can stand in a scope. */
  ghost predicate ScopeNames(scope: Scope, db: Db, code: Code, names: set<string>) {
    match scope
    case Global => names == db.Keys
    case InTable(t) => TableSchema(code, t).Some? && names == Elements(TableSchema(code, t).value.names)
  }

  lemma SchemaStays(code: Code, code': Code, t: nat)
    requires code <= code' && TableSchema(code, t).Some?
    ensures TableSchema(code', t) == TableSchema(code, t)
  {
  }

  lemma ScopeStays(scope: Scope, db: Db, code: Code, code': Code, names: set<string>)
    requires code <= code' && ScopeNames(scope, db, code, names)
    ensures ScopeNames(scope, db, code', names)
  {
    if scope.InTable? {
      SchemaStays(code, code', scope.id);
    }
  }

  lemma {:induction false} LeafOutcome(e: Expr, scope: Scope, db: Db, code: Code, names: set<string>)
    requires ScopeNames(scope, db, code, names)
    ensures Agrees(CompileExpr(e, scope, db, code), LeafFaults(e, names))
    decreases e, 0
  {
    hide CompileArgs, ArgsFaults;
    FirstOne(Fine);
    FirstOne(Error);
    FirstOne(Stop);
    if e.Call? && e.fn.Ident? {
      ArgsOutcome(e.args, |e.args|, scope, db, code, names);
    }
  }

  lemma {:induction false} ArgsOutcome(args: seq<Expr>, n: nat, scope: Scope, db: Db, code: Code, names: set<string>)
    requires n <= |args| && ScopeNames(scope, db, code, names)
    ensures Agrees(CompileArgs(args, n, scope, db, code), ArgsFaults(args, n, names))
    decreases args, n
  {
    hide CompileExpr, LeafFaults, ScopeNames;
    if n > 0 {
      ArgsOutcome(args, n - 1, scope, db, code, names);
      FirstJoin(ArgsFaults(args, n - 1, names), LeafFaults(args[n - 1], names));
      var before := CompileArgs(args, n - 1, scope, db, code);
      if before.Done? {
        ScopeStays(scope, db, code, before.value, names);
        LeafOutcome(args[n - 1], scope, db, before.value, names);
      }
    }
  }

  // ---------- Values ----------

  /**
   The expressions compiled so far, with the columns of table t at hand: the table itself, and expressions that have no
   fault. A star is among them, or the table has one column, exactly if a star is free to be one value.
   */
  ghost predicate Inside(s: State, t: string, id: nat, columns: seq<string>, free: bool) {
    && TableSchema(s.code, id).Some? && TableSchema(s.code, id).value.names == columns
    && Ident(t) in s.memo
    && (free <==> Star in s.memo || |columns| == 1)
    && forall e :: e in s.memo ==> First(ValueFaults(e, t, columns, free)) == Fine
  }

  lemma InsideCode(s: State, code: Code, t: string, id: nat, columns: seq<string>, free: bool)
    requires Inside(s, t, id, columns, free) && s.code <= code
    ensures Inside(s.(code := code), t, id, columns, free)
  {
    SchemaStays(s.code, code, id);
  }

  lemma InsideRemembers(s: State, e: Expr, n: nat, t: string, id: nat, columns: seq<string>, free: bool)
    requires Inside(s, t, id, columns, free) && First(ValueFaults(e, t, columns, free)) == Fine && e != Star
    ensures Inside(Remember(s, e, n), t, id, columns, free)
  {
    hide ValueFaults, First;
  }

  lemma {:induction false} ValueOutcome(e: Expr, db: Db, s: State, t: string, id: nat, columns: seq<string>, free: bool)
    requires Inside(s, t, id, columns, free)
    ensures var r := LowerSingle(e, InTable(id), db, s);
            && Agrees(r, ValueFaults(e, t, columns, free))
            && (r.Done? ==> Inside(r.value.state, t, id, columns, free))
    decreases e, 1
  {
    hide Inside, CompileExpr, LeafFaults;
    if Shareable(e) && e in s.memo {
      RememberedFine(e, s, t, id, columns, free);
    } else if e.Binary? {
      BinaryOutcome(e, db, s, t, id, columns, free);
    } else if e == Star {
      StarOutcome(db, s, t, id, columns, free);
    } else {
      LeafValueOutcome(e, db, s, t, id, columns, free);
    }
  }

  lemma RememberedFine(e: Expr, s: State, t: string, id: nat, columns: seq<string>, free: bool)
    requires Inside(s, t, id, columns, free) && e in s.memo
    ensures First(ValueFaults(e, t, columns, free)) == Fine
  {
  }

  lemma {:induction false} BinaryOutcome(e: Expr, db: Db, s: State, t: string, id: nat, columns: seq<string>, free: bool)
    requires Inside(s, t, id, columns, free) && e.Binary? && !(Shareable(e) && e in s.memo)
    ensures var r := LowerSingle(e, InTable(id), db, s);
            && Agrees(r, ValueFaults(e, t, columns, free))
            && (r.Done? ==> Inside(r.value.state, t, id, columns, free))
    decreases e, 0
  {
    hide Inside, CompileExpr, LeafFaults, First;
    ValueOutcome(e.lhs, db, s, t, id, columns, free);
    var l := LowerSingle(e.lhs, InTable(id), db, s);
    FirstJoin(ValueFaults(e.lhs, t, columns, free), ValueFaults(e.rhs, t, columns, free));
    if l.Done? {
      ValueOutcome(e.rhs, db, l.value.state, t, id, columns, free);
      var r := LowerSingle(e.rhs, InTable(id), db, l.value.state);
      if r.Done? {
        var c := Emit(r.value.state.code, Compare(e.op, l.value.id, r.value.id));
        InsideCode(r.value.state, c.code, t, id, columns, free);
        InsideRemembers(r.value.state.(code := c.code), e, c.id, t, id, columns, free);
      }
    }
  }

  lemma StarOutcome(db: Db, s: State, t: string, id: nat, columns: seq<string>, free: bool)
    requires Inside(s, t, id, columns, free) && Star !in s.memo
    ensures var r := LowerSingle(Star, InTable(id), db, s);
            && Agrees(r, ValueFaults(Star, t, columns, free))
            && (r.Done? ==> Inside(r.value.state, t, id, columns, free))
  {
    hide ValueFaults;
    FirstOne(Stop);
    FirstOne(Fine);
    StarFaults(t, columns, free);
    StarNode(db, s, t, id, columns, free);
  }

  lemma StarFaults(t: string, columns: seq<string>, free: bool)
    ensures ValueFaults(Star, t, columns, free) == Expected(free, Stop)
  {
  }

  /** A star makes one value for each column, and makes a star free from then on. */
  lemma StarNode(db: Db, s: State, t: string, id: nat, columns: seq<string>, free: bool)
    requires Inside(s, t, id, columns, free) && Star !in s.memo
    ensures var r := LowerNode(Star, InTable(id), db, s);
            r.Done? && |r.value.ids| == |columns| && Inside(r.value.state, t, id, columns, true)
  {
    var code := s.code + FetchAll(id, columns);
    SchemaStays(s.code, code, id);
    forall e | e in s.memo
      ensures First(ValueFaults(e, t, columns, true)) == Fine
    {
      FreeIsFine(e, t, columns, free);
    }
    FirstOne(Fine);
    StarFaults(t, columns, true);
    var memo := s.memo[Star := 0];
    assert forall e :: e in memo ==> First(ValueFaults(e, t, columns, true)) == Fine;
    assert LowerNode(Star, InTable(id), db, s).value.state == State(code, memo);
  }

  /** A value without a fault has none where a star is free. */
  lemma {:induction false} FreeIsFine(e: Expr, t: string, columns: seq<string>, free: bool)
    requires First(ValueFaults(e, t, columns, free)) == Fine
    ensures First(ValueFaults(e, t, columns, true)) == Fine
    decreases e
  {
    hide LeafFaults, First;
    FirstOne(Fine);
    FirstOne(Stop);
    if e.Binary? {
      FirstJoin(ValueFaults(e.lhs, t, columns, free), ValueFaults(e.rhs, t, columns, free));
      FirstJoin(ValueFaults(e.lhs, t, columns, true), ValueFaults(e.rhs, t, columns, true));
      FreeIsFine(e.lhs, t, columns, free);
      FreeIsFine(e.rhs, t, columns, free);
    }
  }

  lemma LeafValueOutcome(e: Expr, db: Db, s: State, t: string, id: nat, columns: seq<string>, free: bool)
    requires Inside(s, t, id, columns, free) && !e.Binary? && e != Star && !(Shareable(e) && e in s.memo)
    ensures var r := LowerSingle(e, InTable(id), db, s);
            && Agrees(r, ValueFaults(e, t, columns, free))
            && (r.Done? ==> Inside(r.value.state, t, id, columns, free))
  {
    hide Inside, CompileExpr, First;
    LeafValueFaults(e, s, t, id, columns, free);
    NamesInside(s, t, id, columns, free, db);
    LeafOutcome(e, InTable(id), db, s.code, Elements(columns));
    var r := CompileExpr(e, InTable(id), db, s.code);
    FirstOne(Stop);
    if e.Select? {
      SelectTraps(e, InTable(id), db, s.code);
    } else if r.Done? {
      InsideCode(s, r.value.code, t, id, columns, free);
      InsideRemembers(s.(code := r.value.code), e, r.value.id, t, id, columns, free);
    }
  }

  lemma SelectTraps(e: Expr, scope: Scope, db: Db, code: Code)
    requires e.Select?
    ensures CompileExpr(e, scope, db, code) == Trapped
  {
  }

  lemma NamesInside(s: State, t: string, id: nat, columns: seq<string>, free: bool, db: Db)
    requires Inside(s, t, id, columns, free)
    ensures ScopeNames(InTable(id), db, s.code, Elements(columns))
  {
  }

  /** The name of the table is remembered, so any other name is looked up among the columns. */
  lemma LeafValueFaults(e: Expr, s: State, t: string, id: nat, columns: seq<string>, free: bool)
    requires Inside(s, t, id, columns, free) && !e.Binary? && e != Star && !(Shareable(e) && e in s.memo)
    ensures ValueFaults(e, t, columns, free) == LeafFaults(e, Elements(columns))
  {
    hide First;
  }

  // ---------- Tables ----------

  ghost predicate Outside(s: State, db: Db) {
    forall e :: e in s.memo ==> First(OutsideFaults(e, db)) == Fine
  }

  lemma {:induction false} OutsideOutcome(e: Expr, db: Db, s: State)
    requires Outside(s, db)
    ensures var r := LowerSingle(e, Global, db, s);
            Agrees(r, OutsideFaults(e, db)) && (r.Done? ==> Outside(r.value.state, db))
    decreases e
  {
    hide CompileExpr, LeafFaults, First;
    if Shareable(e) && e in s.memo {
    } else if e.Binary? {
      FirstJoin(OutsideFaults(e.lhs, db), OutsideFaults(e.rhs, db));
      OutsideOutcome(e.lhs, db, s);
      var l := LowerSingle(e.lhs, Global, db, s);
      if l.Done? {
        OutsideOutcome(e.rhs, db, l.value.state);
      }
      OutsideBinary(e, db, s);
    } else {
      OutsideLeaf(e, db, s);
    }
  }

  lemma OutsideBinary(e: Expr, db: Db, s: State)
    requires e.Binary? && !(Shareable(e) && e in s.memo)
    ensures var r, l := LowerSingle(e, Global, db, s), LowerSingle(e.lhs, Global, db, s);
            if l.Failed? then r.Failed?
            else if l.Trapped? then r.Trapped?
            else
              var rhs := LowerSingle(e.rhs, Global, db, l.value.state);
              && (rhs.Failed? ==> r.Failed?) && (rhs.Trapped? ==> r.Trapped?)
              && (rhs.Done? ==> r.Done? && forall x :: x in r.value.state.memo ==> x == e || x in rhs.value.state.memo)
  {
    hide CompileExpr;
  }

  lemma OutsideLeaf(e: Expr, db: Db, s: State)
    requires Outside(s, db) && !e.Binary? && !(Shareable(e) && e in s.memo)
    ensures var r := LowerSingle(e, Global, db, s);
            Agrees(r, OutsideFaults(e, db)) && (r.Done? ==> Outside(r.value.state, db))
  {
    hide CompileExpr, LeafFaults, First;
    LeafOutcome(e, Global, db, s.code, db.Keys);
    StarStops(db.Keys);
    if e.Select? {
      SelectTraps(e, Global, db, s.code);
    }
  }

  lemma StarStops(names: set<string>)
    ensures First(LeafFaults(Star, names)) == Stop
  {
  }

  /** The table of a statement: its name is remembered, and its columns are at hand. */
  lemma TableOutcome(table: Expr, db: Db, code: Code)
    ensures var r := LowerTable(table, db, code);
            && Agrees(r, TableFaults(table, db))
            && (r.Done? ==> table.Ident? && table.name in db)
            && (r.Done? ==> TableSchema(r.value.state.code, r.value.id) == Some(db[table.name]))
            && (r.Done? ==>
                  var columns := ColumnsOf(table, db);
                  Inside(r.value.state, TableName(table), r.value.id, columns, |columns| == 1))
  {
    var s := State(code, map[]);
    FirstOne(Fine);
    FirstOne(Error);
    if table.Ident? {
      NamedTable(table, db, code);
    } else {
      hide First, OutsideFaults;
      OutsideOutcome(table, db, s);
      FirstJoin(OutsideFaults(table, db), [Error]);
      if LowerSingle(table, Global, db, s).Done? {
        NoTable(table, db, s);
      }
    }
  }

  lemma NamedTable(table: Expr, db: Db, code: Code)
    requires table.Ident?
    ensures var r := LowerTable(table, db, code);
            if table.name !in db then r == Failed
            else
              && r.Done? && TableSchema(r.value.state.code, r.value.id) == Some(db[table.name])
              && Inside(r.value.state, table.name, r.value.id, db[table.name].names, |db[table.name].names| == 1)
  {
    var s := State(code, map[]);
    var compiled := CompileIdent(table.name, Global, db, code);
    assert Shareable(table) && table !in s.memo && CompileExpr(table, Global, db, code) == compiled;
    if table.name in db {
      var c := Emit(code, FetchTable(table.name, db[table.name]));
      assert LowerNode(table, Global, db, s) == Done(Several(State(c.code, map[table := c.id]), [c.id]));
      assert LowerTable(table, db, code) == Done(Single(State(c.code, map[table := c.id]), c.id));
      FirstOne(Fine);
    } else {
      assert LowerNode(table, Global, db, s) == Failed;
    }
  }

  lemma NoTable(e: Expr, db: Db, s: State)
    requires !e.Ident? && s.memo == map[] && LowerSingle(e, Global, db, s).Done?
    ensures var r := LowerSingle(e, Global, db, s).value; TableSchema(r.state.code, r.id).None?
  {
  }

  // ---------- Statements ----------

  lemma OneId(e: Expr, scope: Scope, db: Db, s: State)
    requires e != Star
    ensures LowerNode(e, scope, db, s).Done? <==> LowerSingle(e, scope, db, s).Done?
    ensures LowerNode(e, scope, db, s).Failed? <==> LowerSingle(e, scope, db, s).Failed?
    ensures LowerSingle(e, scope, db, s).Done? ==>
              LowerSingle(e, scope, db, s).value.state == LowerNode(e, scope, db, s).value.state
  {
    hide CompileExpr;
  }

  lemma ItemOutcome(exprs: seq<Expr>, n: nat, db: Db, s: State, t: string, id: nat, columns: seq<string>)
    requires n < |exprs| && Inside(s, t, id, columns, |columns| == 1 || Star in exprs[..n])
    ensures var r := LowerNode(exprs[n], InTable(id), db, s);
            && Agrees(r, ItemFaults(exprs, n, t, columns))
            && (r.Done? ==> Inside(r.value.state, t, id, columns, |columns| == 1 || Star in exprs[..n + 1]))
  {
    hide Inside, ValueFaults, LowerNode, LowerSingle, First;
    var e, free := exprs[n], |columns| == 1 || Star in exprs[..n];
    assert exprs[..n + 1] == exprs[..n] + [e];
    FirstOne(Fine);
    if e != Star {
      ValueOutcome(e, db, s, t, id, columns, free);
      OneId(e, InTable(id), db, s);
    } else if Star in s.memo {
      StarAgain(db, s, t, id, columns, free);
    } else {
      StarNode(db, s, t, id, columns, free);
    }
  }

  lemma StarAgain(db: Db, s: State, t: string, id: nat, columns: seq<string>, free: bool)
    requires Inside(s, t, id, columns, free) && Star in s.memo
    ensures LowerNode(Star, InTable(id), db, s) == Done(Several(s, [s.memo[Star]])) && free
  {
    hide ValueFaults, First;
  }

  lemma {:induction false} ItemsOutcome(exprs: seq<Expr>, n: nat, db: Db, s: State, t: string, id: nat, columns: seq<string>)
    requires n <= |exprs| && Inside(s, t, id, columns, |columns| == 1)
    ensures var r := LowerItems(exprs, n, id, db, s);
            && Agrees(r, ItemsFaults(exprs, n, t, columns))
            && (r.Done? ==> Inside(r.value.0, t, id, columns, |columns| == 1 || Star in exprs[..n]))
  {
    hide Inside, ItemFaults, LowerNode, First;
    FirstOne(Fine);
    if n > 0 {
      ItemsOutcome(exprs, n - 1, db, s, t, id, columns);
      FirstJoin(ItemsFaults(exprs, n - 1, t, columns), ItemFaults(exprs, n - 1, t, columns));
      var before := LowerItems(exprs, n - 1, id, db, s);
      if before.Done? {
        ItemOutcome(exprs, n - 1, db, before.value.0, t, id, columns);
        var r := LowerNode(exprs[n - 1], InTable(id), db, before.value.0);
        if r.Done? {
          var state := r.value.state;
          var free := |columns| == 1 || Star in exprs[..n];
          InsideCode(state, state.code + EmitAll(id, r.value.ids, NameOf(exprs[n - 1])), t, id, columns, free);
        }
      }
    }
  }

  lemma {:induction false} ValuesOutcome(values: seq<Expr>, n: nat, names: seq<string>, db: Db, s: State, t: string, id: nat,
                                         columns: seq<string>)
    requires n <= |values| == |names| && Inside(s, t, id, columns, |columns| == 1)
    ensures var r := LowerValues(values, n, names, id, db, s);
            && Agrees(r, ValuesFaults(values, n, t, columns))
            && (r.Done? ==> Inside(r.value, t, id, columns, |columns| == 1))
  {
    hide Inside, ValueFaults, LowerSingle, First;
    FirstOne(Fine);
    if n > 0 {
      var free := |columns| == 1;
      ValuesOutcome(values, n - 1, names, db, s, t, id, columns);
      FirstJoin(ValuesFaults(values, n - 1, t, columns), ValueFaults(values[n - 1], t, columns, free));
      var before := LowerValues(values, n - 1, names, id, db, s);
      if before.Done? {
        ValueOutcome(values[n - 1], db, before.value, t, id, columns, free);
        var r := LowerSingle(values[n - 1], InTable(id), db, before.value);
        if r.Done? {
          var state := r.value.state;
          InsideCode(state, state.code + [InsertColumn(names[n - 1], r.value.id)], t, id, columns, free);
        }
      }
    }
  }

  lemma {:induction false} RowsOutcome(rows: seq<seq<Expr>>, n: nat, names: seq<string>, db: Db, s: State, t: string, id: nat,
                                       columns: seq<string>)
    requires n <= |rows| && Inside(s, t, id, columns, |columns| == 1)
    ensures var r := LowerRows(rows, n, names, id, db, s);
            && Agrees(r, RowsFaults(rows, n, |names|, t, columns))
            && (r.Done? ==> Inside(r.value, t, id, columns, |columns| == 1))
  {
    hide Inside, LowerValues, ValuesFaults, First;
    FirstOne(Fine);
    FirstOne(Error);
    if n > 0 {
      var free, row := |columns| == 1, rows[n - 1];
      var width := Expected(|row| == |names|, Error);
      RowsOutcome(rows, n - 1, names, db, s, t, id, columns);
      FirstJoin(RowsFaults(rows, n - 1, |names|, t, columns), width);
      FirstJoin(RowsFaults(rows, n - 1, |names|, t, columns) + width, ValuesFaults(row, |row|, t, columns));
      var before := LowerRows(rows, n - 1, names, id, db, s);
      if before.Done? && |row| == |names| {
        ValuesOutcome(row, |row|, names, db, before.value, t, id, columns);
        var r := LowerValues(row, |names|, names, id, db, before.value);
        if r.Done? {
          InsideCode(r.value, r.value.code + [InsertRow], t, id, columns, free);
        }
      }
    }
  }

  lemma {:induction false} SetsOutcome(sets: seq<SetClause>, n: nat, schema: Schema, db: Db, s: State, t: string, id: nat)
    requires n <= |sets| && Inside(s, t, id, schema.names, |schema.names| == 1)
    ensures var r := LowerSets(sets, n, schema, id, db, s);
            && Agrees(r, SetsFaults(sets, n, t, schema.names))
            && (r.Done? ==> Inside(r.value, t, id, schema.names, |schema.names| == 1))
  {
    hide Inside, ValueFaults, LowerSingle, First;
    FirstOne(Fine);
    FirstOne(Error);
    if n > 0 {
      var columns, c := schema.names, sets[n - 1];
      var free := |columns| == 1;
      var known := Expected(c.name in columns, Error);
      SetsOutcome(sets, n - 1, schema, db, s, t, id);
      FirstJoin(SetsFaults(sets, n - 1, t, columns), known);
      FirstJoin(SetsFaults(sets, n - 1, t, columns) + known, ValueFaults(c.value, t, columns, free));
      var before := LowerSets(sets, n - 1, schema, id, db, s);
      if before.Done? && c.name in columns {
        ValueOutcome(c.value, db, before.value, t, id, columns, free);
        var r := LowerSingle(c.value, InTable(id), db, before.value);
        if r.Done? {
          var state := r.value.state;
          InsideCode(state, state.code + [UpdateColumn(id, r.value.id, c.name)], t, id, columns, free);
        }
      }
    }
  }

  lemma SelectOutcome(e: Expr, db: Db, code: Code)
    requires e.Select?
    ensures Agrees(LowerSelect(e.exprs, e.table, db, code), StmtFaults(ExprStmt(e), db))
  {
    hide Inside, LowerTable, LowerItems, TableFaults, ItemsFaults, First;
    TableOutcome(e.table, db, code);
    var t, columns := LowerTable(e.table, db, code), ColumnsOf(e.table, db);
    FirstJoin(TableFaults(e.table, db), ItemsFaults(e.exprs, |e.exprs|, TableName(e.table), columns));
    if t.Done? {
      ItemsOutcome(e.exprs, |e.exprs|, db, t.value.state, TableName(e.table), t.value.id, columns);
    }
  }

  lemma InsertOutcome(s: Stmt, db: Db, code: Code)
    requires s.InsertStmt?
    ensures Agrees(LowerInsert(s.name, s.columns, s.rows, db, code), StmtFaults(s, db))
  {
    hide Inside, LowerTable, LowerRows, TableFaults, RowsFaults, First;
    var table := Ident(s.name);
    var t, own := LowerTable(table, db, code), ColumnsOf(table, db);
    var named := Expected(|s.columns| == |own| && forall c :: c in s.columns ==> c in own, Error);
    TableOutcome(table, db, code);
    FirstOne(Fine);
    FirstOne(Error);
    FirstJoin(TableFaults(table, db), named);
    FirstJoin(TableFaults(table, db) + named, RowsFaults(s.rows, |s.rows|, |s.columns|, s.name, own));
    if t.Done? {
      RowsOutcome(s.rows, |s.rows|, s.columns, db, t.value.state, s.name, t.value.id, own);
    }
  }

  lemma UpdateOutcome(s: Stmt, db: Db, code: Code)
    requires s.UpdateStmt?
    ensures Agrees(LowerStmt(s, db, code), StmtFaults(s, db))
  {
    hide Inside, LowerTable, LowerSets, TableFaults, SetsFaults, First;
    var t, columns := LowerTable(s.table, db, code), ColumnsOf(s.table, db);
    var unfiltered := Expected(s.filter.None?, Stop);
    TableOutcome(s.table, db, code);
    FirstOne(Fine);
    FirstOne(Stop);
    FirstJoin(unfiltered, TableFaults(s.table, db));
    FirstJoin(unfiltered + TableFaults(s.table, db), SetsFaults(s.sets, |s.sets|, TableName(s.table), columns));
    if t.Done? {
      SetsOutcome(s.sets, |s.sets|, db[s.table.name], db, t.value.state, TableName(s.table), t.value.id);
    }
  }

  lemma DeleteOutcome(s: Stmt, db: Db, code: Code)
    requires s.DeleteStmt?
    ensures Agrees(LowerStmt(s, db, code), StmtFaults(s, db))
  {
    hide Inside, LowerTable, TableFaults, First;
    TableOutcome(s.table, db, code);
    FirstOne(Fine);
    FirstOne(Stop);
    FirstJoin(Expected(s.filter.None?, Stop), TableFaults(s.table, db));
  }

  /** A statement compiles, fails or stops the server as its first fault says. */
  lemma StmtOutcome(s: Stmt, db: Db, code: Code)
    requires Modelled(s)
    ensures Agrees(LowerStmt(s, db, code), StmtFaults(s, db))
  {
    hide StmtFaults, LowerSelect, LowerInsert, LowerUpdate, LowerDelete, First;
    match s
    case ExprStmt(e) => SelectOutcome(e, db, code);
    case InsertStmt(_, _, _) => InsertOutcome(s, db, code);
    case UpdateStmt(_, _, _) => UpdateOutcome(s, db, code);
    case DeleteStmt(_, _) => DeleteOutcome(s, db, code);
  }

  /** And so does a query. */
  lemma {:induction false} QueryOutcome(stmts: seq<Stmt>, n: nat, db: Db)
    requires n <= |stmts| && forall i :: 0 <= i < |stmts| ==> Modelled(stmts[i])
    ensures Agrees(LowerQuery(stmts, n, db), QueryFaults(stmts, n, db))
  {
    hide StmtFaults, LowerStmt, First;
    FirstOne(Fine);
    if n > 0 {
      QueryOutcome(stmts, n - 1, db);
      FirstJoin(QueryFaults(stmts, n - 1, db), StmtFaults(stmts[n - 1], db));
      var before := LowerQuery(stmts, n - 1, db);
      if before.Done? {
        StmtOutcome(stmts[n - 1], db, before.value);
      }
    }
  }

  // ---------- When everything compiles ----------

  /** A literal, one of the names, or a call of a name with such expressions. */
  predicate LeafOk(e: Expr, names: set<string>)
    decreases e
  {
    match e
    case Ident(name) => name in names
    case Call(fn, args) => fn.Ident? && forall i :: 0 <= i < |args| ==> LeafOk(args[i], names)
    case Binary(_, _, _) => false
    case Star => false
    case Select(_, _) => false
    case _ => true
  }

  /** Comparisons of such expressions over columns, of the name of the table, and of stars. */
  predicate ValueOk(e: Expr, t: string, columns: seq<string>) {
    match e
    case Ident(name) => name == t || name in columns
    case Binary(_, lhs, rhs) => ValueOk(lhs, t, columns) && ValueOk(rhs, t, columns)
    case Star => true
    case _ => LeafOk(e, Elements(columns))
  }

  /** A star is the expression or stands in a comparison. */
  predicate HasStar(e: Expr) {
    e == Star || (e.Binary? && (HasStar(e.lhs) || HasStar(e.rhs)))
  }

  predicate IsTable(e: Expr, db: Db) {
    e.Ident? && e.name in db
  }

  predicate OneValue(e: Expr, t: string, columns: seq<string>) {
    ValueOk(e, t, columns) && (HasStar(e) ==> |columns| == 1)
  }

  predicate RowOk(row: seq<Expr>, width: nat, t: string, columns: seq<string>) {
    |row| == width && forall k :: 0 <= k < |row| ==> OneValue(row[k], t, columns)
  }

  predicate ItemOk(exprs: seq<Expr>, i: nat, t: string, columns: seq<string>)
    requires i < |exprs|
  {
    ValueOk(exprs[i], t, columns) && (HasStar(exprs[i]) ==> exprs[i] == Star || |columns| == 1 || Star in exprs[..i])
  }

  predicate StmtCompiles(s: Stmt, db: Db)
    requires Modelled(s)
  {
    match s
    case ExprStmt(e) =>
      IsTable(e.table, db) && forall i :: 0 <= i < |e.exprs| ==> ItemOk(e.exprs, i, e.table.name, db[e.table.name].names)
    case InsertStmt(name, columns, rows) =>
      && name in db && |columns| == |db[name].names| && (forall c :: c in columns ==> c in db[name].names)
      && forall r :: 0 <= r < |rows| ==> RowOk(rows[r], |columns|, name, db[name].names)
    case UpdateStmt(table, sets, filter) =>
      && filter.None? && IsTable(table, db)
      && forall i :: 0 <= i < |sets| ==>
           sets[i].name in db[table.name].names && OneValue(sets[i].value, table.name, db[table.name].names)
    case DeleteStmt(table, filter) => filter.None? && IsTable(table, db)
  }

  predicate AllFine(fs: seq<Fault>) {
    First(fs) == Fine
  }

  lemma FineJoin(a: seq<Fault>, b: seq<Fault>)
    ensures AllFine(a + b) <==> AllFine(a) && AllFine(b)
  {
    FirstJoin(a, b);
  }

  lemma FineOne(ok: bool, otherwise: Fault)
    requires otherwise != Fine
    ensures AllFine(Expected(ok, otherwise)) <==> ok
    ensures AllFine([])
  {
    FirstOne(Fine);
    FirstOne(otherwise);
  }

  lemma {:induction false} LeafFineIff(e: Expr, names: set<string>)
    ensures AllFine(LeafFaults(e, names)) <==> LeafOk(e, names)
    decreases e, 0
  {
    hide ArgsFaults;
    if e.Ident? {
      FineOne(e.name in names, Error);
    } else if e.Call? && e.fn.Ident? {
      ArgsFineIff(e.args, |e.args|, names);
    }
    FirstOne(Stop);
  }

  lemma {:induction false} ArgsFineIff(args: seq<Expr>, n: nat, names: set<string>)
    requires n <= |args|
    ensures AllFine(ArgsFaults(args, n, names)) <==> forall i :: 0 <= i < n ==> LeafOk(args[i], names)
    decreases args, n
  {
    hide AllFine, LeafFaults, LeafOk;
    FineOne(true, Error);
    if n > 0 {
      ArgsFineIff(args, n - 1, names);
      LeafFineIff(args[n - 1], names);
      FineJoin(ArgsFaults(args, n - 1, names), LeafFaults(args[n - 1], names));
    }
  }

  lemma {:induction false} ValueFineIff(e: Expr, t: string, columns: seq<string>, free: bool)
    ensures AllFine(ValueFaults(e, t, columns, free)) <==> ValueOk(e, t, columns) && (HasStar(e) ==> free)
    decreases e
  {
    hide AllFine, LeafFaults, LeafOk;
    match e
    case Ident(name) => FineOne(name == t || name in columns, Error);
    case Binary(_, lhs, rhs) =>
      ValueFineIff(lhs, t, columns, free);
      ValueFineIff(rhs, t, columns, free);
      FineJoin(ValueFaults(lhs, t, columns, free), ValueFaults(rhs, t, columns, free));
    case Star => FineOne(free, Stop);
    case _ => LeafFineIff(e, Elements(columns));
  }

  lemma ItemFineIff(exprs: seq<Expr>, i: nat, t: string, columns: seq<string>)
    requires i < |exprs|
    ensures AllFine(ItemFaults(exprs, i, t, columns)) <==> ItemOk(exprs, i, t, columns)
  {
    hide AllFine, ValueFaults, ValueOk, HasStar;
    FineOne(true, Error);
    ValueFineIff(exprs[i], t, columns, |columns| == 1 || Star in exprs[..i]);
    StarOk(t, columns);
  }

  lemma {:induction false} ItemsFineIff(exprs: seq<Expr>, n: nat, t: string, columns: seq<string>)
    requires n <= |exprs|
    ensures AllFine(ItemsFaults(exprs, n, t, columns)) <==> forall i :: 0 <= i < n ==> ItemOk(exprs, i, t, columns)
  {
    hide AllFine, ItemFaults, ItemOk;
    FineOne(true, Error);
    if n > 0 {
      ItemsFineIff(exprs, n - 1, t, columns);
      ItemFineIff(exprs, n - 1, t, columns);
      FineJoin(ItemsFaults(exprs, n - 1, t, columns), ItemFaults(exprs, n - 1, t, columns));
    }
  }

  lemma StarOk(t: string, columns: seq<string>)
    ensures ValueOk(Star, t, columns) && HasStar(Star)
  {
  }

  lemma {:induction false} ValuesFineIff(values: seq<Expr>, n: nat, t: string, columns: seq<string>)
    requires n <= |values|
    ensures AllFine(ValuesFaults(values, n, t, columns)) <==> forall k :: 0 <= k < n ==> OneValue(values[k], t, columns)
  {
    hide AllFine, ValueFaults, ValueOk, HasStar;
    FineOne(true, Error);
    if n > 0 {
      ValuesFineIff(values, n - 1, t, columns);
      ValueFineIff(values[n - 1], t, columns, |columns| == 1);
      FineJoin(ValuesFaults(values, n - 1, t, columns), ValueFaults(values[n - 1], t, columns, |columns| == 1));
    }
  }

  lemma {:induction false} RowsFineIff(rows: seq<seq<Expr>>, n: nat, width: nat, t: string, columns: seq<string>)
    requires n <= |rows|
    ensures AllFine(RowsFaults(rows, n, width, t, columns)) <==> forall r :: 0 <= r < n ==> RowOk(rows[r], width, t, columns)
  {
    hide AllFine, ValuesFaults, OneValue;
    FineOne(true, Error);
    if n > 0 {
      var before, row := RowsFaults(rows, n - 1, width, t, columns), rows[n - 1];
      var counted := Expected(|row| == width, Error);
      RowsFineIff(rows, n - 1, width, t, columns);
      ValuesFineIff(row, |row|, t, columns);
      FineOne(|row| == width, Error);
      FineJoin(before, counted);
      FineJoin(before + counted, ValuesFaults(row, |row|, t, columns));
    }
  }

  lemma {:induction false} SetsFineIff(sets: seq<SetClause>, n: nat, t: string, columns: seq<string>)
    requires n <= |sets|
    ensures AllFine(SetsFaults(sets, n, t, columns)) <==>
            forall i :: 0 <= i < n ==> sets[i].name in columns && OneValue(sets[i].value, t, columns)
  {
    hide AllFine, ValueFaults, ValueOk, HasStar;
    FineOne(true, Error);
    if n > 0 {
      var before, c := SetsFaults(sets, n - 1, t, columns), sets[n - 1];
      var known := Expected(c.name in columns, Error);
      SetsFineIff(sets, n - 1, t, columns);
      ValueFineIff(c.value, t, columns, |columns| == 1);
      FineOne(c.name in columns, Error);
      FineJoin(before, known);
      FineJoin(before + known, ValueFaults(c.value, t, columns, |columns| == 1));
    }
  }

  lemma TableFineIff(table: Expr, db: Db)
    ensures AllFine(TableFaults(table, db)) <==> IsTable(table, db)
  {
    hide OutsideFaults, AllFine;
    FineOne(table.Ident? && table.name in db, Error);
    if !table.Ident? {
      FineOne(false, Error);
      FineJoin(OutsideFaults(table, db), Expected(false, Error));
    }
  }

  lemma StmtFineIff(s: Stmt, db: Db)
    requires Modelled(s)
    ensures AllFine(StmtFaults(s, db)) <==> StmtCompiles(s, db)
  {
    hide AllFine, TableFaults, ItemsFaults, RowsFaults, SetsFaults, ItemOk, RowOk, OneValue;
    match s
    case ExprStmt(e) =>
      var t, columns := TableName(e.table), ColumnsOf(e.table, db);
      TableFineIff(e.table, db);
      ItemsFineIff(e.exprs, |e.exprs|, t, columns);
      FineJoin(TableFaults(e.table, db), ItemsFaults(e.exprs, |e.exprs|, t, columns));
    case InsertStmt(name, columns, rows) =>
      var table, own := Ident(name), ColumnsOf(Ident(name), db);
      var ok := |columns| == |own| && forall c :: c in columns ==> c in own;
      TableFineIff(table, db);
      FineOne(ok, Error);
      RowsFineIff(rows, |rows|, |columns|, name, own);
      FineJoin(TableFaults(table, db), Expected(ok, Error));
      FineJoin(TableFaults(table, db) + Expected(ok, Error), RowsFaults(rows, |rows|, |columns|, name, own));
    case UpdateStmt(table, sets, filter) =>
      var t, columns, unfiltered := TableName(table), ColumnsOf(table, db), Expected(filter.None?, Stop);
      TableFineIff(table, db);
      FineOne(filter.None?, Stop);
      SetsFineIff(sets, |sets|, t, columns);
      FineJoin(unfiltered, TableFaults(table, db));
      FineJoin(unfiltered + TableFaults(table, db), SetsFaults(sets, |sets|, t, columns));
    case DeleteStmt(table, filter) =>
      TableFineIff(table, db);
      FineOne(filter.None?, Stop);
      FineJoin(Expected(filter.None?, Stop), TableFaults(table, db));
  }

  lemma {:induction false} QueryFineIff(stmts: seq<Stmt>, n: nat, db: Db)
    requires n <= |stmts| && forall i :: 0 <= i < |stmts| ==> Modelled(stmts[i])
    ensures AllFine(QueryFaults(stmts, n, db)) <==> forall i :: 0 <= i < n ==> StmtCompiles(stmts[i], db)
  {
    hide AllFine, StmtFaults, StmtCompiles;
    FineOne(true, Error);
    if n > 0 {
      QueryFineIff(stmts, n - 1, db);
      StmtFineIff(stmts[n - 1], db);
      FineJoin(QueryFaults(stmts, n - 1, db), StmtFaults(stmts[n - 1], db));
    }
  }

  /** A query compiles exactly when each of its statements meets the condition for it. */
  lemma CompilesIff(stmts: seq<Stmt>, db: Db)
    requires forall i :: 0 <= i < |stmts| ==> Modelled(stmts[i])
    ensures LowerQuery(stmts, |stmts|, db).Done? <==> forall i :: 0 <= i < |stmts| ==> StmtCompiles(stmts[i], db)
  {
    hide StmtFaults, StmtCompiles, LowerQuery, QueryFaults, First;
    QueryOutcome(stmts, |stmts|, db);
    QueryFineIff(stmts, |stmts|, db);
  }
}
