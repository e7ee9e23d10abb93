/**
 What the compiler promises about the code it makes: every column is named in the table it is looked up in, the columns
 of an INSERT are those of its table, and a SELECT counts the columns it shows.
 */
module CompiledNames {
  import opened Ast
  import opened Execution
  import opened Lowering
  import opened Wrappers

  // ---------- Names in code ----------

  predicate HasColumn(code: Code, t: nat, name: string) {
    TableSchema(code, t).Some? && name in TableSchema(code, t).value.names
  }

  /** The columns of the INSERT that is not committed yet. */
  function Uncommitted(code: Code): seq<string> {
    if code == [] then [] else After(code[|code| - 1], Uncommitted(code[..|code| - 1]))
  }

  function After(i: Instr, waiting: seq<string>): seq<string> {
    match i
    case InsertColumn(name, _) => waiting + [name]
    case CommitInsert(_) => []
    case _ => waiting
  }

  /** No row of an INSERT has been begun and not finished. */
  predicate RowClosed(code: Code) {
    code != [] ==> ClosedAfter(code[|code| - 1], RowClosed(code[..|code| - 1]))
  }

  predicate ClosedAfter(i: Instr, before: bool) {
    match i
    case InsertColumn(_, _) => false
    case InsertRow => true
    case _ => before
  }

  /** The columns shown by the SELECT that is not finished yet. */
  function OpenColumns(code: Code): nat {
    if code == [] then 0 else OpenAfter(code[|code| - 1], OpenColumns(code[..|code| - 1]))
  }

  function OpenAfter(i: Instr, before: nat): nat {
    match i
    case EmitColumn(_, _, _) => before + 1
    case EmitQuery(_) => 0
    case _ => before
  }

  /** Every named column is one of the table it is looked up in, and tables are those of the database. */
  predicate NamesOk(code: Code, db: Db) {
    code != [] ==> NamesOk(code[..|code| - 1], db) && NameOk(code[|code| - 1], code[..|code| - 1], db)
  }

  predicate NameOk(i: Instr, before: Code, db: Db) {
    match i
    case FetchTable(name, schema) => WellFormed(schema) && name in db && db[name] == schema
    case FetchColumn(t, name) => HasColumn(before, t, name)
    case UpdateColumn(t, _, name) => HasColumn(before, t, name)
    case EmitQuery(count) => count == OpenColumns(before)
    case CommitInsert(t) => RowClosed(before) && forall c <- Uncommitted(before) :: HasColumn(before, t, c)
    case _ => true
  }

  /** Code that computes and shows n columns: those of an INSERT stay as they were. */
  ghost predicate Computes(code: Code, code': Code, n: nat, db: Db) {
    && NamesOk(code', db) && Uncommitted(code') == Uncommitted(code) && (RowClosed(code') <==> RowClosed(code))
    && OpenColumns(code') == OpenColumns(code) + n
  }

  lemma OneMore(code: Code, i: Instr, db: Db)
    requires NamesOk(code, db) && NameOk(i, code, db)
    ensures NamesOk(code + [i], db)
    ensures Uncommitted(code + [i]) == After(i, Uncommitted(code))
    ensures RowClosed(code + [i]) == ClosedAfter(i, RowClosed(code))
    ensures OpenColumns(code + [i]) == OpenAfter(i, OpenColumns(code))
  {
    assert (code + [i])[..|code|] == code;
  }

  lemma ColumnStays(code: Code, code': Code, t: nat, name: string)
    requires code <= code' && HasColumn(code, t, name)
    ensures HasColumn(code', t, name)
  {
    assert code'[t] == code[t];
  }

  lemma {:induction false} ExprNames(e: Expr, scope: Scope, db: Db, code: Code)
    requires NamesOk(code, db) && WellFormedDb(db) && CompileExpr(e, scope, db, code).Done?
    ensures Computes(code, CompileExpr(e, scope, db, code).value.code, 0, db)
    decreases e, 0
  {
    hide NamesOk, RowClosed, Uncommitted, OpenColumns;
    var c := CompileExpr(e, scope, db, code).value;
    if e.Call? {
      var code' := CompileArgs(e.args, |e.args|, scope, db, code).value;
      ArgsNames(e.args, |e.args|, scope, db, code);
      OneMore(code', Instr.Call(e.fn.name, |e.args|), db);
    } else {
      assert c.code == code + [c.code[|code|]];
      OneMore(code, c.code[|code|], db);
    }
  }

  lemma {:induction false} ArgsNames(args: seq<Expr>, n: nat, scope: Scope, db: Db, code: Code)
    requires NamesOk(code, db) && WellFormedDb(db) && n <= |args| && CompileArgs(args, n, scope, db, code).Done?
    ensures Computes(code, CompileArgs(args, n, scope, db, code).value, 0, db)
    decreases args, n
  {
    hide NamesOk, RowClosed, Uncommitted, OpenColumns, CompileExpr;
    if n > 0 {
      var code' := CompileArgs(args, n - 1, scope, db, code).value;
      var c := CompileExpr(args[n - 1], scope, db, code').value;
      ArgsNames(args, n - 1, scope, db, code);
      ExprNames(args[n - 1], scope, db, code');
      OneMore(c.code, Arg(c.id), db);
    }
  }

  lemma {:induction false} NodeNames(e: Expr, scope: Scope, db: Db, s: State)
    requires NamesOk(s.code, db) && WellFormedDb(db) && LowerNode(e, scope, db, s).Done?
    ensures Computes(s.code, LowerNode(e, scope, db, s).value.state.code, 0, db)
    decreases e
  {
    hide NamesOk, RowClosed, Uncommitted, OpenColumns, CompileExpr, FetchAll;
    if Shareable(e) && e in s.memo {
    } else if e.Binary? {
      var l := LowerSingle(e.lhs, scope, db, s).value;
      var r := LowerSingle(e.rhs, scope, db, l.state).value;
      NodeNames(e.lhs, scope, db, s);
      NodeNames(e.rhs, scope, db, l.state);
      OneMore(r.state.code, Compare(e.op, l.id, r.id), db);
    } else if e.Star? {
      StarNames(s.code, scope.id, db);
    } else {
      ExprNames(e, scope, db, s.code);
    }
  }

  lemma {:induction false} FetchAllNames(code: Code, t: nat, names: seq<string>, n: nat, db: Db)
    requires NamesOk(code, db) && n <= |names| && forall i :: 0 <= i < |names| ==> HasColumn(code, t, names[i])
    ensures Computes(code, code + FetchAll(t, names)[..n], 0, db)
  {
    hide NamesOk, RowClosed, Uncommitted, OpenColumns, HasColumn;
    if n == 0 {
      assert code + FetchAll(t, names)[..0] == code;
    } else {
      var code' := code + FetchAll(t, names)[..n - 1];
      FetchAllNames(code, t, names, n - 1, db);
      ColumnStays(code, code', t, names[n - 1]);
      OneMore(code', FetchColumn(t, names[n - 1]), db);
      assert code + FetchAll(t, names)[..n] == code' + [FetchColumn(t, names[n - 1])];
    }
  }

  lemma StarNames(code: Code, t: nat, db: Db)
    requires NamesOk(code, db) && TableSchema(code, t).Some?
    ensures Computes(code, code + FetchAll(t, TableSchema(code, t).value.names), 0, db)
  {
    hide NamesOk, RowClosed, Uncommitted, OpenColumns;
    var names := TableSchema(code, t).value.names;
    FetchAllNames(code, t, names, |names|, db);
    assert FetchAll(t, names)[..|names|] == FetchAll(t, names);
  }

  lemma {:induction false} EmitAllNames(code: Code, t: nat, ids: seq<nat>, name: string, n: nat, db: Db)
    requires NamesOk(code, db) && n <= |ids|
    ensures Computes(code, code + EmitAll(t, ids, name)[..n], n, db)
  {
    hide NamesOk, RowClosed, Uncommitted, OpenColumns;
    if n == 0 {
      assert code + EmitAll(t, ids, name)[..0] == code;
    } else {
      EmitAllNames(code, t, ids, name, n - 1, db);
      var code' := code + EmitAll(t, ids, name)[..n - 1];
      OneMore(code', EmitColumn(t, ids[n - 1], name), db);
      assert code + EmitAll(t, ids, name)[..n] == code' + [EmitColumn(t, ids[n - 1], name)];
    }
  }

  lemma {:induction false} ItemsNames(exprs: seq<Expr>, n: nat, t: nat, db: Db, s: State)
    requires NamesOk(s.code, db) && WellFormedDb(db) && n <= |exprs| && LowerItems(exprs, n, t, db, s).Done?
    ensures var (s', count) := LowerItems(exprs, n, t, db, s).value; Computes(s.code, s'.code, count, db)
  {
    hide NamesOk, RowClosed, Uncommitted, OpenColumns, LowerNode;
    if n > 0 {
      var (s', _) := LowerItems(exprs, n - 1, t, db, s).value;
      ItemsNames(exprs, n - 1, t, db, s);
      NodeNames(exprs[n - 1], InTable(t), db, s');
      var r := LowerNode(exprs[n - 1], InTable(t), db, s').value;
      EmitAllNames(r.state.code, t, r.ids, NameOf(exprs[n - 1]), |r.ids|, db);
      assert EmitAll(t, r.ids, NameOf(exprs[n - 1]))[..|r.ids|] == EmitAll(t, r.ids, NameOf(exprs[n - 1]));
    }
  }

  /** The columns that wait for their commit are among the listed ones. */
  ghost predicate Inserting(code: Code, columns: seq<string>, db: Db) {
    NamesOk(code, db) && OpenColumns(code) == 0 && forall c <- Uncommitted(code) :: c in columns
  }

  lemma {:induction false} ValuesNames(values: seq<Expr>, n: nat, columns: seq<string>, t: nat, db: Db, s: State)
    requires Inserting(s.code, columns, db) && WellFormedDb(db) && n <= |values| == |columns|
    requires LowerValues(values, n, columns, t, db, s).Done?
    ensures Inserting(LowerValues(values, n, columns, t, db, s).value.code, columns, db)
  {
    hide NamesOk, RowClosed, Uncommitted, OpenColumns, LowerNode;
    if n > 0 {
      var s' := LowerValues(values, n - 1, columns, t, db, s).value;
      ValuesNames(values, n - 1, columns, t, db, s);
      NodeNames(values[n - 1], InTable(t), db, s');
      var r := LowerSingle(values[n - 1], InTable(t), db, s').value;
      OneMore(r.state.code, InsertColumn(columns[n - 1], r.id), db);
    }
  }

  lemma {:induction false} RowsNames(rows: seq<seq<Expr>>, n: nat, columns: seq<string>, t: nat, db: Db, s: State)
    requires Inserting(s.code, columns, db) && WellFormedDb(db) && n <= |rows|
    requires LowerRows(rows, n, columns, t, db, s).Done?
    ensures Inserting(LowerRows(rows, n, columns, t, db, s).value.code, columns, db)
    ensures RowClosed(s.code) ==> RowClosed(LowerRows(rows, n, columns, t, db, s).value.code)
  {
    hide NamesOk, RowClosed, Uncommitted, OpenColumns, LowerValues;
    if n > 0 {
      var s' := LowerRows(rows, n - 1, columns, t, db, s).value;
      RowsNames(rows, n - 1, columns, t, db, s);
      ValuesNames(rows[n - 1], |columns|, columns, t, db, s');
      OneMore(LowerValues(rows[n - 1], |columns|, columns, t, db, s').value.code, InsertRow, db);
    }
  }

  lemma {:induction false} SetsNames(sets: seq<SetClause>, n: nat, schema: Schema, t: nat, db: Db, s: State)
    requires NamesOk(s.code, db) && WellFormedDb(db) && n <= |sets| && TableSchema(s.code, t) == Some(schema)
    requires LowerSets(sets, n, schema, t, db, s).Done?
    ensures Computes(s.code, LowerSets(sets, n, schema, t, db, s).value.code, 0, db)
  {
    hide NamesOk, RowClosed, Uncommitted, OpenColumns, LowerNode;
    if n > 0 {
      var s' := LowerSets(sets, n - 1, schema, t, db, s).value;
      SetsNames(sets, n - 1, schema, t, db, s);
      NodeNames(sets[n - 1].value, InTable(t), db, s');
      var r := LowerSingle(sets[n - 1].value, InTable(t), db, s').value;
      ColumnStays(s.code, r.state.code, t, sets[n - 1].name);
      OneMore(r.state.code, UpdateColumn(t, r.id, sets[n - 1].name), db);
    }
  }

  function StmtTable(s: Stmt): Expr
    requires Modelled(s)
  {
    match s
    case ExprStmt(e) => e.table
    case InsertStmt(name, _, _) => Ident(name)
    case UpdateStmt(table, _, _) => table
    case DeleteStmt(table, _) => table
  }

  /** Names are right, and no INSERT or SELECT is under way. */
  predicate Settled(code: Code, db: Db) {
    NamesOk(code, db) && Uncommitted(code) == [] && RowClosed(code) && OpenColumns(code) == 0
  }

  /** Lowered statements leave nothing unfinished. */
  lemma StmtNames(s: Stmt, db: Db, code: Code)
    requires Modelled(s) && WellFormedDb(db) && Settled(code, db)
    requires LowerStmt(s, db, code).Done?
    ensures Settled(LowerStmt(s, db, code).value, db)
  {
    hide NamesOk, RowClosed, Uncommitted, OpenColumns, LowerNode, LowerItems, LowerRows, LowerSets;
    var table := StmtTable(s);
    var t := LowerTable(table, db, code).value;
    NodeNames(table, Global, db, State(code, map[]));
    match s
    case ExprStmt(e) =>
      ItemsNames(e.exprs, |e.exprs|, t.id, db, t.state);
      var (s', count) := LowerItems(e.exprs, |e.exprs|, t.id, db, t.state).value;
      OneMore(s'.code, EmitQuery(count), db);
    case InsertStmt(_, columns, rows) =>
      RowsNames(rows, |rows|, columns, t.id, db, t.state);
      var s' := LowerRows(rows, |rows|, columns, t.id, db, t.state).value;
      forall c <- Uncommitted(s'.code)
        ensures HasColumn(s'.code, t.id, c)
      {
        ColumnStays(t.state.code, s'.code, t.id, c);
      }
      OneMore(s'.code, CommitInsert(t.id), db);
    case UpdateStmt(_, sets, _) =>
      var schema := TableSchema(t.state.code, t.id).value;
      SetsNames(sets, |sets|, schema, t.id, db, t.state);
      OneMore(LowerSets(sets, |sets|, schema, t.id, db, t.state).value.code, CommitUpdate, db);
    case DeleteStmt(_, _) =>
      OneMore(t.state.code, DeleteTable(t.id), db);
  }

  /** Compiled queries name columns of the right tables only. */
  lemma {:induction false} QueryNames(stmts: seq<Stmt>, n: nat, db: Db)
    requires n <= |stmts| && forall i :: 0 <= i < |stmts| ==> Modelled(stmts[i])
    requires WellFormedDb(db) && LowerQuery(stmts, n, db).Done?
    ensures Settled(LowerQuery(stmts, n, db).value, db)
  {
    hide LowerStmt;
    if n > 0 {
      QueryNames(stmts, n - 1, db);
      StmtNames(stmts[n - 1], db, LowerQuery(stmts, n - 1, db).value);
    }
  }

  // ---------- Names and the executor ----------

  lemma {:induction false} NamesAt(code: Code, ip: nat, db: Db)
    requires NamesOk(code, db) && ip < |code|
    ensures NameOk(code[ip], code[..ip], db)
    decreases |code|
  {
    var before := code[..|code| - 1];
    if ip < |code| - 1 {
      NamesAt(before, ip, db);
      assert before[..ip] == code[..ip] && before[ip] == code[ip];
    } else {
      assert before == code[..ip];
    }
  }

  /** The executor that gets to the end of the code got past every instruction. */
  lemma {:induction false} StepAt(code: Code, ip: nat) returns (m: Machine, m': Machine)
    requires Exec(code).Done? && ip < |code|
    ensures Exec(code[..ip]) == Done(m) && Exec(code[..ip + 1]) == Done(m') && Step(code[ip], ip, m) == Done(m')
    decreases |code|
  {
    var before := code[..|code| - 1];
    if ip < |code| - 1 {
      m, m' := StepAt(before, ip);
      assert before[..ip] == code[..ip] && before[..ip + 1] == code[..ip + 1];
    } else {
      assert before == code[..ip] && code[..ip + 1] == code;
      m, m' := Exec(before).value, Exec(code).value;
    }
  }

  lemma NothingRun()
    ensures Exec([]) == Done(Start())
  {
  }

  lemma {:induction false} RowIsOpen(code: Code)
    requires Exec(code).Done?
    ensures Exec(code).value.row == [] <==> RowClosed(code)
  {
    hide Step;
    if code != [] {
      var ip := |code| - 1;
      RowIsOpen(code[..ip]);
      RowStep(code[ip], ip, Exec(code[..ip]).value);
    }
  }

  lemma RowStep(i: Instr, ip: nat, m: Machine)
    requires Step(i, ip, m).Done?
    ensures Step(i, ip, m).value.row == [] <==> ClosedAfter(i, m.row == [])
  {
  }

  lemma CommitClosed(code: Code, ip: nat, db: Db)
    requires ip < |code| && NameOk(code[ip], code[..ip], db)
    ensures code[ip].CommitInsert? ==> RowClosed(code[..ip])
  {
  }

  /** The columns that the executor has ready for a SELECT are the ones that the code has shown. */
  lemma {:induction false} OpenColumnsAre(code: Code)
    requires Exec(code).Done?
    ensures |Exec(code).value.emitted| == OpenColumns(code)
  {
    hide Step;
    if code != [] {
      var ip := |code| - 1;
      OpenColumnsAre(code[..ip]);
      OpenStep(code[ip], ip, Exec(code[..ip]).value);
    }
  }

  lemma OpenStep(i: Instr, ip: nat, m: Machine)
    requires Step(i, ip, m).Done?
    ensures |Step(i, ip, m).value.emitted| == OpenAfter(i, |m.emitted|)
  {
  }
}
