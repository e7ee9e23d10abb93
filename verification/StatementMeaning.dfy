/**
 Lowering preserves the meaning of statements: what the IR of a query asks of the executor is what its statements ask
 for, in order, or a lookup of the executor fails, and a condition on the statements decides which. Module QueryRun adds
 the column types that the executor wants to know of a SELECT.
 */
module StatementMeaning {
  import opened Ast
  import opened Execution
  import opened Lowering
  import opened Wrappers

  // ---------- Statements ----------

  /** What one item of a select list shows. */
  function ShownItem(e: Expr, table: string, schema: Schema): seq<Shown> {
    if e == Star then
      seq(|schema.names|, i requires 0 <= i < |schema.names| => Shown(table, ColumnOf(table, schema.names[i]), ""))
    else [Shown(table, Meaning(e, table), if e.Ident? then e.name else "")]
  }

  function ShownItems(exprs: seq<Expr>, n: nat, table: string, schema: Schema): seq<Shown>
    requires n <= |exprs|
  {
    if n == 0 then [] else ShownItems(exprs, n - 1, table, schema) + ShownItem(exprs[n - 1], table, schema)
  }

  function RowCells(values: seq<Expr>, columns: seq<string>, table: string): (cells: seq<Cell>)
    requires |values| == |columns|
    ensures |cells| == |values|
  {
    seq(|values|, i requires 0 <= i < |values| => Cell(columns[i], Meaning(values[i], table)))
  }

  function AllCells(rows: seq<seq<Expr>>, columns: seq<string>, table: string): seq<seq<Cell>> {
    seq(|rows|, i requires 0 <= i < |rows| =>
      if |rows[i]| == |columns| then RowCells(rows[i], columns, table) else [])
  }

  function SetCells(sets: seq<SetClause>, table: string): seq<Cell> {
    seq(|sets|, i requires 0 <= i < |sets| => Cell(sets[i].name, Meaning(sets[i].value, table)))
  }

  /** The effect that a statement asks for; the table is given by its name. */
  function EffectOf(s: Stmt, db: Db): Effect
    requires Modelled(s)
  {
    match s
    case ExprStmt(e) =>
      var table := NameOf(e.table);
      Show(if table in db then ShownItems(e.exprs, |e.exprs|, table, db[table]) else [])
    case InsertStmt(name, columns, rows) =>
      InsertRows(name, AllCells(rows, columns, name))
    case UpdateStmt(table, sets, _) => WriteColumns(NameOf(table), SetCells(sets, NameOf(table)))
    case DeleteStmt(table, _) => DeleteRows(NameOf(table))
  }

  /** The condition on a statement: it depends on the statement alone. */
  predicate Clean(s: Stmt)
    requires Modelled(s)
  {
    match s
    case ExprStmt(e) => ItemsClean(e.exprs, |e.exprs|, NameOf(e.table))
    case InsertStmt(name, columns, rows) =>
      RowsClean(rows, |rows|, name)
    case UpdateStmt(table, sets, _) => sets != [] && SetsClean(sets, |sets|, NameOf(table))
    case DeleteStmt(_, _) => true
  }

  /** A select list holds STAR at most once, and clean values otherwise. */
  predicate ItemsClean(exprs: seq<Expr>, n: nat, table: string)
    requires n <= |exprs|
  {
    forall i :: 0 <= i < n ==> if exprs[i] == Star then Star !in exprs[..i] else ValueClean(exprs[i], table)
  }

  predicate ValuesClean(values: seq<Expr>, n: nat, table: string)
    requires n <= |values|
  {
    forall i :: 0 <= i < n ==> ValueClean(values[i], table)
  }

  predicate RowsClean(rows: seq<seq<Expr>>, n: nat, table: string)
    requires n <= |rows|
  {
    forall i :: 0 <= i < n ==> ValuesClean(rows[i], |rows[i]|, table)
  }

  predicate SetsClean(sets: seq<SetClause>, n: nat, table: string)
    requires n <= |sets|
  {
    forall i :: 0 <= i < n ==> ValueClean(sets[i].value, table)
  }

  /** STAR is written as an item of a select list only. */
  predicate StarsOnTop(s: Stmt)
    requires Modelled(s)
  {
    match s
    case ExprStmt(e) => forall i :: 0 <= i < |e.exprs| ==> e.exprs[i] == Star || NoStar(e.exprs[i])
    case InsertStmt(_, _, rows) => forall i, j :: 0 <= i < |rows| && 0 <= j < |rows[i]| ==> NoStar(rows[i][j])
    case UpdateStmt(_, sets, _) => forall i :: 0 <= i < |sets| ==> NoStar(sets[i].value)
    case DeleteStmt(_, _) => true
  }

  // ---------- The select list ----------

  /** Lowering of values leaves the mark of STAR alone. */
  lemma {:induction false} StarUntouched(e: Expr, scope: Scope, db: Db, s: State)
    requires NoStar(e) && LowerSingle(e, scope, db, s).Done?
    ensures Star in LowerSingle(e, scope, db, s).value.state.memo <==> Star in s.memo
  {
    hide CompileExpr;
    if e.Binary? && !(Shareable(e) && e in s.memo) {
      StarUntouched(e.lhs, scope, db, s);
      StarUntouched(e.rhs, scope, db, LowerSingle(e.lhs, scope, db, s).value.state);
    }
  }

  lemma FetchOne(code: Code, m: Machine, t: nat, table: string, name: string)
    requires At(code, m, t, table) && m.args == []
    ensures var m' := m.(vars := m.vars[|code| := ColumnOf(table, name)]);
            At(code + [FetchColumn(t, name)], m', t, table) && Adds(m, m')
  {
    VarPut(code, m, t, table, FetchColumn(t, name), ColumnOf(table, name), []);
  }

  lemma {:induction false} FetchAllMeans(code: Code, m: Machine, t: nat, table: string, names: seq<string>, n: nat)
      returns (m': Machine)
    requires At(code, m, t, table) && m.args == [] && n <= |names|
    ensures At(code + FetchAll(t, names)[..n], m', t, table) && Adds(m, m') && m'.args == []
    ensures forall i :: |code| <= i < |code| + n ==> i in m'.vars && m'.vars[i] == ColumnOf(table, names[i - |code|])
  {
    hide At, Exec, Step;
    if n == 0 {
      m' := m;
      assert code + FetchAll(t, names)[..0] == code;
    } else {
      var m1 := FetchAllMeans(code, m, t, table, names, n - 1);
      var code1 := code + FetchAll(t, names)[..n - 1];
      FetchOne(code1, m1, t, table, names[n - 1]);
      m' := m1.(vars := m1.vars[|code1| := ColumnOf(table, names[n - 1])]);
      AddsTwice(m, m1, m');
      assert code + FetchAll(t, names)[..n] == code1 + [FetchColumn(t, names[n - 1])];
    }
  }

  lemma EmitOne(code: Code, m: Machine, t: nat, table: string, v: nat, name: string)
    requires At(code, m, t, table)
    ensures if v in m.vars then
              At(code + [EmitColumn(t, v, name)], m.(emitted := m.emitted + [Shown(table, m.vars[v], name)]), t, table)
            else Exec(code + [EmitColumn(t, v, name)]).Trapped?
  {
    ExecNext(code, EmitColumn(t, v, name));
  }

  lemma {:induction false} EmitAllMeans(code: Code, m: Machine, t: nat, table: string, ids: seq<nat>, n: nat,
                                        name: string, shown: seq<Shown>)
    requires At(code, m, t, table) && n <= |ids| == |shown|
    requires forall i :: 0 <= i < |ids| ==> ids[i] in m.vars && shown[i] == Shown(table, m.vars[ids[i]], name)
    ensures At(code + EmitAll(t, ids, name)[..n], m.(emitted := m.emitted + shown[..n]), t, table)
  {
    hide At, Exec, Step;
    if n == 0 {
      assert code + EmitAll(t, ids, name)[..0] == code;
      assert m.emitted + shown[..0] == m.emitted;
    } else {
      EmitAllMeans(code, m, t, table, ids, n - 1, name, shown);
      var code1, m1 := code + EmitAll(t, ids, name)[..n - 1], m.(emitted := m.emitted + shown[..n - 1]);
      EmitOne(code1, m1, t, table, ids[n - 1], name);
      assert m1.emitted + [shown[n - 1]] == m.emitted + shown[..n];
      assert code + EmitAll(t, ids, name)[..n] == code1 + [EmitColumn(t, ids[n - 1], name)];
    }
  }

  /** One item of a select list: shown as asked, or the executor stops. */
  lemma ItemMeans(e: Expr, t: nat, table: string, schema: Schema, db: Db, s: State, m: Machine)
      returns (m': Machine)
    requires InScope(s, m, t, table) && TableSchema(s.code, t) == Some(schema) && (e == Star || NoStar(e))
    requires LowerNode(e, InTable(t), db, s).Done?
    ensures var r := LowerNode(e, InTable(t), db, s).value;
            var s' := r.state.(code := r.state.code + EmitAll(t, r.ids, NameOf(e)));
            if if e == Star then Star !in s.memo else ValueClean(e, table) then
              && InScope(s', m', t, table)
              && m' == m.(vars := m'.vars, emitted := m.emitted + ShownItem(e, table, schema))
              && |r.ids| == |ShownItem(e, table, schema)|
              && (Star in s'.memo <==> Star in s.memo || e == Star)
            else Exec(s'.code).Trapped?
  {
    m' := m;
    if e == Star {
      m' := StarMeans(t, table, schema, db, s, m);
    } else {
      m' := ShownValueMeans(e, t, table, schema, db, s, m);
    }
  }

  lemma StarMeans(t: nat, table: string, schema: Schema, db: Db, s: State, m: Machine) returns (m': Machine)
    requires InScope(s, m, t, table) && TableSchema(s.code, t) == Some(schema)
    requires LowerNode(Star, InTable(t), db, s).Done?
    ensures var r := LowerNode(Star, InTable(t), db, s).value;
            var s' := r.state.(code := r.state.code + EmitAll(t, r.ids, ""));
            if Star !in s.memo then
              && InScope(s', m', t, table) && Star in s'.memo
              && m' == m.(vars := m'.vars, emitted := m.emitted + ShownItem(Star, table, schema))
              && |r.ids| == |ShownItem(Star, table, schema)|
            else Exec(s'.code).Trapped?
  {
    hide Exec, Step;
    m' := m;
    var r := LowerNode(Star, InTable(t), db, s).value;
    if Star in s.memo {
      EmitOne(s.code, m, t, table, 0, "");
      assert EmitAll(t, [0], "") == [EmitColumn(t, 0, "")];
    } else {
      var n, shown := |schema.names|, ShownItem(Star, table, schema);
      var m1 := FetchAllMeans(s.code, m, t, table, schema.names, n);
      assert FetchAll(t, schema.names)[..n] == FetchAll(t, schema.names);
      EmitAllMeans(r.state.code, m1, t, table, r.ids, n, "", shown);
      assert EmitAll(t, r.ids, "")[..n] == EmitAll(t, r.ids, "") && shown[..n] == shown;
      m' := m1.(emitted := m1.emitted + shown);
    }
  }

  lemma ShownValueMeans(e: Expr, t: nat, table: string, schema: Schema, db: Db, s: State, m: Machine)
      returns (m': Machine)
    requires InScope(s, m, t, table) && NoStar(e)
    requires LowerNode(e, InTable(t), db, s).Done?
    ensures var r := LowerNode(e, InTable(t), db, s).value;
            var s' := r.state.(code := r.state.code + EmitAll(t, r.ids, NameOf(e)));
            if ValueClean(e, table) then
              && InScope(s', m', t, table)
              && m' == m.(vars := m'.vars, emitted := m.emitted + ShownItem(e, table, schema))
              && |r.ids| == |ShownItem(e, table, schema)|
              && (Star in s'.memo <==> Star in s.memo)
            else Exec(s'.code).Trapped?
  {
    hide Exec, Step, CompileExpr, Meaning;
    var r := LowerNode(e, InTable(t), db, s).value;
    assert |r.ids| == 1;
    var id := r.ids[0];
    assert EmitAll(t, r.ids, NameOf(e)) == [EmitColumn(t, id, NameOf(e))];
    var m1 := ValueMeans(e, t, table, db, s, m);
    StarUntouched(e, InTable(t), db, s);
    if !ValueClean(e, table) && Exec(r.state.code).Trapped? {
      TrapStays(r.state.code, r.state.code + [EmitColumn(t, id, NameOf(e))]);
      m' := m;
    } else {
      EmitOne(r.state.code, m1, t, table, id, NameOf(e));
      m' := m1.(emitted := m1.emitted + ShownItem(e, table, schema));
    }
  }

  /** The first n items of a select list. */
  lemma {:induction false} ItemsMean(exprs: seq<Expr>, n: nat, t: nat, table: string, schema: Schema, db: Db,
                                     s: State, m: Machine) returns (m': Machine)
    requires InScope(s, m, t, table) && TableSchema(s.code, t) == Some(schema) && Star !in s.memo && n <= |exprs|
    requires forall i :: 0 <= i < n ==> exprs[i] == Star || NoStar(exprs[i])
    requires LowerItems(exprs, n, t, db, s).Done?
    ensures var (s', count) := LowerItems(exprs, n, t, db, s).value;
            if ItemsClean(exprs, n, table) then
              && InScope(s', m', t, table)
              && m' == m.(vars := m'.vars, emitted := m.emitted + ShownItems(exprs, n, table, schema))
              && count == |ShownItems(exprs, n, table, schema)|
              && (Star in s'.memo <==> Star in exprs[..n])
            else Exec(s'.code).Trapped?
  {
    hide Exec, InScope, LowerNode, ShownItem, ValueClean, NoStar;
    m' := m;
    if n == 0 {
      assert InScope(s, m, t, table) && m.emitted + [] == m.emitted;
    } else {
      var e := exprs[n - 1];
      var (s1, _) := LowerItems(exprs, n - 1, t, db, s).value;
      var (s2, _) := LowerItems(exprs, n, t, db, s).value;
      var m1 := ItemsMean(exprs, n - 1, t, table, schema, db, s, m);
      assert exprs[..n] == exprs[..n - 1] + [e];
      if ItemsClean(exprs, n - 1, table) {
        m' := ItemMeans(e, t, table, schema, db, s1, m1);
      } else {
        TrapStays(s1.code, s2.code);
      }
    }
  }

  // ---------- Whole statements ----------

  /** The executor is between two statements. */
  ghost predicate Idle(code: Code, m: Machine) {
    && Exec(code) == Done(m)
    && m.args == [] && m.emitted == [] && m.row == [] && m.rows == [] && m.target == None && m.cells == []
    && (code == [] || code[0].FetchTable?)
    && forall k <- m.vars :: 0 < k < |code|
  }

  lemma ComparisonIsNoTable(e: Expr, db: Db, s: State)
    requires e.Binary? && e !in s.memo && LowerSingle(e, Global, db, s).Done?
    ensures var r := LowerSingle(e, Global, db, s).value; TableSchema(r.state.code, r.id) == None
  {
    var n := LowerNode(e, Global, db, s).value;
    var l := LowerSingle(e.lhs, Global, db, s).value;
    var r := LowerSingle(e.rhs, Global, db, l.state).value;
    assert n.state.code == r.state.code + [Compare(e.op, l.id, r.id)] && n.ids == [|r.state.code|];
  }

  lemma TableIsNamed(table: Expr, db: Db, code: Code)
    requires LowerTable(table, db, code).Done?
    ensures table.Ident? && table.name in db
  {
    var s := State(code, map[]);
    var n := LowerNode(table, Global, db, s);
    if table.Binary? {
      ComparisonIsNoTable(table, db, s);
    } else {
      assert n.Done? ==> CompileExpr(table, Global, db, code).Done?;
    }
  }

  /** The table of a lowered statement is a name in the database, fetched by the first new instruction. */
  lemma TableMeans(table: Expr, db: Db, code: Code, m: Machine) returns (m': Machine)
    requires Idle(code, m) && LowerTable(table, db, code).Done?
    ensures table.Ident? && table.name in db
    ensures LowerTable(table, db, code) ==
            Done(Single(State(code + [FetchTable(table.name, db[table.name])], map[table := |code|]), |code|))
    ensures m' == m.(tables := m'.tables)
    ensures InScope(LowerTable(table, db, code).value.state, m', |code|, table.name)
  {
    hide CompileArgs;
    TableIsNamed(table, db, code);
    var r := LowerTable(table, db, code).value;
    assert CompileExpr(table, Global, db, code) == Done(Emit(code, FetchTable(table.name, db[table.name])));
    assert LowerNode(table, Global, db, State(code, map[])).value.state == r.state;
    m' := m.(tables := m.tables[|code| := table.name]);
    ExecNext(code, FetchTable(table.name, db[table.name]));
    assert Remember(State(r.state.code, map[]), table, |code|).memo == map[table := |code|];
  }

  lemma SelectMeans(exprs: seq<Expr>, table: Expr, db: Db, code: Code, m: Machine) returns (m': Machine)
    requires Idle(code, m) && LowerSelect(exprs, table, db, code).Done?
    requires StarsOnTop(ExprStmt(Select(exprs, table)))
    ensures var code', s := LowerSelect(exprs, table, db, code).value, ExprStmt(Select(exprs, table));
            if Clean(s) then Idle(code', m') && m'.effects == m.effects + [EffectOf(s, db)]
            else Exec(code').Trapped?
  {
    hide Exec, ShownItems, LowerItems, LowerTable, ItemsClean, Remembers;
    var t := LowerTable(table, db, code).value;
    var m1 := TableMeans(table, db, code, m);
    var (s, count) := LowerItems(exprs, |exprs|, t.id, db, t.state).value;
    m' := ItemsMean(exprs, |exprs|, t.id, table.name, db[table.name], db, t.state, m1);
    ExecNext(s.code, EmitQuery(count));
    if ItemsClean(exprs, |exprs|, table.name) {
      var shown := ShownItems(exprs, |exprs|, table.name, db[table.name]);
      assert m'.emitted == shown && m'.emitted[..count] == shown;
      m' := m'.(emitted := [], effects := m.effects + [Show(m'.emitted)]);
    }
  }

  lemma CellPut(code: Code, m: Machine, t: nat, table: string, name: string, v: nat)
    requires At(code, m, t, table)
    ensures if v in m.vars then At(code + [InsertColumn(name, v)], m.(row := m.row + [Cell(name, m.vars[v])]), t, table)
            else Exec(code + [InsertColumn(name, v)]).Trapped?
  {
    ExecNext(code, InsertColumn(name, v));
  }

  /** The first n values of a row. */
  lemma {:induction false} ValuesMean(values: seq<Expr>, n: nat, columns: seq<string>, t: nat, table: string, db: Db,
                                      s: State, m: Machine) returns (m': Machine)
    requires InScope(s, m, t, table) && n <= |values| == |columns|
    requires forall i :: 0 <= i < n ==> NoStar(values[i])
    requires LowerValues(values, n, columns, t, db, s).Done?
    ensures var s' := LowerValues(values, n, columns, t, db, s).value;
            if ValuesClean(values, n, table) then
              && InScope(s', m', t, table)
              && m' == m.(vars := m'.vars, row := m.row + RowCells(values, columns, table)[..n])
            else Exec(s'.code).Trapped?
  {
    hide Exec, At, LowerSingle, Meaning, ValueClean, NoStar, Remembers;
    m' := m;
    if n == 0 {
      assert m.row + RowCells(values, columns, table)[..0] == m.row;
    } else {
      var s1 := LowerValues(values, n - 1, columns, t, db, s).value;
      var s2 := LowerValues(values, n, columns, t, db, s).value;
      var m1 := ValuesMean(values, n - 1, columns, t, table, db, s, m);
      if ValuesClean(values, n - 1, table) {
        var r := LowerSingle(values[n - 1], InTable(t), db, s1).value;
        var m2 := ValueMeans(values[n - 1], t, table, db, s1, m1);
        if !ValueClean(values[n - 1], table) && Exec(r.state.code).Trapped? {
          TrapStays(r.state.code, s2.code);
        } else {
          CellPut(r.state.code, m2, t, table, columns[n - 1], r.id);
          TableHasNoVar(r.state.code, m2, t, table);
          m' := m2.(row := m2.row + [Cell(columns[n - 1], Meaning(values[n - 1], table))]);
          SameMemo(r.state.memo, m2, m', t, table);
          assert RowCells(values, columns, table)[..n] ==
                 RowCells(values, columns, table)[..n - 1] + [Cell(columns[n - 1], Meaning(values[n - 1], table))];
        }
      } else {
        TrapStays(s1.code, s2.code);
      }
    }
  }

  lemma TableHasNoVar(code: Code, m: Machine, t: nat, table: string)
    requires At(code, m, t, table)
    ensures t !in m.vars
  {
  }

  lemma SameMemo(memo: map<Expr, nat>, m: Machine, m': Machine, t: nat, table: string)
    requires Remembers(memo, m, t, table) && m'.vars == m.vars
    ensures Remembers(memo, m', t, table)
  {
  }

  lemma RowPut(code: Code, m: Machine, t: nat, table: string)
    requires At(code, m, t, table)
    ensures At(code + [InsertRow], m.(row := [], rows := m.rows + [m.row]), t, table)
  {
    ExecNext(code, InsertRow);
  }

  /** The first n rows. */
  lemma {:induction false} RowsMean(rows: seq<seq<Expr>>, n: nat, columns: seq<string>, t: nat, table: string, db: Db,
                                    s: State, m: Machine) returns (m': Machine)
    requires InScope(s, m, t, table) && n <= |rows| && m.row == []
    requires forall i, j :: 0 <= i < n && 0 <= j < |rows[i]| ==> NoStar(rows[i][j])
    requires LowerRows(rows, n, columns, t, db, s).Done?
    ensures var s' := LowerRows(rows, n, columns, t, db, s).value;
            if RowsClean(rows, n, table) then
              && InScope(s', m', t, table)
              && m' == m.(vars := m'.vars, rows := m.rows + AllCells(rows, columns, table)[..n])
            else Exec(s'.code).Trapped?
  {
    hide Exec, At, LowerValues, ValuesClean, NoStar, Remembers, RowCells;
    m' := m;
    if n == 0 {
      assert m.rows + AllCells(rows, columns, table)[..0] == m.rows;
    } else {
      var s1 := LowerRows(rows, n - 1, columns, t, db, s).value;
      var s2 := LowerRows(rows, n, columns, t, db, s).value;
      var m1 := RowsMean(rows, n - 1, columns, t, table, db, s, m);
      if RowsClean(rows, n - 1, table) {
        var k, cells := |columns|, RowCells(rows[n - 1], columns, table);
        var r := LowerValues(rows[n - 1], k, columns, t, db, s1).value;
        var m2 := ValuesMean(rows[n - 1], k, columns, t, table, db, s1, m1);
        if ValuesClean(rows[n - 1], k, table) {
          assert |cells| == k && [] + cells[..k] == cells;
          RowPut(r.code, m2, t, table);
          m' := m2.(row := [], rows := m2.rows + [cells]);
          SameMemo(r.memo, m2, m', t, table);
          assert AllCells(rows, columns, table)[..n] == AllCells(rows, columns, table)[..n - 1] + [cells];
        } else {
          TrapStays(r.code, s2.code);
        }
      } else {
        TrapStays(s1.code, s2.code);
      }
    }
  }

  lemma InsertMeans(name: string, columns: seq<string>, rows: seq<seq<Expr>>, db: Db, code: Code, m: Machine)
      returns (m': Machine)
    requires Idle(code, m) && LowerInsert(name, columns, rows, db, code).Done?
    requires StarsOnTop(InsertStmt(name, columns, rows))
    ensures var code', s := LowerInsert(name, columns, rows, db, code).value, InsertStmt(name, columns, rows);
            if Clean(s) then Idle(code', m') && m'.effects == m.effects + [EffectOf(s, db)]
            else Exec(code').Trapped?
  {
    hide Exec, LowerRows, LowerTable, RowsClean, Remembers, NoStar;
    var t := LowerTable(Ident(name), db, code).value;
    var m1 := TableMeans(Ident(name), db, code, m);
    var s := LowerRows(rows, |rows|, columns, t.id, db, t.state).value;
    m' := RowsMean(rows, |rows|, columns, t.id, name, db, t.state, m1);
    ExecNext(s.code, CommitInsert(t.id));
    if RowsClean(rows, |rows|, name) {
      var cells := AllCells(rows, columns, name);
      assert [] + cells[..|rows|] == cells;
      m' := m'.(rows := [], effects := m.effects + [InsertRows(name, cells)]);
    }
  }

  // ---------- UPDATE and DELETE ----------

  lemma UpdatePut(code: Code, m: Machine, t: nat, table: string, name: string, v: nat)
    requires At(code, m, t, table) && (m.target == None || m.target == Some(table))
    ensures if v in m.vars then
              At(code + [UpdateColumn(t, v, name)],
                 m.(target := Some(table), cells := m.cells + [Cell(name, m.vars[v])]), t, table)
            else Exec(code + [UpdateColumn(t, v, name)]).Trapped?
  {
    ExecNext(code, UpdateColumn(t, v, name));
  }

  /** The first n SET clauses. */
  lemma {:induction false} SetsMean(sets: seq<SetClause>, n: nat, schema: Schema, t: nat, table: string, db: Db,
                                    s: State, m: Machine) returns (m': Machine)
    requires InScope(s, m, t, table) && n <= |sets| && m.cells == [] && m.target == None
    requires forall i :: 0 <= i < n ==> NoStar(sets[i].value)
    requires LowerSets(sets, n, schema, t, db, s).Done?
    ensures var s' := LowerSets(sets, n, schema, t, db, s).value;
            if SetsClean(sets, n, table) then
              && InScope(s', m', t, table)
              && m' == m.(vars := m'.vars, cells := SetCells(sets, table)[..n],
                          target := if n > 0 then Some(table) else None)
            else Exec(s'.code).Trapped?
  {
    hide Exec, At, LowerSingle, Meaning, ValueClean, NoStar, Remembers;
    m' := m;
    if n > 0 {
      var clause := sets[n - 1];
      var s1 := LowerSets(sets, n - 1, schema, t, db, s).value;
      var s2 := LowerSets(sets, n, schema, t, db, s).value;
      var m1 := SetsMean(sets, n - 1, schema, t, table, db, s, m);
      if SetsClean(sets, n - 1, table) {
        var r := LowerSingle(clause.value, InTable(t), db, s1).value;
        var m2 := ValueMeans(clause.value, t, table, db, s1, m1);
        if !ValueClean(clause.value, table) && Exec(r.state.code).Trapped? {
          TrapStays(r.state.code, s2.code);
        } else {
          UpdatePut(r.state.code, m2, t, table, clause.name, r.id);
          TableHasNoVar(r.state.code, m2, t, table);
          var cell := Cell(clause.name, Meaning(clause.value, table));
          m' := m2.(target := Some(table), cells := m2.cells + [cell]);
          SameMemo(r.state.memo, m2, m', t, table);
          assert SetCells(sets, table)[..n] == SetCells(sets, table)[..n - 1] + [cell];
        }
      } else {
        TrapStays(s1.code, s2.code);
      }
    }
  }

  lemma UpdateMeans(table: Expr, sets: seq<SetClause>, db: Db, code: Code, m: Machine) returns (m': Machine)
    requires Idle(code, m) && LowerUpdate(table, sets, db, code).Done?
    requires StarsOnTop(UpdateStmt(table, sets, None))
    ensures var code', s := LowerUpdate(table, sets, db, code).value, UpdateStmt(table, sets, None);
            if Clean(s) then Idle(code', m') && m'.effects == m.effects + [EffectOf(s, db)]
            else Exec(code').Trapped?
  {
    hide Exec, LowerSets, LowerTable, SetsClean, Remembers, NoStar;
    var t := LowerTable(table, db, code).value;
    var m1 := TableMeans(table, db, code, m);
    var schema := TableSchema(t.state.code, t.id).value;
    var s := LowerSets(sets, |sets|, schema, t.id, db, t.state).value;
    m' := SetsMean(sets, |sets|, schema, t.id, table.name, db, t.state, m1);
    ExecNext(s.code, CommitUpdate);
    if SetsClean(sets, |sets|, table.name) && sets != [] {
      var cells := SetCells(sets, table.name);
      assert cells[..|sets|] == cells;
      m' := m'.(target := None, cells := [], effects := m.effects + [WriteColumns(table.name, cells)]);
    }
  }

  lemma DeleteMeans(table: Expr, db: Db, code: Code, m: Machine) returns (m': Machine)
    requires Idle(code, m) && LowerDelete(table, db, code).Done?
    ensures var code', s := LowerDelete(table, db, code).value, DeleteStmt(table, None);
            Idle(code', m') && m'.effects == m.effects + [EffectOf(s, db)]
  {
    hide Exec, LowerTable, Remembers;
    var t := LowerTable(table, db, code).value;
    var m1 := TableMeans(table, db, code, m);
    ExecNext(t.state.code, DeleteTable(t.id));
    m' := m1.(effects := m.effects + [DeleteRows(table.name)]);
  }

  // ---------- Queries ----------

  lemma StmtMeans(s: Stmt, db: Db, code: Code, m: Machine) returns (m': Machine)
    requires Modelled(s) && StarsOnTop(s) && Idle(code, m) && LowerStmt(s, db, code).Done?
    ensures var code' := LowerStmt(s, db, code).value;
            if Clean(s) then Idle(code', m') && m'.effects == m.effects + [EffectOf(s, db)]
            else Exec(code').Trapped?
  {
    hide Idle, Exec, LowerSelect, LowerInsert, LowerUpdate, LowerDelete, EffectOf, Clean, StarsOnTop;
    match s
    case ExprStmt(e) => m' := SelectMeans(e.exprs, e.table, db, code, m);
    case InsertStmt(name, columns, rows) => m' := InsertMeans(name, columns, rows, db, code, m);
    case UpdateStmt(table, sets, _) => m' := UpdateMeans(table, sets, db, code, m);
    case DeleteStmt(table, _) =>
      m' := DeleteMeans(table, db, code, m);
      DeleteIsClean(table);
  }

  lemma DeleteIsClean(table: Expr)
    ensures Clean(DeleteStmt(table, None))
  {
  }

  function Effects(stmts: seq<Stmt>, n: nat, db: Db): seq<Effect>
    requires n <= |stmts| && forall i :: 0 <= i < |stmts| ==> Modelled(stmts[i])
  {
    if n == 0 then [] else Effects(stmts, n - 1, db) + [EffectOf(stmts[n - 1], db)]
  }

  /**
   When a query compiles, its IR asks for exactly the effects that the statements ask for, in order, if every statement
   is clean; if one is not, the executor stops at a failed assertion. The types of what a SELECT shows, for which the
   executor may stop as well, are looked at in `QueryRun.AcceptedRunIff`.
   */
  lemma {:induction false} LoweringPreservesMeaning(stmts: seq<Stmt>, n: nat, db: Db) returns (m: Machine)
    requires n <= |stmts| && forall i :: 0 <= i < |stmts| ==> Modelled(stmts[i]) && StarsOnTop(stmts[i])
    requires LowerQuery(stmts, n, db).Done?
    ensures var code := LowerQuery(stmts, n, db).value;
            if forall i :: 0 <= i < n ==> Clean(stmts[i]) then Idle(code, m) && m.effects == Effects(stmts, n, db)
            else Exec(code).Trapped?
  {
    hide Idle, LowerStmt, EffectOf, Clean, StarsOnTop;
    if n == 0 {
      m := Start();
      StartsIdle();
    } else {
      var code1 := LowerQuery(stmts, n - 1, db).value;
      var code := LowerQuery(stmts, n, db).value;
      var m1 := LoweringPreservesMeaning(stmts, n - 1, db);
      if forall i :: 0 <= i < n - 1 ==> Clean(stmts[i]) {
        m := StmtMeans(stmts[n - 1], db, code1, m1);
      } else {
        TrapStays(code1, code);
        m := m1;
      }
    }
  }

  lemma StartsIdle()
    ensures Idle([], Start()) && Start().effects == []
  {
  }
}
