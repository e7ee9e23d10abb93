/**
 Lowering of statements to the flat IR: `src/SQL/ir.cpp` and `src/SQL/ir.hpp`. An expression that was compiled once is
 not compiled again; `memo` holds the IR ids of the expressions that are done. The graph with its visited flags, which
 the compiler builds for this, is in module StmtGraphs and is proved to give the code defined here.
 */
module Lowering {
  import opened Ast
  import opened Bytes
  import opened RecordLayout
  import opened Wrappers

  // ---------- The IR ----------

  datatype Schema = Schema(names: seq<string>, types: seq<ColumnType>)

  predicate WellFormed(s: Schema) {
    |s.names| == |s.types|
  }

  type Db = map<string, Schema>

  predicate WellFormedDb(db: Db) {
    forall name :: name in db ==> WellFormed(db[name])
  }

  datatype Instr =
    | ConstInt(value: S64)
    | ConstString(text: string)
    | ConstTrue
    | ConstFalse
    | ConstNull
    | FetchTable(name: string, schema: Schema)
    | FetchColumn(table: nat, name: string)
    | Compare(op: Operator, lhs: nat, rhs: nat)
    | Arg(arg: nat)
    | Call(fn: string, count: nat)
    | EmitColumn(table: nat, column: nat, name: string)
    | EmitQuery(count: nat)
    | InsertColumn(name: string, column: nat)
    | InsertRow
    | CommitInsert(table: nat)
    | UpdateColumn(table: nat, column: nat, name: string)
    | CommitUpdate
    | DeleteTable(table: nat)

  type Code = seq<Instr>

  // ---------- Expressions ----------

  /** The top of the namespace stack. */
  datatype Scope = Global | InTable(id: nat)

  datatype Compiled = Compiled(code: Code, id: nat)

  function Emit(code: Code, i: Instr): Compiled {
    Compiled(code + [i], |code|)
  }

  /** `get_table_schema_by_id` */
  function TableSchema(code: Code, id: nat): Option<Schema> {
    if id < |code| && code[id].FetchTable? then Some(code[id].schema) else None
  }

  /** `compile_ident` */
  function CompileIdent(name: string, scope: Scope, db: Db, code: Code): (r: Outcome<Compiled>)
    ensures r.Done? ==> code < r.value.code && r.value.id < |r.value.code|
  {
    match scope
    case InTable(t) => (
      match TableSchema(code, t)
      case None => Trapped
      case Some(schema) => if name in schema.names then Done(Emit(code, FetchColumn(t, name))) else Failed
    )
    case Global =>
      if name in db then Done(Emit(code, FetchTable(name, db[name]))) else Failed
  }

  /** `compile_expr` */
  function CompileExpr(e: Expr, scope: Scope, db: Db, code: Code): (r: Outcome<Compiled>)
    ensures r.Done? ==> code < r.value.code && r.value.id < |r.value.code|
    decreases e, 0
  {
    match e
    case IntegerLit(i) => Done(Emit(code, ConstInt(i)))
    case StringLit(s) => Done(Emit(code, ConstString(s)))
    case TrueLit => Done(Emit(code, ConstTrue))
    case FalseLit => Done(Emit(code, ConstFalse))
    case NullLit => Done(Emit(code, ConstNull))
    case Ident(name) => CompileIdent(name, scope, db, code)
    case Call(fn, args) => (
      if !fn.Ident? then Trapped
      else match CompileArgs(args, |args|, scope, db, code)
        case Done(code') => Done(Emit(code', Instr.Call(fn.name, |args|)))
        case Failed => Failed
        case Trapped => Trapped
    )
    case _ => Trapped
  }

  /** The first n arguments of a call. */
  function CompileArgs(args: seq<Expr>, n: nat, scope: Scope, db: Db, code: Code): (r: Outcome<Code>)
    requires n <= |args|
    ensures r.Done? ==> code <= r.value
    decreases args, n
  {
    if n == 0 then Done(code)
    else match CompileArgs(args, n - 1, scope, db, code)
      case Done(code') => (
        match CompileExpr(args[n - 1], scope, db, code')
        case Done(c) => Done(c.code + [Arg(c.id)])
        case Failed => Failed
        case Trapped => Trapped
      )
      case Failed => Failed
      case Trapped => Trapped
  }

  // ---------- Expressions, each compiled once ----------

  datatype State = State(code: Code, memo: map<Expr, nat>)
  datatype Single = Single(state: State, id: nat)
  datatype Several = Several(state: State, ids: seq<nat>)

  function Remember(s: State, e: Expr, id: nat): State {
    if Shareable(e) then s.(memo := s.memo[e := id]) else s
  }

  /** `compile_graph_node` for the nodes of expressions: a STAR gives several ids. */
  function LowerNode(e: Expr, scope: Scope, db: Db, s: State): (r: Outcome<Several>)
    ensures r.Done? ==> s.code <= r.value.state.code
    decreases e, 0
  {
    if Shareable(e) && e in s.memo then Done(Several(s, [s.memo[e]]))
    else match e
      case Binary(op, lhs, rhs) => (
        match LowerSingle(lhs, scope, db, s)
        case Failed => Failed
        case Trapped => Trapped
        case Done(l) => (
          match LowerSingle(rhs, scope, db, l.state)
          case Failed => Failed
          case Trapped => Trapped
          case Done(r) =>
            var c := Emit(r.state.code, Compare(op, l.id, r.id));
            Done(Several(Remember(r.state.(code := c.code), e, c.id), [c.id]))
        )
      )
      case Star => (
        match scope
        case Global => Trapped
        case InTable(t) => (
          match TableSchema(s.code, t)
          case None => Trapped
          case Some(schema) =>
            // the node keeps the IR id it was made with, zero
            Done(Several(Remember(s.(code := s.code + FetchAll(t, schema.names)), e, 0), Ids(|s.code|, |schema.names|)))
        )
      )
      case Select(_, _) => Trapped // nested queries are not modelled
      case _ => (
        match CompileExpr(e, scope, db, s.code)
        case Failed => Failed
        case Trapped => Trapped
        case Done(c) => Done(Several(Remember(s.(code := c.code), e, c.id), [c.id]))
      )
  }

  function FetchAll(t: nat, names: seq<string>): Code {
    seq(|names|, i requires 0 <= i < |names| => FetchColumn(t, names[i]))
  }

  function Ids(start: nat, n: nat): seq<nat> {
    seq(n, i requires 0 <= i < n => start + i)
  }

  /** `compile_graph_node_single` */
  function LowerSingle(e: Expr, scope: Scope, db: Db, s: State): (r: Outcome<Single>)
    ensures r.Done? ==> s.code <= r.value.state.code
    decreases e, 1
  {
    match LowerNode(e, scope, db, s)
    case Failed => Failed
    case Trapped => Trapped
    case Done(r) => if |r.ids| == 1 then Done(Single(r.state, r.ids[0])) else Trapped
  }

  // ---------- Statements ----------

  /** The table of a statement: compiled first, in the global namespace. */
  function LowerTable(table: Expr, db: Db, code: Code): (r: Outcome<Single>)
    ensures r.Done? ==> code <= r.value.state.code && TableSchema(r.value.state.code, r.value.id).Some?
  {
    match LowerSingle(table, Global, db, State(code, map[]))
    case Failed => Failed
    case Trapped => Trapped
    case Done(t) => if TableSchema(t.state.code, t.id).Some? then Done(t) else Failed
  }

  function NameOf(e: Expr): string {
    if e.Ident? then e.name else ""
  }

  function EmitAll(t: nat, ids: seq<nat>, name: string): Code {
    seq(|ids|, i requires 0 <= i < |ids| => EmitColumn(t, ids[i], name))
  }

  /** The first n items of a select list, and how many columns they are. */
  function LowerItems(exprs: seq<Expr>, n: nat, t: nat, db: Db, s: State): (r: Outcome<(State, nat)>)
    requires n <= |exprs|
    ensures r.Done? ==> s.code <= r.value.0.code
  {
    if n == 0 then Done((s, 0))
    else match LowerItems(exprs, n - 1, t, db, s)
      case Failed => Failed
      case Trapped => Trapped
      case Done((s', count)) => (
        match LowerNode(exprs[n - 1], InTable(t), db, s')
        case Failed => Failed
        case Trapped => Trapped
        case Done(r) =>
          Done((r.state.(code := r.state.code + EmitAll(t, r.ids, NameOf(exprs[n - 1]))), count + |r.ids|))
      )
  }

  function LowerSelect(exprs: seq<Expr>, table: Expr, db: Db, code: Code): (r: Outcome<Code>)
    ensures r.Done? ==> code < r.value
  {
    match LowerTable(table, db, code)
    case Failed => Failed
    case Trapped => Trapped
    case Done(t) => (
      match LowerItems(exprs, |exprs|, t.id, db, t.state)
      case Failed => Failed
      case Trapped => Trapped
      case Done((s, count)) => Done(s.code + [EmitQuery(count)])
    )
  }

  /** The first n values of a row of an INSERT. */
  function LowerValues(values: seq<Expr>, n: nat, columns: seq<string>, t: nat, db: Db, s: State): (r: Outcome<State>)
    requires n <= |values| == |columns|
    ensures r.Done? ==> s.code <= r.value.code
  {
    if n == 0 then Done(s)
    else match LowerValues(values, n - 1, columns, t, db, s)
      case Failed => Failed
      case Trapped => Trapped
      case Done(s') => (
        match LowerSingle(values[n - 1], InTable(t), db, s')
        case Failed => Failed
        case Trapped => Trapped
        case Done(r) => Done(r.state.(code := r.state.code + [InsertColumn(columns[n - 1], r.id)]))
      )
  }

  function LowerRows(rows: seq<seq<Expr>>, n: nat, columns: seq<string>, t: nat, db: Db, s: State): (r: Outcome<State>)
    requires n <= |rows|
    ensures r.Done? ==> s.code <= r.value.code
  {
    if n == 0 then Done(s)
    else match LowerRows(rows, n - 1, columns, t, db, s)
      case Failed => Failed
      case Trapped => Trapped
      case Done(s') => (
        if |rows[n - 1]| != |columns| then Failed
        else match LowerValues(rows[n - 1], |columns|, columns, t, db, s')
          case Failed => Failed
          case Trapped => Trapped
          case Done(s'') => Done(s''.(code := s''.code + [InsertRow]))
      )
  }

  function LowerInsert(name: string, columns: seq<string>, rows: seq<seq<Expr>>, db: Db, code: Code): (r: Outcome<Code>)
    ensures r.Done? ==> code < r.value
  {
    match LowerTable(Ident(name), db, code)
    case Failed => Failed
    case Trapped => Trapped
    case Done(t) => (
      var schema := TableSchema(t.state.code, t.id).value;
      if |columns| != |schema.names| || exists c :: c in columns && c !in schema.names then Failed
      else match LowerRows(rows, |rows|, columns, t.id, db, t.state)
        case Failed => Failed
        case Trapped => Trapped
        case Done(s) => Done(s.code + [CommitInsert(t.id)])
    )
  }

  /** The first n SET clauses of an UPDATE. */
  function LowerSets(sets: seq<SetClause>, n: nat, schema: Schema, t: nat, db: Db, s: State): (r: Outcome<State>)
    requires n <= |sets|
    ensures r.Done? ==> s.code <= r.value.code
  {
    if n == 0 then Done(s)
    else match LowerSets(sets, n - 1, schema, t, db, s)
      case Failed => Failed
      case Trapped => Trapped
      case Done(s') => (
        if sets[n - 1].name !in schema.names then Failed
        else match LowerSingle(sets[n - 1].value, InTable(t), db, s')
          case Failed => Failed
          case Trapped => Trapped
          case Done(r) => Done(r.state.(code := r.state.code + [UpdateColumn(t, r.id, sets[n - 1].name)]))
      )
  }

  function LowerUpdate(table: Expr, sets: seq<SetClause>, db: Db, code: Code): (r: Outcome<Code>)
    ensures r.Done? ==> code < r.value
  {
    match LowerTable(table, db, code)
    case Failed => Failed
    case Trapped => Trapped
    case Done(t) => (
      match LowerSets(sets, |sets|, TableSchema(t.state.code, t.id).value, t.id, db, t.state)
      case Failed => Failed
      case Trapped => Trapped
      case Done(s) => Done(s.code + [CommitUpdate])
    )
  }

  function LowerDelete(table: Expr, db: Db, code: Code): (r: Outcome<Code>)
    ensures r.Done? ==> code < r.value
  {
    match LowerTable(table, db, code)
    case Failed => Failed
    case Trapped => Trapped
    case Done(t) => Done(t.state.code + [DeleteTable(t.id)])
  }

  /** The statements of this model: SELECT, INSERT, UPDATE and DELETE. */
  predicate Modelled(s: Stmt) {
    match s
    case ExprStmt(e) => e.Select?
    case InsertStmt(_, _, _) => true
    case UpdateStmt(_, _, _) => true
    case DeleteStmt(_, _) => true
    case _ => false
  }

  function LowerStmt(s: Stmt, db: Db, code: Code): (r: Outcome<Code>)
    requires Modelled(s)
    ensures r.Done? ==> code < r.value
  {
    match s
    case ExprStmt(e) => LowerSelect(e.exprs, e.table, db, code)
    case InsertStmt(name, columns, rows) => LowerInsert(name, columns, rows, db, code)
    case UpdateStmt(table, sets, filter) => if filter.Some? then Trapped else LowerUpdate(table, sets, db, code)
    case DeleteStmt(table, filter) => if filter.Some? then Trapped else LowerDelete(table, db, code)
  }

  /** `ir_compile_query` for the first n statements. */
  function LowerQuery(stmts: seq<Stmt>, n: nat, db: Db): Outcome<Code>
    requires n <= |stmts| && forall i :: 0 <= i < |stmts| ==> Modelled(stmts[i])
  {
    if n == 0 then Done([])
    else match LowerQuery(stmts, n - 1, db)
      case Failed => Failed
      case Trapped => Trapped
      case Done(code) => LowerStmt(stmts[n - 1], db, code)
  }

  // ---------- Each expression once ----------

  /** Ids that were given to expressions stay. */
  lemma {:induction false} MemoGrows(e: Expr, scope: Scope, db: Db, s: State)
    requires LowerNode(e, scope, db, s).Done?
    ensures var s' := LowerNode(e, scope, db, s).value.state;
            forall x <- s.memo :: x in s'.memo && s'.memo[x] == s.memo[x]
  {
    hide CompileExpr;
    if e.Binary? && !(Shareable(e) && e in s.memo) {
      MemoGrows(e.lhs, scope, db, s);
      MemoGrows(e.rhs, scope, db, LowerSingle(e.lhs, scope, db, s).value.state);
    }
  }

  /** A shared expression is emitted once: wherever it comes again, whatever was compiled between, it costs no instruction. */
  lemma EmittedOnce(e: Expr, between: Expr, scope: Scope, db: Db, s: State)
    requires Shareable(e) && e != Star && LowerNode(e, scope, db, s).Done?
    requires LowerNode(between, scope, db, LowerNode(e, scope, db, s).value.state).Done?
    ensures var first := LowerNode(e, scope, db, s).value;
            var s' := LowerNode(between, scope, db, first.state).value.state;
            LowerNode(e, scope, db, s') == Done(Several(s', first.ids))
  {
    hide CompileExpr;
    var first := LowerNode(e, scope, db, s).value;
    MemoGrows(between, scope, db, first.state);
    assert e in first.state.memo && first.ids == [first.state.memo[e]];
  }
}
