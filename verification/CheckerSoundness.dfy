/**
 What the type checker says to a query, as written and with its two repairs: its verdict on the IR is a verdict on what
 the statements ask for, read off the values and the schemas of the database alone.
 */
module CheckerSoundness {
  import opened Ast
  import opened CompiledNames
  import opened Execution
  import opened Lowering
  import opened StatementMeaning
  import opened TypeCheck
  import opened Wrappers

  type Functions = map<string, Signature>

  // ---------- Types of values ----------

  function TypeOfColumn(table: string, column: string, db: Db): Option<Type> {
    if table in db && WellFormed(db[table]) then FindColumn(Typed(db[table]), column) else None
  }

  /** The type of a value; none if a comparison or a call in it does not fit its operands. */
  function TypeOfValue(v: Sym, db: Db, functions: Functions): Option<Type>
    decreases v
  {
    match v
    case Number(_) => Some(TYPE_INT)
    case String(_) => Some(TYPE_STRING)
    case True => Some(TYPE_BOOL)
    case False => Some(TYPE_BOOL)
    case Nothing => Some(TYPE_NULL)
    case ColumnOf(table, column) => TypeOfColumn(table, column, db)
    case Compared(_, lhs, rhs) =>
      if OperandsFit(TypeOfValue(lhs, db, functions), TypeOfValue(rhs, db, functions)) then Some(TYPE_BOOL) else None
    case Returned(fn, args) =>
      if fn in functions && |functions[fn].parameters| == |args|
         && forall i :: 0 <= i < |args| ==> TypeOfValue(args[i], db, functions) == Some(functions[fn].parameters[i])
      then Some(functions[fn].result) else None
  }

  predicate OperandsFit(l: Option<Type>, r: Option<Type>) {
    l.Some? && r.Some? && Comparable(l.value) && TypesEqual(l.value, r.value)
  }

  predicate HasType(v: Sym, db: Db, functions: Functions) {
    TypeOfValue(v, db, functions).Some?
  }

  /** The value has a type, and it goes with the type of the column. */
  predicate CellTyped(c: Cell, table: string, db: Db, functions: Functions) {
    var v, t := TypeOfValue(c.value, db, functions), TypeOfColumn(table, c.column, db);
    v.Some? && t.Some? && TypesEqual(v.value, t.value)
  }

  predicate CellsTyped(cells: seq<Cell>, table: string, db: Db, functions: Functions) {
    forall k :: 0 <= k < |cells| ==> CellTyped(cells[k], table, db, functions)
  }

  predicate EffectTyped(e: Effect, db: Db, functions: Functions) {
    match e
    case Show(columns) => forall k :: 0 <= k < |columns| ==> HasType(columns[k].value, db, functions)
    case InsertRows(table, rows) => CellsTyped(Concat(rows), table, db, functions)
    case WriteColumns(table, cells) => CellsTyped(cells, table, db, functions)
    case DeleteRows(_) => true
  }

  function Concat(rows: seq<seq<Cell>>): seq<Cell> {
    if rows == [] then [] else Concat(rows[..|rows| - 1]) + rows[|rows| - 1]
  }

  /** The cells of all rows that were inserted, in order. */
  function Inserted(effects: seq<Effect>): seq<Cell> {
    if effects == [] then []
    else Inserted(effects[..|effects| - 1]) + CellsOf(effects[|effects| - 1])
  }

  function CellsOf(e: Effect): seq<Cell> {
    if e.InsertRows? then Concat(e.rows) else []
  }

  // ---------- Verdicts ----------

  /** The checker goes on, ends with an error for the user, or stops the server. */
  datatype Verdict = Accepts | Rejects | Stops

  function Then(v: Verdict, next: Verdict): Verdict {
    if v == Accepts then next else v
  }

  /** `<` and `>` stop the checker as written, whatever they compare. */
  function CompareVerdict(op: Operator, lhs: Sym, rhs: Sym, db: Db, functions: Functions, mode: Mode): Verdict {
    if op != EQ && mode == AsWritten then Stops
    else if OperandsFit(TypeOfValue(lhs, db, functions), TypeOfValue(rhs, db, functions)) then Accepts else Rejects
  }

  function CallVerdict(fn: string, args: seq<Sym>, db: Db, functions: Functions): Verdict {
    if HasType(Returned(fn, args), db, functions) then Accepts else Rejects
  }

  function ColumnVerdict(table: string, column: string, db: Db): Verdict {
    if TypeOfColumn(table, column, db).Some? then Accepts else Stops
  }

  /** The operands of a value are looked at from left to right, and then the value itself. */
  function ValueVerdict(v: Sym, db: Db, functions: Functions, mode: Mode): Verdict
    decreases v, 0
  {
    match v
    case ColumnOf(table, column) => ColumnVerdict(table, column, db)
    case Compared(op, lhs, rhs) =>
      Then(Then(ValueVerdict(lhs, db, functions, mode), ValueVerdict(rhs, db, functions, mode)),
           CompareVerdict(op, lhs, rhs, db, functions, mode))
    case Returned(fn, args) => Then(ArgsVerdict(args, |args|, db, functions, mode), CallVerdict(fn, args, db, functions))
    case _ => Accepts
  }

  function ArgsVerdict(args: seq<Sym>, n: nat, db: Db, functions: Functions, mode: Mode): Verdict
    requires n <= |args|
    decreases args, n
  {
    if n == 0 then Accepts
    else Then(ArgsVerdict(args, n - 1, db, functions, mode), ValueVerdict(args[n - 1], db, functions, mode))
  }

  /** A value for a column: one that the table does not have stops the checker, one of another type is an error. */
  function FitVerdict(c: Cell, table: string, db: Db, functions: Functions): Verdict {
    if TypeOfColumn(table, c.column, db).None? then Stops
    else if CellTyped(c, table, db, functions) then Accepts else Rejects
  }

  /** The first of the cells that does not fit the table decides. */
  function PendingVerdict(cells: seq<Cell>, table: string, db: Db, functions: Functions): Verdict {
    if cells == [] then Accepts
    else Then(FitVerdict(cells[0], table, db, functions), PendingVerdict(cells[1..], table, db, functions))
  }

  function CellsVerdict(cells: seq<Cell>, n: nat, db: Db, functions: Functions, mode: Mode): Verdict
    requires n <= |cells|
  {
    if n == 0 then Accepts
    else Then(CellsVerdict(cells, n - 1, db, functions, mode), ValueVerdict(cells[n - 1].value, db, functions, mode))
  }

  function RowsVerdict(rows: seq<seq<Cell>>, n: nat, db: Db, functions: Functions, mode: Mode): Verdict
    requires n <= |rows|
  {
    if n == 0 then Accepts
    else Then(RowsVerdict(rows, n - 1, db, functions, mode),
              CellsVerdict(rows[n - 1], |rows[n - 1]|, db, functions, mode))
  }

  function WritesVerdict(cells: seq<Cell>, n: nat, table: string, db: Db, functions: Functions, mode: Mode): Verdict
    requires n <= |cells|
  {
    if n == 0 then Accepts
    else Then(Then(WritesVerdict(cells, n - 1, table, db, functions, mode),
                   ValueVerdict(cells[n - 1].value, db, functions, mode)),
              FitVerdict(cells[n - 1], table, db, functions))
  }

  function ShownVerdict(columns: seq<Shown>, n: nat, db: Db, functions: Functions, mode: Mode): Verdict
    requires n <= |columns|
  {
    if n == 0 then Accepts
    else Then(ShownVerdict(columns, n - 1, db, functions, mode),
              ValueVerdict(columns[n - 1].value, db, functions, mode))
  }

  /** The columns that a commit looks at: as written, those of the INSERTs before it as well. */
  function StillPending(before: seq<Effect>, mode: Mode): seq<Cell> {
    if mode == AsWritten then Inserted(before) else []
  }

  function EffectVerdict(before: seq<Effect>, e: Effect, db: Db, functions: Functions, mode: Mode): Verdict {
    match e
    case Show(columns) => ShownVerdict(columns, |columns|, db, functions, mode)
    case InsertRows(table, rows) =>
      Then(RowsVerdict(rows, |rows|, db, functions, mode),
           PendingVerdict(StillPending(before, mode) + Concat(rows), table, db, functions))
    case WriteColumns(table, cells) => WritesVerdict(cells, |cells|, table, db, functions, mode)
    case DeleteRows(_) => Accepts
  }

  /** The verdict on all that a query asks for: the first effect that is not accepted decides. */
  function QueryVerdict(effects: seq<Effect>, db: Db, functions: Functions, mode: Mode): Verdict {
    if effects == [] then Accepts
    else
      var n := |effects| - 1;
      Then(QueryVerdict(effects[..n], db, functions, mode), EffectVerdict(effects[..n], effects[n], db, functions, mode))
  }

  // ---------- The verdict on a program that the executor can run ----------

  function Pending(m: Machine, mode: Mode): seq<Cell> {
    StillPending(m.effects, mode) + Concat(m.rows) + m.row
  }

  function StepVerdict(i: Instr, m: Machine, db: Db, functions: Functions, mode: Mode): Verdict {
    match i
    case FetchColumn(t, name) => if t in m.tables then ColumnVerdict(m.tables[t], name, db) else Stops
    case Compare(op, l, r) =>
      if l in m.vars && r in m.vars then CompareVerdict(op, m.vars[l], m.vars[r], db, functions, mode) else Stops
    case Call(fn, _) => CallVerdict(fn, m.args, db, functions)
    case CommitInsert(t) =>
      if t in m.tables then PendingVerdict(Pending(m, mode), m.tables[t], db, functions) else Stops
    case UpdateColumn(t, v, name) =>
      if t in m.tables && v in m.vars then FitVerdict(Cell(name, m.vars[v]), m.tables[t], db, functions) else Stops
    case _ => Accepts
  }

  function RunVerdict(code: Code, db: Db, functions: Functions, mode: Mode): Verdict {
    if code == [] then Accepts
    else
      var n := |code| - 1;
      match Exec(code[..n])
      case Done(m) => Then(RunVerdict(code[..n], db, functions, mode), StepVerdict(code[n], m, db, functions, mode))
      case _ => Stops
  }

  // ---------- What the checker knows of the executor ----------

  /** The id was typed before instruction ip, with the type of the value. */
  predicate TypedAs(v: Sym, id: nat, ip: nat, types: map<nat, Type>, db: Db, functions: Functions) {
    id < ip && id in types && TypeOfValue(v, db, functions) == Some(types[id])
  }

  ghost predicate Agree(code: Code, ip: nat, m: Machine, st: Typing, db: Db, functions: Functions, mode: Mode) {
    && WellTyped(st)
    && VarsAgree(m.vars, ip, st.types, db, functions)
    && TablesAgree(m.tables, ip, st.tables, db)
    && ArgsAgree(m.args, st.args, ip, st.types, db, functions)
    && PendingAgrees(Pending(m, mode), st.names, st.values, ip, st.types, db, functions)
    && EmittedAgrees(code, m.emitted, st.emitted, ip, st.types, db, functions)
  }

  predicate VarsAgree(vars: map<nat, Sym>, ip: nat, types: map<nat, Type>, db: Db, functions: Functions) {
    forall v <- vars :: TypedAs(vars[v], v, ip, types, db, functions)
  }

  predicate TablesAgree(tables: map<nat, string>, ip: nat, schemas: map<nat, TypedSchema>, db: Db) {
    forall t <- tables ::
      t < ip && tables[t] in db && WellFormed(db[tables[t]]) && t in schemas && schemas[t] == Typed(db[tables[t]])
  }

  predicate ArgsAgree(args: seq<Sym>, ids: seq<nat>, ip: nat, types: map<nat, Type>, db: Db, functions: Functions) {
    |args| == |ids| && forall a :: 0 <= a < |args| ==> TypedAs(args[a], ids[a], ip, types, db, functions)
  }

  /** The pending columns of the checker. */
  predicate PendingAgrees(cells: seq<Cell>, names: seq<string>, ids: seq<nat>, ip: nat, types: map<nat, Type>, db: Db,
                          functions: Functions) {
    && |cells| == |names| == |ids|
    && forall k :: 0 <= k < |cells| ==>
         cells[k].column == names[k] && TypedAs(cells[k].value, ids[k], ip, types, db, functions)
  }

  /** The columns emitted last; the checker may hold older ones before them. */
  predicate EmittedAgrees(code: Code, emitted: seq<Shown>, ips: seq<nat>, ip: nat, types: map<nat, Type>, db: Db,
                          functions: Functions) {
    && |emitted| <= |ips|
    && forall k :: 0 <= k < |emitted| ==>
         EmitTyped(code, emitted[k], ips[|ips| - |emitted| + k], ip, types, db, functions)
  }

  predicate EmitTyped(code: Code, v: Shown, e: nat, ip: nat, types: map<nat, Type>, db: Db, functions: Functions) {
    && e < ip && e < |code| && code[e].EmitColumn? && code[e].name == v.name
    && TypedAs(v.value, code[e].column, ip, types, db, functions)
  }

  /** What the checker knows stays right behind instruction ip, whatever type that gets. */
  lemma Onward(code: Code, ip: nat, m: Machine, st: Typing, types: map<nat, Type>, db: Db, functions: Functions, mode: Mode)
    requires Agree(code, ip, m, st, db, functions, mode)
    requires forall id <- st.types :: id < ip ==> id in types && types[id] == st.types[id]
    ensures VarsAgree(m.vars, ip + 1, types, db, functions)
    ensures TablesAgree(m.tables, ip + 1, st.tables, db) && TablesAgree(m.tables, ip, st.tables, db)
    ensures ArgsAgree(m.args, st.args, ip + 1, types, db, functions)
    ensures PendingAgrees(Pending(m, mode), st.names, st.values, ip + 1, types, db, functions)
    ensures EmittedAgrees(code, m.emitted, st.emitted, ip + 1, types, db, functions)
    ensures WellTyped(st)
  {
    hide TypeOfValue, Pending;
  }

  /** What agreement says about the lookups of the checker. */
  lemma Known(code: Code, ip: nat, m: Machine, st: Typing, db: Db, functions: Functions, mode: Mode)
    requires Agree(code, ip, m, st, db, functions, mode)
    ensures forall v <- m.vars :: v < ip && v in st.types && TypeOfValue(m.vars[v], db, functions) == Some(st.types[v])
    ensures forall t <- m.tables :: m.tables[t] in db && WellFormed(db[m.tables[t]])
    ensures forall t <- m.tables :: t in st.tables && st.tables[t] == Typed(db[m.tables[t]])
    ensures |m.args| == |st.args|
    ensures forall a :: 0 <= a < |m.args| ==> st.args[a] in st.types
    ensures forall a :: 0 <= a < |m.args| ==> TypeOfValue(m.args[a], db, functions) == Some(st.types[st.args[a]])
    ensures PendingAgrees(Pending(m, mode), st.names, st.values, ip, st.types, db, functions)
    ensures EmittedAgrees(code, m.emitted, st.emitted, ip, st.types, db, functions)
  {
    hide TypeOfValue, PendingAgrees, EmittedAgrees, Pending;
    assert forall v <- m.vars :: TypedAs(m.vars[v], v, ip, st.types, db, functions);
  }

  // ---------- The loops of the checker ----------

  lemma {:induction false} ArgsCheckIff(st: Typing, parameters: seq<Type>, k: nat)
    requires |parameters| == |st.args| && k <= |st.args|
    requires forall a :: 0 <= a < |st.args| ==> st.args[a] in st.types
    ensures CheckArgs(st, parameters, k) == if forall a :: k <= a < |st.args| ==> st.types[st.args[a]] == parameters[a]
                                            then Done(()) else Failed
    decreases |st.args| - k
  {
    if k < |st.args| {
      ArgsCheckIff(st, parameters, k + 1);
    }
  }

  function VerdictOf<T>(r: Outcome<T>): Verdict {
    match r
    case Done(_) => Accepts
    case Failed => Rejects
    case Trapped => Stops
  }

  lemma {:induction false} PendingChecks(st: Typing, table: string, cells: seq<Cell>, ip: nat, k: nat, db: Db,
                                         functions: Functions)
    requires WellTyped(st) && table in db && WellFormed(db[table]) && k <= |cells|
    requires PendingAgrees(cells, st.names, st.values, ip, st.types, db, functions)
    ensures VerdictOf(CheckPending(st, Typed(db[table]), k)) == PendingVerdict(cells[k..], table, db, functions)
    decreases |cells| - k
  {
    hide FindColumn, TypeOfValue, TypesEqual;
    if k < |cells| {
      PendingChecks(st, table, cells, ip, k + 1, db, functions);
      assert TypedAs(cells[k].value, st.values[k], ip, st.types, db, functions);
      assert cells[k..][0] == cells[k] && cells[k..][1..] == cells[k + 1..];
    }
  }

  // ---------- One instruction ----------

  /** An instruction that the executor gets over, before and after. */
  ghost predicate Runs(code: Code, ip: nat, m: Machine, m': Machine, st: Typing, db: Db, functions: Functions, mode: Mode) {
    && ip < |code| && Agree(code, ip, m, st, db, functions, mode) && WellTyped(st)
    && Step(code[ip], ip, m) == Done(m') && NameOk(code[ip], code[..ip], db)
    && (code[ip].CommitInsert? ==> m.row == [])
  }

  ghost predicate Judged(code: Code, ip: nat, m: Machine, m': Machine, st: Typing, db: Db, functions: Functions, mode: Mode)
    requires ip < |code| && WellTyped(st)
  {
    var r := CheckOne(code, ip, st, functions, mode);
    && VerdictOf(r) == StepVerdict(code[ip], m, db, functions, mode)
    && (r.Done? ==> Agree(code, ip + 1, m', r.value, db, functions, mode))
  }

  /** A new variable that the checker gave the right type. */
  lemma VarAgrees(code: Code, ip: nat, m: Machine, args: seq<Sym>, st: Typing, ids: seq<nat>, v: Sym, t: Type, db: Db,
                  functions: Functions, mode: Mode)
    requires Agree(code, ip, m, st, db, functions, mode) && TypeOfValue(v, db, functions) == Some(t)
    requires (args == m.args && ids == st.args) || (args == [] && ids == [])
    ensures Agree(code, ip + 1, m.(vars := m.vars[ip := v], args := args),
                  st.(types := st.types[ip := t], args := ids), db, functions, mode)
  {
    hide TypeOfValue, TablesAgree, PendingAgrees, EmittedAgrees, ArgsAgree;
    var types := st.types[ip := t];
    Onward(code, ip, m, st, types, db, functions, mode);
    NoArgs(ip + 1, types, db, functions);
  }

  lemma NoArgs(ip: nat, types: map<nat, Type>, db: Db, functions: Functions)
    ensures ArgsAgree([], [], ip, types, db, functions)
  {
  }

  lemma ValueJudged(code: Code, ip: nat, m: Machine, m': Machine, st: Typing, db: Db, functions: Functions, mode: Mode)
    requires Runs(code, ip, m, m', st, db, functions, mode)
    requires match code[ip]
             case ConstInt(_) => true
             case ConstString(_) => true
             case ConstTrue => true
             case ConstFalse => true
             case ConstNull => true
             case FetchColumn(_, _) => true
             case _ => false
    ensures Judged(code, ip, m, m', st, db, functions, mode)
  {
    hide Agree, FindColumn, NameOk, PendingAgrees, EmittedAgrees;
    Known(code, ip, m, st, db, functions, mode);
    var v, r := m'.vars[ip], CheckOne(code, ip, st, functions, mode);
    assert m' == m.(vars := m.vars[ip := v]);
    if r.Done? {
      VarAgrees(code, ip, m, m.args, st, st.args, v, r.value.types[ip], db, functions, mode);
    }
  }

  lemma CompareJudged(code: Code, ip: nat, m: Machine, m': Machine, st: Typing, db: Db, functions: Functions, mode: Mode)
    requires Runs(code, ip, m, m', st, db, functions, mode)
    requires code[ip].Compare?
    ensures Judged(code, ip, m, m', st, db, functions, mode)
  {
    hide Agree, FindColumn, NameOk, TypesEqual, Comparable, PendingAgrees, EmittedAgrees;
    Known(code, ip, m, st, db, functions, mode);
    var v, r := m'.vars[ip], CheckOne(code, ip, st, functions, mode);
    assert m' == m.(vars := m.vars[ip := v]);
    if r.Done? {
      VarAgrees(code, ip, m, m.args, st, st.args, v, r.value.types[ip], db, functions, mode);
    }
  }

  lemma ArgJudged(code: Code, ip: nat, m: Machine, m': Machine, st: Typing, db: Db, functions: Functions, mode: Mode)
    requires Runs(code, ip, m, m', st, db, functions, mode) && code[ip].Arg?
    ensures Judged(code, ip, m, m', st, db, functions, mode)
  {
    hide TypeOfValue, NameOk, TablesAgree, PendingAgrees, EmittedAgrees;
    Known(code, ip, m, st, db, functions, mode);
    var types := st.types[ip := st.types[code[ip].arg]];
    Onward(code, ip, m, st, types, db, functions, mode);
    assert ArgsAgree(m'.args, st.args + [ip], ip + 1, types, db, functions);
  }

  lemma CallJudged(code: Code, ip: nat, m: Machine, m': Machine, st: Typing, db: Db, functions: Functions, mode: Mode)
    requires Runs(code, ip, m, m', st, db, functions, mode) && code[ip].Call?
    ensures Judged(code, ip, m, m', st, db, functions, mode)
  {
    hide Agree, NameOk, PendingAgrees, EmittedAgrees;
    Known(code, ip, m, st, db, functions, mode);
    var fn, count := code[ip].fn, code[ip].count;
    var v := Returned(fn, m.args);
    assert m' == m.(vars := m.vars[ip := v], args := []);
    if fn in functions && |functions[fn].parameters| == count {
      ArgsCheckIff(st, functions[fn].parameters, 0);
    }
    if CheckOne(code, ip, st, functions, mode).Done? {
      VarAgrees(code, ip, m, [], st, [], v, functions[fn].result, db, functions, mode);
    }
  }

  lemma EmitJudged(code: Code, ip: nat, m: Machine, m': Machine, st: Typing, db: Db, functions: Functions, mode: Mode)
    requires Runs(code, ip, m, m', st, db, functions, mode) && code[ip].EmitColumn?
    ensures Judged(code, ip, m, m', st, db, functions, mode)
  {
    hide TypeOfValue, NameOk, VarsAgree, TablesAgree, PendingAgrees, ArgsAgree;
    Known(code, ip, m, st, db, functions, mode);
    Onward(code, ip, m, st, st.types, db, functions, mode);
    var e := Shown(m.tables[code[ip].table], m.vars[code[ip].column], code[ip].name);
    OneMoreEmitted(code, m.emitted, st.emitted, ip, st.types, e, db, functions);
  }

  lemma OneMoreEmitted(code: Code, emitted: seq<Shown>, ips: seq<nat>, ip: nat, types: map<nat, Type>, e: Shown, db: Db,
                       functions: Functions)
    requires EmittedAgrees(code, emitted, ips, ip + 1, types, db, functions)
    requires EmitTyped(code, e, ip, ip + 1, types, db, functions)
    ensures EmittedAgrees(code, emitted + [e], ips + [ip], ip + 1, types, db, functions)
  {
    hide EmitTyped;
    forall k | 0 <= k < |emitted| + 1
      ensures EmitTyped(code, (emitted + [e])[k], (ips + [ip])[|ips| - |emitted| + k], ip + 1, types, db, functions)
    {
      if k < |emitted| {
        assert (ips + [ip])[|ips| - |emitted| + k] == ips[|ips| - |emitted| + k];
      }
    }
  }

  /** The schema that the checker makes of the columns emitted last. */
  lemma SchemaOfEmitted(code: Code, m: Machine, st: Typing, ip: nat, count: nat, db: Db, functions: Functions)
    requires EmittedAgrees(code, m.emitted, st.emitted, ip, st.types, db, functions) && count <= |m.emitted|
    ensures var r := EmittedSchema(code, st, st.emitted[|st.emitted| - count..]);
            && r.Done? && |r.value.types| == |r.value.names| == count
            && (count == |m.emitted| ==>
                forall k :: 0 <= k < count ==>
                  && TypeOfValue(m.emitted[k].value, db, functions) == Some(r.value.types[k])
                  && m.emitted[k].name == r.value.names[k])
  {
    hide TypeOfValue;
    var n, last := |m.emitted|, st.emitted[|st.emitted| - count..];
    forall k | 0 <= k < count
      ensures Emits(code, last[k], st.types)
      ensures count == n ==>
                code[last[k]].name == m.emitted[k].name && TypedAs(m.emitted[k].value, code[last[k]].column, ip, st.types, db, functions)
    {
      var j := n - count + k;
      assert last[k] == st.emitted[|st.emitted| - n + j];
      assert EmitTyped(code, m.emitted[j], st.emitted[|st.emitted| - n + j], ip, st.types, db, functions);
    }
  }

  lemma QueryJudged(code: Code, ip: nat, m: Machine, m': Machine, st: Typing, db: Db, functions: Functions, mode: Mode)
    requires Runs(code, ip, m, m', st, db, functions, mode) && code[ip].EmitQuery?
    ensures Judged(code, ip, m, m', st, db, functions, mode)
  {
    hide TypeOfValue, NameOk, VarsAgree, TablesAgree, PendingAgrees, ArgsAgree, EmittedSchema, EmitTyped, Concat;
    Known(code, ip, m, st, db, functions, mode);
    Onward(code, ip, m, st, st.types, db, functions, mode);
    SchemaOfEmitted(code, m, st, ip, code[ip].count, db, functions);
    var schema := EmittedSchema(code, st, st.emitted[|st.emitted| - code[ip].count..]).value;
    SchemaPut(m.tables, ip, st.tables, schema, db);
    OneMoreEffect(m, m', mode);
  }

  lemma SchemaPut(tables: map<nat, string>, ip: nat, schemas: map<nat, TypedSchema>, schema: TypedSchema, db: Db)
    requires TablesAgree(tables, ip, schemas, db)
    ensures TablesAgree(tables, ip + 1, schemas[ip := schema], db)
    ensures forall name <- db :: WellFormed(db[name]) && schema == Typed(db[name]) ==>
              TablesAgree(tables[ip := name], ip + 1, schemas[ip := schema], db)
  {
  }

  /** Effects other than an INSERT leave the pending columns alone. */
  lemma OneMoreEffect(m: Machine, m': Machine, mode: Mode)
    requires m'.rows == m.rows && m'.row == m.row && |m'.effects| == |m.effects| + 1
    requires m'.effects[..|m.effects|] == m.effects && !m'.effects[|m.effects|].InsertRows?
    ensures Pending(m', mode) == Pending(m, mode)
  {
  }

  lemma ColumnJudged(code: Code, ip: nat, m: Machine, m': Machine, st: Typing, db: Db, functions: Functions, mode: Mode)
    requires Runs(code, ip, m, m', st, db, functions, mode) && (code[ip].InsertColumn? || code[ip].InsertRow?)
    ensures Judged(code, ip, m, m', st, db, functions, mode)
  {
    hide TypeOfValue, NameOk, VarsAgree, TablesAgree, EmittedAgrees, ArgsAgree, StillPending;
    Known(code, ip, m, st, db, functions, mode);
    Onward(code, ip, m, st, st.types, db, functions, mode);
    match code[ip]
    case InsertColumn(name, v) =>
      OneMoreCell(Pending(m, mode), st.names, st.values, ip, st.types, Cell(name, m.vars[v]), v, db, functions);
      assert Pending(m', mode) == Pending(m, mode) + [Cell(name, m.vars[v])];
    case InsertRow =>
      assert m'.rows[..|m.rows|] == m.rows;
      assert Pending(m', mode) == Pending(m, mode);
  }

  lemma OneMoreCell(cells: seq<Cell>, names: seq<string>, ids: seq<nat>, ip: nat, types: map<nat, Type>, c: Cell,
                    id: nat, db: Db, functions: Functions)
    requires PendingAgrees(cells, names, ids, ip, types, db, functions) && id in types && id < ip
    requires TypeOfValue(c.value, db, functions) == Some(types[id])
    ensures PendingAgrees(cells + [c], names + [c.column], ids + [id], ip + 1, types, db, functions)
  {
    hide TypeOfValue;
  }

  lemma CommitJudged(code: Code, ip: nat, m: Machine, m': Machine, st: Typing, db: Db, functions: Functions, mode: Mode)
    requires Runs(code, ip, m, m', st, db, functions, mode) && code[ip].CommitInsert?
    ensures Judged(code, ip, m, m', st, db, functions, mode)
  {
    hide TypeOfValue, NameOk, VarsAgree, TablesAgree, EmittedAgrees, ArgsAgree, CheckPending, PendingVerdict, FindColumn;
    Known(code, ip, m, st, db, functions, mode);
    Onward(code, ip, m, st, st.types, db, functions, mode);
    var cells := Pending(m, mode);
    assert cells[0..] == cells;
    PendingChecks(st, m.tables[code[ip].table], cells, ip, 0, db, functions);
    Committed(m, m', mode);
    if mode == Repaired {
      NoCells(ip + 1, st.types, db, functions);
    }
  }

  /** After a commit the cells are still pending as written, and forgotten with the repair. */
  lemma Committed(m: Machine, m': Machine, mode: Mode)
    requires m.row == [] && m'.row == [] && m'.rows == [] && |m'.effects| == |m.effects| + 1
    requires m'.effects[..|m.effects|] == m.effects
    requires m'.effects[|m.effects|].InsertRows? && m'.effects[|m.effects|].rows == m.rows
    ensures Pending(m', mode) == if mode == Repaired then [] else Pending(m, mode)
  {
  }

  lemma NoCells(ip: nat, types: map<nat, Type>, db: Db, functions: Functions)
    ensures PendingAgrees([], [], [], ip, types, db, functions)
  {
  }

  lemma OtherJudged(code: Code, ip: nat, m: Machine, m': Machine, st: Typing, db: Db, functions: Functions, mode: Mode)
    requires Runs(code, ip, m, m', st, db, functions, mode)
    requires match code[ip]
             case FetchTable(_, _) => true
             case UpdateColumn(_, _, _) => true
             case CommitUpdate => true
             case DeleteTable(_) => true
             case _ => false
    ensures Judged(code, ip, m, m', st, db, functions, mode)
  {
    hide TypeOfValue, Concat, FindColumn, TypesEqual, VarsAgree, TablesAgree, EmittedAgrees, ArgsAgree, PendingAgrees;
    Known(code, ip, m, st, db, functions, mode);
    Onward(code, ip, m, st, st.types, db, functions, mode);
    if code[ip].FetchTable? {
      SchemaPut(m.tables, ip, st.tables, Typed(code[ip].schema), db);
    } else if !code[ip].UpdateColumn? {
      OneMoreEffect(m, m', mode);
    }
  }

  /** One instruction, of any kind: the verdict of the checker on it is read off the values alone. */
  lemma StepJudged(code: Code, ip: nat, m: Machine, m': Machine, st: Typing, db: Db, functions: Functions, mode: Mode)
    requires Runs(code, ip, m, m', st, db, functions, mode)
    ensures Judged(code, ip, m, m', st, db, functions, mode)
  {
    hide Judged, Agree, NameOk;
    match code[ip]
    case Arg(_) => ArgJudged(code, ip, m, m', st, db, functions, mode);
    case Call(_, _) => CallJudged(code, ip, m, m', st, db, functions, mode);
    case EmitColumn(_, _, _) => EmitJudged(code, ip, m, m', st, db, functions, mode);
    case EmitQuery(_) => QueryJudged(code, ip, m, m', st, db, functions, mode);
    case InsertColumn(_, _) => ColumnJudged(code, ip, m, m', st, db, functions, mode);
    case InsertRow => ColumnJudged(code, ip, m, m', st, db, functions, mode);
    case CommitInsert(_) => CommitJudged(code, ip, m, m', st, db, functions, mode);
    case UpdateColumn(_, _, _) => OtherJudged(code, ip, m, m', st, db, functions, mode);
    case CommitUpdate => OtherJudged(code, ip, m, m', st, db, functions, mode);
    case FetchTable(_, _) => OtherJudged(code, ip, m, m', st, db, functions, mode);
    case DeleteTable(_) => OtherJudged(code, ip, m, m', st, db, functions, mode);
    case Compare(_, _, _) => CompareJudged(code, ip, m, m', st, db, functions, mode);
    case _ => ValueJudged(code, ip, m, m', st, db, functions, mode);
  }

  // ---------- Whole programs ----------

  /** On any program that the executor can run, the checker's verdict is that of the first instruction not accepted. */
  lemma {:induction false} RunJudged(code: Code, n: nat, db: Db, functions: Functions, mode: Mode) returns (m: Machine)
    requires NamesOk(code, db) && Exec(code).Done? && n <= |code|
    ensures Exec(code[..n]) == Done(m)
    ensures var r := Check(code, n, functions, mode);
            && VerdictOf(r) == RunVerdict(code[..n], db, functions, mode)
            && (r.Done? ==> Agree(code, n, m, r.value, db, functions, mode))
  {
    hide NamesOk, NameOk, Exec, CheckOne, Agree, RowClosed, Step, StepVerdict;
    if n == 0 {
      StartAgrees(code, db, functions, mode);
      NothingRun();
      assert code[..0] == [];
      m := Start();
    } else {
      var m0 := RunJudged(code, n - 1, db, functions, mode);
      var m1, m2 := StepAt(code, n - 1);
      m := m2;
      NamesAt(code, n - 1, db);
      RowIsOpen(code[..n - 1]);
      CommitClosed(code, n - 1, db);
      assert code[..n][..n - 1] == code[..n - 1] && code[..n][n - 1] == code[n - 1];
      var r := Check(code, n - 1, functions, mode);
      if r.Done? {
        StepJudged(code, n - 1, m1, m2, r.value, db, functions, mode);
      }
    }
  }

  lemma StartAgrees(code: Code, db: Db, functions: Functions, mode: Mode)
    ensures Agree(code, 0, Start(), NoTypes(), db, functions, mode)
  {
  }

  // ---------- From programs to statements ----------

  lemma VerdictNext(code: Code, i: Instr, m: Machine, db: Db, functions: Functions, mode: Mode)
    requires Exec(code) == Done(m)
    ensures RunVerdict(code + [i], db, functions, mode) ==
            Then(RunVerdict(code, db, functions, mode), StepVerdict(i, m, db, functions, mode))
  {
    hide Exec, StepVerdict;
    assert (code + [i])[..|code|] == code;
  }

  /** Instructions that the checker accepts without a look. */
  predicate Quiet(i: Instr) {
    match i
    case EmitColumn(_, _, _) => true
    case EmitQuery(_) => true
    case InsertColumn(_, _) => true
    case InsertRow => true
    case CommitUpdate => true
    case DeleteTable(_) => true
    case FetchTable(_, _) => true
    case Arg(_) => true
    case _ => false
  }

  lemma {:induction false} QuietRun(code: Code, code': Code, db: Db, functions: Functions, mode: Mode)
    requires code <= code' && Exec(code').Done? && forall k :: |code| <= k < |code'| ==> Quiet(code'[k])
    ensures RunVerdict(code', db, functions, mode) == RunVerdict(code, db, functions, mode)
    decreases |code'|
  {
    hide Step;
    if |code| < |code'| {
      var before := code'[..|code'| - 1];
      assert forall k :: |code| <= k < |before| ==> before[k] == code'[k];
      QuietRun(code, before, db, functions, mode);
    } else {
      assert code == code';
    }
  }

  lemma EmitsAreQuiet(code: Code, t: nat, ids: seq<nat>, name: string, db: Db, functions: Functions, mode: Mode)
    requires Exec(code + EmitAll(t, ids, name)).Done?
    ensures RunVerdict(code + EmitAll(t, ids, name), db, functions, mode) == RunVerdict(code, db, functions, mode)
  {
    hide Exec, RunVerdict;
    QuietRun(code, code + EmitAll(t, ids, name), db, functions, mode);
  }

  /** Every variable of an accepted program is accepted, and so is every argument that waits. */
  lemma {:induction false} AllAccepted(code: Code, db: Db, functions: Functions, mode: Mode)
    requires Exec(code).Done? && RunVerdict(code, db, functions, mode) == Accepts
    ensures forall v <- Exec(code).value.vars :: ValueVerdict(Exec(code).value.vars[v], db, functions, mode) == Accepts
    ensures forall a <- Exec(code).value.args :: ValueVerdict(a, db, functions, mode) == Accepts
  {
    hide ValueVerdict, StepVerdict, Step;
    if code != [] {
      var ip := |code| - 1;
      AllAccepted(code[..ip], db, functions, mode);
      StepKeepsAccepted(code[ip], ip, Exec(code[..ip]).value, db, functions, mode);
    }
  }

  lemma StepKeepsAccepted(i: Instr, ip: nat, m: Machine, db: Db, functions: Functions, mode: Mode)
    requires Step(i, ip, m).Done? && StepVerdict(i, m, db, functions, mode) == Accepts
    requires forall v <- m.vars :: ValueVerdict(m.vars[v], db, functions, mode) == Accepts
    requires forall a <- m.args :: ValueVerdict(a, db, functions, mode) == Accepts
    ensures var m' := Step(i, ip, m).value;
            && (forall v <- m'.vars :: ValueVerdict(m'.vars[v], db, functions, mode) == Accepts)
            && (forall a <- m'.args :: ValueVerdict(a, db, functions, mode) == Accepts)
  {
    hide PendingVerdict, CompareVerdict, CallVerdict, ColumnVerdict, FitVerdict;
    if i.Call? {
      ArgsAccepted(m.args, |m.args|, db, functions, mode);
    }
  }

  lemma {:induction false} ArgsAccepted(args: seq<Sym>, n: nat, db: Db, functions: Functions, mode: Mode)
    requires n <= |args| && forall a <- args :: ValueVerdict(a, db, functions, mode) == Accepts
    ensures ArgsVerdict(args, n, db, functions, mode) == Accepts
  {
    hide ValueVerdict;
    if n > 0 {
      ArgsAccepted(args, n - 1, db, functions, mode);
    }
  }

  lemma {:induction false} ArgsPrefix(args: seq<Sym>, more: seq<Sym>, n: nat, db: Db, functions: Functions, mode: Mode)
    requires n <= |args|
    ensures ArgsVerdict(args + more, n, db, functions, mode) == ArgsVerdict(args, n, db, functions, mode)
  {
    hide ValueVerdict;
    if n > 0 {
      ArgsPrefix(args, more, n - 1, db, functions, mode);
    }
  }

  lemma LeafJudged(e: Expr, t: nat, table: string, db: Db, functions: Functions, mode: Mode, code: Code, m: Machine)
    requires At(code, m, t, table) && CompileExpr(e, InTable(t), db, code).Done? && !e.Call?
    ensures RunVerdict(CompileExpr(e, InTable(t), db, code).value.code, db, functions, mode) ==
            Then(RunVerdict(code, db, functions, mode), ValueVerdict(Meaning(e, table), db, functions, mode))
  {
    hide Exec, RunVerdict, ColumnVerdict;
    var c := CompileExpr(e, InTable(t), db, code).value;
    assert c.code == code + [c.code[|code|]];
    VerdictNext(code, c.code[|code|], m, db, functions, mode);
  }

  /** The parts of a call: as code, as a value, and as what is judged. */
  lemma CallParts(e: Expr, t: nat, table: string, db: Db, functions: Functions, mode: Mode, code: Code, idle: bool)
    requires e.Call? && CompileExpr(e, InTable(t), db, code).Done? && CallsFit(e, idle)
    ensures idle && e.fn.Ident? && ArgsFit(e.args, |e.args|, true)
    ensures var r := CompileArgs(e.args, |e.args|, InTable(t), db, code);
            r.Done? && CompileExpr(e, InTable(t), db, code).value.code == r.value + [Instr.Call(e.fn.name, |e.args|)]
    ensures var args := Meanings(e.args, |e.args|, table);
            && ValueVerdict(Meaning(e, table), db, functions, mode) ==
               Then(ArgsVerdict(args, |args|, db, functions, mode), CallVerdict(e.fn.name, args, db, functions))
            && [] + args == args
  {
    hide CompileArgs, Meanings, ArgsVerdict, CallVerdict;
  }

  lemma {:induction false} CompiledJudged(e: Expr, t: nat, table: string, db: Db, functions: Functions, mode: Mode,
                                          code: Code, m: Machine)
    requires At(code, m, t, table) && CompileExpr(e, InTable(t), db, code).Done? && CallsFit(e, m.args == [])
    ensures RunVerdict(CompileExpr(e, InTable(t), db, code).value.code, db, functions, mode) ==
            Then(RunVerdict(code, db, functions, mode), ValueVerdict(Meaning(e, table), db, functions, mode))
    decreases e, 0
  {
    hide Exec, RunVerdict, CallVerdict, At, CompileExpr, CompileArgs, Meaning, Meanings, ValueVerdict, ArgsVerdict, CallsFit;
    if e.Call? {
      var n := |e.args|;
      CallParts(e, t, table, db, functions, mode, code, m.args == []);
      var code' := CompileArgs(e.args, n, InTable(t), db, code).value;
      ArgsJudged(e.args, n, t, table, db, functions, mode, code, m);
      var m1 := ArgsMean(e.args, n, t, table, db, code, m);
      AtDone(code', m1, t, table);
      VerdictNext(code', Instr.Call(e.fn.name, n), m1, db, functions, mode);
    } else {
      LeafJudged(e, t, table, db, functions, mode, code, m);
    }
  }

  lemma {:induction false} ArgsJudged(args: seq<Expr>, n: nat, t: nat, table: string, db: Db, functions: Functions,
                                      mode: Mode, code: Code, m: Machine)
    requires At(code, m, t, table) && n <= |args| && CompileArgs(args, n, InTable(t), db, code).Done?
    requires ArgsFit(args, n, m.args == [])
    ensures RunVerdict(CompileArgs(args, n, InTable(t), db, code).value, db, functions, mode) ==
            Then(RunVerdict(code, db, functions, mode),
                 ArgsVerdict(Meanings(args, n, table), n, db, functions, mode))
    decreases args, n
  {
    hide Exec, RunVerdict, ValueVerdict, CompileExpr, CallsFit;
    if n > 0 {
      var code1 := CompileArgs(args, n - 1, InTable(t), db, code).value;
      var c := CompileExpr(args[n - 1], InTable(t), db, code1).value;
      ArgsJudged(args, n - 1, t, table, db, functions, mode, code, m);
      var m1 := ArgsMean(args, n - 1, t, table, db, code, m);
      assert CallsFit(args[n - 1], m1.args == []);
      CompiledJudged(args[n - 1], t, table, db, functions, mode, code1, m1);
      var m2 := CompiledMeans(args[n - 1], t, table, db, code1, m1);
      AtDone(c.code, m2, t, table);
      VerdictNext(c.code, Arg(c.id), m2, db, functions, mode);
      ArgsPrefix(Meanings(args, n - 1, table), [Meaning(args[n - 1], table)], n - 1, db, functions, mode);
    }
  }

  lemma {:induction false} ValueIsJudged(e: Expr, t: nat, table: string, db: Db, functions: Functions, mode: Mode,
                                         s: State, m: Machine)
    requires InScope(s, m, t, table) && NoStar(e) && ValueClean(e, table) && LowerSingle(e, InTable(t), db, s).Done?
    ensures RunVerdict(LowerSingle(e, InTable(t), db, s).value.state.code, db, functions, mode) ==
            Then(RunVerdict(s.code, db, functions, mode), ValueVerdict(Meaning(e, table), db, functions, mode))
    decreases e, 1
  {
    hide Exec, RunVerdict, CompileExpr, ValueVerdict, Meaning, At, Remembers;
    if Shareable(e) && e in s.memo {
      RememberedIs(s, m, t, table, e);
      if RunVerdict(s.code, db, functions, mode) == Accepts {
        AllAccepted(s.code, db, functions, mode);
      }
    } else if e.Binary? {
      ComparedJudged(e, t, table, db, functions, mode, s, m);
    } else {
      CompiledJudged(e, t, table, db, functions, mode, s.code, m);
    }
  }

  /** The parts of a comparison: as code, as a value, and as what is judged. */
  lemma ComparisonParts(e: Expr, t: nat, table: string, db: Db, functions: Functions, mode: Mode, s: State)
    requires e.Binary? && !(Shareable(e) && e in s.memo) && LowerSingle(e, InTable(t), db, s).Done?
    requires NoStar(e) && ValueClean(e, table)
    ensures NoStar(e.lhs) && ValueClean(e.lhs, table) && NoStar(e.rhs) && ValueClean(e.rhs, table)
    ensures var l := LowerSingle(e.lhs, InTable(t), db, s);
            && l.Done?
            && var r := LowerSingle(e.rhs, InTable(t), db, l.value.state);
            && r.Done?
            && LowerSingle(e, InTable(t), db, s).value.state.code ==
               r.value.state.code + [Compare(e.op, l.value.id, r.value.id)]
    ensures var lhs, rhs := Meaning(e.lhs, table), Meaning(e.rhs, table);
            ValueVerdict(Meaning(e, table), db, functions, mode) ==
            Then(Then(ValueVerdict(lhs, db, functions, mode), ValueVerdict(rhs, db, functions, mode)),
                 CompareVerdict(e.op, lhs, rhs, db, functions, mode))
  {
    hide CompileExpr, CompareVerdict;
  }

  lemma {:induction false} ComparedJudged(e: Expr, t: nat, table: string, db: Db, functions: Functions, mode: Mode,
                                          s: State, m: Machine)
    requires InScope(s, m, t, table) && NoStar(e) && ValueClean(e, table) && LowerSingle(e, InTable(t), db, s).Done?
    requires e.Binary? && !(Shareable(e) && e in s.memo)
    ensures RunVerdict(LowerSingle(e, InTable(t), db, s).value.state.code, db, functions, mode) ==
            Then(RunVerdict(s.code, db, functions, mode), ValueVerdict(Meaning(e, table), db, functions, mode))
    decreases e, 0
  {
    hide Exec, RunVerdict, CompareVerdict, At, Remembers, Adds, LowerNode, Meaning, ValueVerdict, ValueClean, NoStar;
    ComparisonParts(e, t, table, db, functions, mode, s);
    var l := LowerSingle(e.lhs, InTable(t), db, s).value;
    var r := LowerSingle(e.rhs, InTable(t), db, l.state).value;
    ValueIsJudged(e.lhs, t, table, db, functions, mode, s, m);
    var m1 := ValueMeans(e.lhs, t, table, db, s, m);
    ValueIsJudged(e.rhs, t, table, db, functions, mode, l.state, m1);
    var m2 := ValueMeans(e.rhs, t, table, db, l.state, m1);
    KeptVar(m1, m2, l.id);
    AtDone(r.state.code, m2, t, table);
    VerdictNext(r.state.code, Compare(e.op, l.id, r.id), m2, db, functions, mode);
  }

  lemma RememberedIs(s: State, m: Machine, t: nat, table: string, e: Expr)
    requires InScope(s, m, t, table) && e in s.memo && NoStar(e) && ValueClean(e, table)
    ensures Exec(s.code) == Done(m) && s.memo[e] in m.vars && m.vars[s.memo[e]] == Meaning(e, table)
  {
    hide Exec, Meaning;
  }

  // ---------- Select lists ----------

  lemma {:induction false} ShownPrefix(a: seq<Shown>, b: seq<Shown>, n: nat, db: Db, functions: Functions, mode: Mode)
    requires n <= |a|
    ensures ShownVerdict(a + b, n, db, functions, mode) == ShownVerdict(a, n, db, functions, mode)
  {
    hide ValueVerdict;
    if n > 0 {
      ShownPrefix(a, b, n - 1, db, functions, mode);
    }
  }

  lemma {:induction false} ShownBoth(a: seq<Shown>, b: seq<Shown>, n: nat, db: Db, functions: Functions, mode: Mode)
    requires n <= |b|
    ensures ShownVerdict(a + b, |a| + n, db, functions, mode) ==
            Then(ShownVerdict(a, |a|, db, functions, mode), ShownVerdict(b, n, db, functions, mode))
  {
    hide ValueVerdict;
    if n > 0 {
      ShownBoth(a, b, n - 1, db, functions, mode);
    } else {
      ShownPrefix(a, b, |a|, db, functions, mode);
    }
  }

  lemma {:induction false} FetchAllJudged(code: Code, m: Machine, t: nat, table: string, schema: Schema, n: nat, db: Db,
                                          functions: Functions, mode: Mode)
    requires At(code, m, t, table) && m.args == [] && n <= |schema.names|
    ensures RunVerdict(code + FetchAll(t, schema.names)[..n], db, functions, mode) ==
            Then(RunVerdict(code, db, functions, mode),
                 ShownVerdict(ShownItem(Star, table, schema), n, db, functions, mode))
  {
    hide Exec, RunVerdict;
    var names := schema.names;
    if n == 0 {
      assert code + FetchAll(t, names)[..0] == code;
    } else {
      var code1 := code + FetchAll(t, names)[..n - 1];
      FetchAllJudged(code, m, t, table, schema, n - 1, db, functions, mode);
      var m1 := FetchAllMeans(code, m, t, table, names, n - 1);
      VerdictNext(code1, FetchColumn(t, names[n - 1]), m1, db, functions, mode);
      assert code + FetchAll(t, names)[..n] == code1 + [FetchColumn(t, names[n - 1])];
    }
  }

  lemma ItemJudged(e: Expr, t: nat, table: string, schema: Schema, db: Db, functions: Functions, mode: Mode, s: State,
                   m: Machine)
    requires InScope(s, m, t, table) && TableSchema(s.code, t) == Some(schema)
    requires if e == Star then Star !in s.memo else NoStar(e) && ValueClean(e, table)
    requires LowerNode(e, InTable(t), db, s).Done?
    ensures RunVerdict(LowerNode(e, InTable(t), db, s).value.state.code, db, functions, mode) ==
            Then(RunVerdict(s.code, db, functions, mode),
                 ShownVerdict(ShownItem(e, table, schema), |ShownItem(e, table, schema)|, db, functions, mode))
  {
    hide Exec, RunVerdict, CompileExpr, Remembers, ValueVerdict;
    if e == Star {
      var names := schema.names;
      FetchAllJudged(s.code, m, t, table, schema, |names|, db, functions, mode);
      assert FetchAll(t, names)[..|names|] == FetchAll(t, names);
    } else {
      ValueIsJudged(e, t, table, db, functions, mode, s, m);
      OneShown(Shown(table, Meaning(e, table), NameOf(e)), db, functions, mode);
    }
  }

  lemma OneShown(c: Shown, db: Db, functions: Functions, mode: Mode)
    ensures ShownVerdict([c], 1, db, functions, mode) == ValueVerdict(c.value, db, functions, mode)
  {
    hide ValueVerdict;
    assert ShownVerdict([c], 0, db, functions, mode) == Accepts;
  }

  lemma {:induction false} ItemsJudged(exprs: seq<Expr>, n: nat, t: nat, table: string, schema: Schema, db: Db,
                                       functions: Functions, mode: Mode, s: State, m: Machine)
    requires InScope(s, m, t, table) && TableSchema(s.code, t) == Some(schema)
    requires Star !in s.memo && n <= |exprs| && ItemsClean(exprs, n, table)
    requires forall i :: 0 <= i < n ==> exprs[i] == Star || NoStar(exprs[i])
    requires LowerItems(exprs, n, t, db, s).Done?
    ensures var shown := ShownItems(exprs, n, table, schema);
            RunVerdict(LowerItems(exprs, n, t, db, s).value.0.code, db, functions, mode) ==
            Then(RunVerdict(s.code, db, functions, mode), ShownVerdict(shown, |shown|, db, functions, mode))
  {
    hide Exec, InScope, RunVerdict, LowerNode, ShownItems, ShownItem, ItemsClean, ValueClean, NoStar, ShownVerdict,
      EmitAll;
    ItemsFront(exprs, n, table, schema, db, functions, mode);
    if n > 0 {
      var e := exprs[n - 1];
      var (s1, _) := LowerItems(exprs, n - 1, t, db, s).value;
      var (s2, _) := LowerItems(exprs, n, t, db, s).value;
      var front, last := ShownItems(exprs, n - 1, table, schema), ShownItem(e, table, schema);
      ItemsJudged(exprs, n - 1, t, table, schema, db, functions, mode, s, m);
      var m1 := ItemsMean(exprs, n - 1, t, table, schema, db, s, m);
      ItemJudged(e, t, table, schema, db, functions, mode, s1, m1);
      var m2 := ItemsMean(exprs, n, t, table, schema, db, s, m);
      ScopeDone(s2, m2, t, table);
      var r := LowerNode(e, InTable(t), db, s1).value;
      EmitsAreQuiet(r.state.code, t, r.ids, NameOf(e), db, functions, mode);
      ShownBoth(front, last, |last|, db, functions, mode);
    }
  }

  lemma ScopeDone(s: State, m: Machine, t: nat, table: string)
    requires InScope(s, m, t, table)
    ensures Exec(s.code) == Done(m)
  {
    hide Exec, Remembers;
  }

  /** The last of n items, and the ones before it. */
  lemma ItemsFront(exprs: seq<Expr>, n: nat, table: string, schema: Schema, db: Db, functions: Functions, mode: Mode)
    requires n <= |exprs| && ItemsClean(exprs, n, table)
    ensures n == 0 ==> ShownItems(exprs, n, table, schema) == [] && ShownVerdict([], 0, db, functions, mode) == Accepts
    ensures n > 0 ==>
              var e := exprs[n - 1];
              && ShownItems(exprs, n, table, schema) == ShownItems(exprs, n - 1, table, schema) + ShownItem(e, table, schema)
              && ItemsClean(exprs, n - 1, table)
              && if e == Star then Star !in exprs[..n - 1] else ValueClean(e, table)
  {
    hide ShownItem, ValueClean, ValueVerdict;
  }

  // ---------- Rows and SET clauses ----------

  lemma {:induction false} ValuesJudged(values: seq<Expr>, n: nat, columns: seq<string>, t: nat, table: string, db: Db,
                                        functions: Functions, mode: Mode, s: State, m: Machine)
    requires InScope(s, m, t, table) && n <= |values| == |columns| && ValuesClean(values, n, table)
    requires forall i :: 0 <= i < n ==> NoStar(values[i])
    requires LowerValues(values, n, columns, t, db, s).Done?
    ensures RunVerdict(LowerValues(values, n, columns, t, db, s).value.code, db, functions, mode) ==
            Then(RunVerdict(s.code, db, functions, mode),
                 CellsVerdict(RowCells(values, columns, table), n, db, functions, mode))
  {
    hide Exec, At, RunVerdict, LowerSingle, ValueVerdict, ValueClean, NoStar, Remembers;
    if n > 0 {
      var s1 := LowerValues(values, n - 1, columns, t, db, s).value;
      var s2 := LowerValues(values, n, columns, t, db, s).value;
      ValuesJudged(values, n - 1, columns, t, table, db, functions, mode, s, m);
      var m1 := ValuesMean(values, n - 1, columns, t, table, db, s, m);
      ValueIsJudged(values[n - 1], t, table, db, functions, mode, s1, m1);
      var m2 := ValuesMean(values, n, columns, t, table, db, s, m);
      AtDone(s2.code, m2, t, table);
      QuietRun(LowerSingle(values[n - 1], InTable(t), db, s1).value.state.code, s2.code, db, functions, mode);
    }
  }

  lemma {:induction false} RowsJudged(rows: seq<seq<Expr>>, n: nat, columns: seq<string>, t: nat, table: string, db: Db,
                                      functions: Functions, mode: Mode, s: State, m: Machine)
    requires InScope(s, m, t, table) && n <= |rows| && m.row == [] && RowsClean(rows, n, table)
    requires forall i, j :: 0 <= i < n && 0 <= j < |rows[i]| ==> NoStar(rows[i][j])
    requires LowerRows(rows, n, columns, t, db, s).Done?
    ensures RunVerdict(LowerRows(rows, n, columns, t, db, s).value.code, db, functions, mode) ==
            Then(RunVerdict(s.code, db, functions, mode),
                 RowsVerdict(AllCells(rows, columns, table), n, db, functions, mode))
  {
    hide Exec, At, RunVerdict, LowerValues, ValuesClean, NoStar, Remembers, CellsVerdict, RowCells;
    if n > 0 {
      var row, k := rows[n - 1], |columns|;
      var s1 := LowerRows(rows, n - 1, columns, t, db, s).value;
      var s2 := LowerRows(rows, n, columns, t, db, s).value;
      RowsJudged(rows, n - 1, columns, t, table, db, functions, mode, s, m);
      var m1 := RowsMean(rows, n - 1, columns, t, table, db, s, m);
      assert AllCells(rows, columns, table)[n - 1] == RowCells(row, columns, table);
      ValuesJudged(row, k, columns, t, table, db, functions, mode, s1, m1);
      var m2 := RowsMean(rows, n, columns, t, table, db, s, m);
      AtDone(s2.code, m2, t, table);
      QuietRun(LowerValues(row, k, columns, t, db, s1).value.code, s2.code, db, functions, mode);
    }
  }

  lemma {:induction false} SetsJudged(sets: seq<SetClause>, n: nat, schema: Schema, t: nat, table: string, db: Db,
                                      functions: Functions, mode: Mode, s: State, m: Machine)
    requires InScope(s, m, t, table) && n <= |sets| && m.cells == [] && m.target == None && SetsClean(sets, n, table)
    requires forall i :: 0 <= i < n ==> NoStar(sets[i].value)
    requires LowerSets(sets, n, schema, t, db, s).Done?
    ensures RunVerdict(LowerSets(sets, n, schema, t, db, s).value.code, db, functions, mode) ==
            Then(RunVerdict(s.code, db, functions, mode),
                 WritesVerdict(SetCells(sets, table), n, table, db, functions, mode))
  {
    hide Exec, RunVerdict, LowerSingle, ValueVerdict, ValueClean, NoStar, Remembers, FitVerdict;
    if n > 0 {
      var clause := sets[n - 1];
      var s1 := LowerSets(sets, n - 1, schema, t, db, s).value;
      SetsJudged(sets, n - 1, schema, t, table, db, functions, mode, s, m);
      var m1 := SetsMean(sets, n - 1, schema, t, table, db, s, m);
      ValueIsJudged(clause.value, t, table, db, functions, mode, s1, m1);
      var r := LowerSingle(clause.value, InTable(t), db, s1).value;
      var m2 := ValueMeans(clause.value, t, table, db, s1, m1);
      VerdictNext(r.state.code, UpdateColumn(t, r.id, clause.name), m2, db, functions, mode);
    }
  }

  // ---------- Queries ----------

  lemma SelectJudged(exprs: seq<Expr>, table: Expr, db: Db, functions: Functions, mode: Mode, code: Code, m: Machine)
    requires Idle(code, m) && LowerSelect(exprs, table, db, code).Done?
    requires var s := ExprStmt(Select(exprs, table)); StarsOnTop(s) && Clean(s)
    ensures RunVerdict(LowerSelect(exprs, table, db, code).value, db, functions, mode) ==
            Then(RunVerdict(code, db, functions, mode),
                 EffectVerdict(m.effects, EffectOf(ExprStmt(Select(exprs, table)), db), db, functions, mode))
  {
    hide Exec, RunVerdict, ShownItems, LowerItems, LowerTable, ItemsClean, Remembers, ShownVerdict;
    var t := LowerTable(table, db, code).value;
    var m1 := TableMeans(table, db, code, m);
    VerdictNext(code, FetchTable(table.name, db[table.name]), m, db, functions, mode);
    ItemsJudged(exprs, |exprs|, t.id, table.name, db[table.name], db, functions, mode, t.state, m1);
    var m2 := ItemsMean(exprs, |exprs|, t.id, table.name, db[table.name], db, t.state, m1);
    var (s, count) := LowerItems(exprs, |exprs|, t.id, db, t.state).value;
    VerdictNext(s.code, EmitQuery(count), m2, db, functions, mode);
  }

  lemma InsertJudged(name: string, columns: seq<string>, rows: seq<seq<Expr>>, db: Db, functions: Functions, mode: Mode,
                     code: Code, m: Machine)
    requires Idle(code, m) && LowerInsert(name, columns, rows, db, code).Done?
    requires var s := InsertStmt(name, columns, rows); StarsOnTop(s) && Clean(s)
    ensures RunVerdict(LowerInsert(name, columns, rows, db, code).value, db, functions, mode) ==
            Then(RunVerdict(code, db, functions, mode),
                 EffectVerdict(m.effects, EffectOf(InsertStmt(name, columns, rows), db), db, functions, mode))
  {
    hide Exec, RunVerdict, LowerRows, LowerTable, RowsClean, Remembers, NoStar, RowsVerdict, PendingVerdict, AllCells,
      Concat, StillPending;
    var t := LowerTable(Ident(name), db, code).value;
    var m1 := TableMeans(Ident(name), db, code, m);
    VerdictNext(code, FetchTable(name, db[name]), m, db, functions, mode);
    RowsJudged(rows, |rows|, columns, t.id, name, db, functions, mode, t.state, m1);
    var m2 := RowsMean(rows, |rows|, columns, t.id, name, db, t.state, m1);
    var s := LowerRows(rows, |rows|, columns, t.id, db, t.state).value;
    var cells := AllCells(rows, columns, name);
    AllCellsLength(rows, columns, name);
    assert [] + cells[..|rows|] == cells;
    VerdictNext(s.code, CommitInsert(t.id), m2, db, functions, mode);
    assert Pending(m2, mode) == StillPending(m.effects, mode) + Concat(cells);
  }

  lemma AllCellsLength(rows: seq<seq<Expr>>, columns: seq<string>, table: string)
    ensures |AllCells(rows, columns, table)| == |rows|
  {
  }

  lemma UpdateJudged(table: Expr, sets: seq<SetClause>, db: Db, functions: Functions, mode: Mode, code: Code, m: Machine)
    requires Idle(code, m) && LowerUpdate(table, sets, db, code).Done?
    requires var s := UpdateStmt(table, sets, None); StarsOnTop(s) && Clean(s)
    ensures RunVerdict(LowerUpdate(table, sets, db, code).value, db, functions, mode) ==
            Then(RunVerdict(code, db, functions, mode),
                 EffectVerdict(m.effects, EffectOf(UpdateStmt(table, sets, None), db), db, functions, mode))
  {
    hide Exec, RunVerdict, LowerSets, LowerTable, SetsClean, Remembers, NoStar, WritesVerdict;
    var t := LowerTable(table, db, code).value;
    var m1 := TableMeans(table, db, code, m);
    VerdictNext(code, FetchTable(table.name, db[table.name]), m, db, functions, mode);
    var schema := TableSchema(t.state.code, t.id).value;
    SetsJudged(sets, |sets|, schema, t.id, table.name, db, functions, mode, t.state, m1);
    var m2 := SetsMean(sets, |sets|, schema, t.id, table.name, db, t.state, m1);
    VerdictNext(LowerSets(sets, |sets|, schema, t.id, db, t.state).value.code, CommitUpdate, m2, db, functions, mode);
  }

  lemma DeleteJudged(table: Expr, db: Db, functions: Functions, mode: Mode, code: Code, m: Machine)
    requires Idle(code, m) && LowerDelete(table, db, code).Done?
    ensures RunVerdict(LowerDelete(table, db, code).value, db, functions, mode) == RunVerdict(code, db, functions, mode)
  {
    hide Exec, RunVerdict, LowerTable, Remembers;
    var t := LowerTable(table, db, code).value;
    var m1 := TableMeans(table, db, code, m);
    VerdictNext(code, FetchTable(table.name, db[table.name]), m, db, functions, mode);
    VerdictNext(t.state.code, DeleteTable(t.id), m1, db, functions, mode);
  }

  lemma StmtJudged(s: Stmt, db: Db, functions: Functions, mode: Mode, code: Code, m: Machine)
    requires Modelled(s) && StarsOnTop(s) && Clean(s) && Idle(code, m) && LowerStmt(s, db, code).Done?
    ensures RunVerdict(LowerStmt(s, db, code).value, db, functions, mode) ==
            Then(RunVerdict(code, db, functions, mode), EffectVerdict(m.effects, EffectOf(s, db), db, functions, mode))
  {
    hide Idle, LowerSelect, LowerInsert, LowerUpdate, LowerDelete, Clean, StarsOnTop, RunVerdict;
    match s
    case ExprStmt(e) => SelectJudged(e.exprs, e.table, db, functions, mode, code, m);
    case InsertStmt(name, columns, rows) => InsertJudged(name, columns, rows, db, functions, mode, code, m);
    case UpdateStmt(table, sets, _) => UpdateJudged(table, sets, db, functions, mode, code, m);
    case DeleteStmt(table, _) => DeleteJudged(table, db, functions, mode, code, m);
  }

  lemma {:induction false} QueryIsJudged(stmts: seq<Stmt>, n: nat, db: Db, functions: Functions, mode: Mode)
    requires forall i :: 0 <= i < |stmts| ==> Modelled(stmts[i]) && StarsOnTop(stmts[i]) && Clean(stmts[i])
    requires n <= |stmts| && LowerQuery(stmts, n, db).Done?
    ensures RunVerdict(LowerQuery(stmts, n, db).value, db, functions, mode) ==
            QueryVerdict(Effects(stmts, n, db), db, functions, mode)
  {
    hide Idle, LowerStmt, EffectOf, Clean, StarsOnTop, EffectVerdict;
    if n > 0 {
      var before := Effects(stmts, n - 1, db);
      QueryIsJudged(stmts, n - 1, db, functions, mode);
      var m := LoweringPreservesMeaning(stmts, n - 1, db);
      StmtJudged(stmts[n - 1], db, functions, mode, LowerQuery(stmts, n - 1, db).value, m);
      var all := before + [EffectOf(stmts[n - 1], db)];
      assert all[..|before|] == before;
    }
  }

  lemma IdleIs(code: Code, m: Machine)
    requires Idle(code, m)
    ensures Exec(code) == Done(m)
  {
  }

  /**
   The checker, as written or repaired, says to the IR of a clean query exactly what the verdict on its statements is:
   it accepts, ends with an error, or stops the server, by the first thing in query order that is not accepted.
   */
  lemma CheckIsVerdict(stmts: seq<Stmt>, db: Db, functions: Functions, mode: Mode)
    requires WellFormedDb(db)
    requires forall i :: 0 <= i < |stmts| ==> Modelled(stmts[i]) && StarsOnTop(stmts[i]) && Clean(stmts[i])
    requires LowerQuery(stmts, |stmts|, db).Done?
    ensures var code := LowerQuery(stmts, |stmts|, db).value;
            VerdictOf(Check(code, |code|, functions, mode)) ==
            QueryVerdict(Effects(stmts, |stmts|, db), db, functions, mode)
  {
    hide Idle, Exec, LowerStmt, EffectOf, Clean, StarsOnTop, Check, RunVerdict, QueryVerdict, Agree;
    var n, code := |stmts|, LowerQuery(stmts, |stmts|, db).value;
    QueryNames(stmts, n, db);
    var m := LoweringPreservesMeaning(stmts, n, db);
    IdleIs(code, m);
    var _ := RunJudged(code, |code|, db, functions, mode);
    assert code[..|code|] == code;
    QueryIsJudged(stmts, n, db, functions, mode);
  }
}
