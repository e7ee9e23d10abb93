/**
 What IR does and what statements mean. The executor of `src/Core/DBConnection.cpp` (execute_instruction) and
 `src/Core/QueryExecutionContext.cpp` turns instructions into nodes of the query graph; here a node holds the value
 of a column as a symbolic term over constants and columns of base tables.
 */
module Execution {
  import opened Ast
  import opened Bytes
  import opened Lowering
  import opened Wrappers

  datatype Sym =
    | Number(i: S64)
    | String(s: string)
    | True
    | False
    | Nothing
    | ColumnOf(table: string, column: string)
    | Compared(op: Operator, lhs: Sym, rhs: Sym)
    | Returned(fn: string, args: seq<Sym>)

  datatype Shown = Shown(table: string, value: Sym, name: string)
  datatype Cell = Cell(column: string, value: Sym)

  datatype Effect =
    | Show(columns: seq<Shown>)
    | InsertRows(table: string, rows: seq<seq<Cell>>)
    | WriteColumns(table: string, cells: seq<Cell>)
    | DeleteRows(table: string)

  // ---------- The executor ----------

  datatype Machine = Machine(
    vars: map<nat, Sym>, tables: map<nat, string>, args: seq<Sym>, emitted: seq<Shown>,
    row: seq<Cell>, rows: seq<seq<Cell>>, target: Option<string>, cells: seq<Cell>, effects: seq<Effect>)

  function Start(): Machine {
    Machine(map[], map[], [], [], [], [], None, [], [])
  }

  function PutVar(m: Machine, ip: nat, v: Sym): Outcome<Machine> {
    Done(m.(vars := m.vars[ip := v]))
  }

  /**
   One instruction; a variable or table that was never put stops the server. The column types of a SELECT, which come
   from the type checker, are in module QueryRun.
   */
  function Step(i: Instr, ip: nat, m: Machine): Outcome<Machine> {
    match i
    case ConstInt(n) => PutVar(m, ip, Number(n))
    case ConstString(s) => PutVar(m, ip, String(s))
    case ConstTrue => PutVar(m, ip, True)
    case ConstFalse => PutVar(m, ip, False)
    case ConstNull => PutVar(m, ip, Nothing)
    case FetchTable(name, _) => Done(m.(tables := m.tables[ip := name]))
    case FetchColumn(t, name) =>
      if t in m.tables then PutVar(m, ip, ColumnOf(m.tables[t], name)) else Trapped
    case Compare(op, l, r) =>
      if l in m.vars && r in m.vars then PutVar(m, ip, Compared(op, m.vars[l], m.vars[r])) else Trapped
    case Arg(v) =>
      if v in m.vars then Done(m.(args := m.args + [m.vars[v]])) else Trapped
    case Call(fn, count) =>
      if |m.args| == count then PutVar(m.(args := []), ip, Returned(fn, m.args)) else Trapped
    case EmitColumn(t, v, name) =>
      if t in m.tables && v in m.vars then Done(m.(emitted := m.emitted + [Shown(m.tables[t], m.vars[v], name)]))
      else Trapped
    case EmitQuery(count) =>
      if count <= |m.emitted| then Done(m.(emitted := [], effects := m.effects + [Show(m.emitted[..count])]))
      else Trapped
    case InsertColumn(name, v) =>
      if v in m.vars then Done(m.(row := m.row + [Cell(name, m.vars[v])])) else Trapped
    case InsertRow => Done(m.(row := [], rows := m.rows + [m.row]))
    case CommitInsert(t) =>
      if t in m.tables then Done(m.(rows := [], effects := m.effects + [InsertRows(m.tables[t], m.rows)])) else Trapped
    case UpdateColumn(t, v, name) =>
      if t in m.tables && v in m.vars && (m.target == None || m.target == Some(m.tables[t])) then
        Done(m.(target := Some(m.tables[t]), cells := m.cells + [Cell(name, m.vars[v])]))
      else Trapped
    case CommitUpdate =>
      if m.target.Some? then
        Done(m.(target := None, cells := [], effects := m.effects + [WriteColumns(m.target.value, m.cells)]))
      else Trapped
    case DeleteTable(t) =>
      if t in m.tables then Done(m.(effects := m.effects + [DeleteRows(m.tables[t])])) else Trapped
  }

  function Exec(code: Code): Outcome<Machine> {
    if code == [] then Done(Start())
    else match Exec(code[..|code| - 1])
      case Done(m) => Step(code[|code| - 1], |code| - 1, m)
      case Failed => Failed
      case Trapped => Trapped
  }

  lemma ExecNext(code: Code, i: Instr)
    ensures Exec(code + [i]) == match Exec(code)
                                case Done(m) => Step(i, |code|, m)
                                case Failed => Failed
                                case Trapped => Trapped
  {
    assert (code + [i])[..|code|] == code;
  }

  /** What stopped the executor once stops it for every longer program. */
  lemma {:induction false} TrapStays(code: Code, code': Code)
    requires code <= code' && Exec(code).Trapped?
    ensures Exec(code').Trapped?
    decreases |code'|
  {
    if |code| < |code'| {
      assert code <= code'[..|code'| - 1];
      TrapStays(code, code'[..|code'| - 1]);
    } else {
      assert code == code';
    }
  }

  // ---------- What expressions mean ----------

  function Meaning(e: Expr, table: string): Sym {
    match e
    case IntegerLit(i) => Number(i)
    case StringLit(s) => String(s)
    case TrueLit => True
    case FalseLit => False
    case NullLit => Nothing
    case Ident(name) => ColumnOf(table, name)
    case Call(fn, args) => Returned(NameOf(fn), Meanings(args, |args|, table))
    case Binary(op, lhs, rhs) => Compared(op, Meaning(lhs, table), Meaning(rhs, table))
    case Star => Nothing // means several values, see ItemMeaning
    case Select(_, _) => Nothing // not modelled
  }

  function Meanings(es: seq<Expr>, n: nat, table: string): (r: seq<Sym>)
    requires n <= |es|
    ensures |r| == n
    decreases es, n
  {
    if n == 0 then [] else Meanings(es, n - 1, table) + [Meaning(es[n - 1], table)]
  }

  /** Calls can be compiled one after the other: a call sits inside another one only as its first argument. */
  predicate CallsFit(e: Expr, idle: bool) {
    match e
    case Call(_, args) => idle && forall i :: 0 <= i < |args| ==> CallsFit(args[i], i == 0)
    case _ => true
  }

  // ---------- Calls ----------

  /** The executor got to the end of the code, and knows the table of the statement. */
  ghost predicate At(code: Code, m: Machine, t: nat, table: string) {
    && Exec(code) == Done(m)
    && t < |code| && t in m.tables && m.tables[t] == table && t !in m.vars
    && code[0].FetchTable?
    && forall k <- m.vars :: 0 < k < |code|
  }

  /** Between two states of the executor only variables were added. */
  ghost predicate Adds(m: Machine, m': Machine) {
    && m' == m.(vars := m'.vars, args := m'.args)
    && forall k <- m.vars :: k in m'.vars && m'.vars[k] == m.vars[k]
  }

  lemma AddsTwice(m: Machine, m': Machine, m'': Machine)
    requires Adds(m, m') && Adds(m', m'')
    ensures Adds(m, m'')
  {
  }

  /** One instruction that puts a variable. */
  lemma VarPut(code: Code, m: Machine, t: nat, table: string, i: Instr, v: Sym, args: seq<Sym>)
    requires At(code, m, t, table)
    requires Step(i, |code|, m) == Done(m.(vars := m.vars[|code| := v], args := args))
    ensures var m' := m.(vars := m.vars[|code| := v], args := args);
            At(code + [i], m', t, table) && Adds(m, m') && |code| in m'.vars && m'.vars[|code|] == v
  {
    ExecNext(code, i);
  }

  lemma ArgPushed(code: Code, m: Machine, t: nat, table: string, v: nat)
    requires At(code, m, t, table) && v in m.vars
    ensures var m' := m.(args := m.args + [m.vars[v]]);
            At(code + [Arg(v)], m', t, table) && Adds(m, m')
  {
    ExecNext(code, Arg(v));
  }

  lemma Called(code: Code, m: Machine, t: nat, table: string, fn: string, count: nat)
    requires At(code, m, t, table) && |m.args| == count
    ensures var m' := m.(vars := m.vars[|code| := Returned(fn, m.args)], args := []);
            At(code + [Instr.Call(fn, count)], m', t, table) && Adds(m, m') && m'.vars[|code|] == Returned(fn, m.args)
  {
    VarPut(code, m, t, table, Instr.Call(fn, count), Returned(fn, m.args), []);
  }

  lemma CallTraps(code: Code, fn: string, count: nat)
    requires Exec(code).Trapped? || (Exec(code).Done? && |Exec(code).value.args| != count)
    ensures Exec(code + [Instr.Call(fn, count)]).Trapped?
  {
    ExecNext(code, Instr.Call(fn, count));
  }

  lemma LeafMeans(e: Expr, t: nat, table: string, db: Db, code: Code, m: Machine) returns (m': Machine)
    requires At(code, m, t, table) && !e.Call?
    requires CompileExpr(e, InTable(t), db, code).Done?
    ensures var c := CompileExpr(e, InTable(t), db, code).value;
            && At(c.code, m', t, table) && Adds(m, m') && m'.args == m.args
            && c.id in m'.vars && m'.vars[c.id] == Meaning(e, table)
  {
    hide Exec;
    var c := CompileExpr(e, InTable(t), db, code).value;
    var v := Meaning(e, table);
    assert c.code == code + [c.code[|code|]];
    VarPut(code, m, t, table, c.code[|code|], v, m.args);
    m' := m.(vars := m.vars[|code| := v]);
  }

  /** Compiled leaf expressions and calls compute their meaning, or stop the executor, by `CallsFit`. */
  lemma {:induction false} CompiledMeans(e: Expr, t: nat, table: string, db: Db, code: Code, m: Machine)
      returns (m': Machine)
    requires At(code, m, t, table)
    requires CompileExpr(e, InTable(t), db, code).Done?
    ensures var c := CompileExpr(e, InTable(t), db, code).value;
            if CallsFit(e, m.args == []) then
              At(c.code, m', t, table) && Adds(m, m') && m'.args == m.args
              && c.id in m'.vars && m'.vars[c.id] == Meaning(e, table)
            else Exec(c.code).Trapped?
    decreases e, 0
  {
    hide Exec, At, Adds;
    if e.Call? {
      var code' := CompileArgs(e.args, |e.args|, InTable(t), db, code).value;
      m' := ArgsMean(e.args, |e.args|, t, table, db, code, m);
      if m.args == [] && CallsFit(e, true) {
        var m1 := m';
        Called(code', m1, t, table, e.fn.name, |e.args|);
        m' := m1.(vars := m1.vars[|code'| := Returned(e.fn.name, m1.args)], args := []);
        AddsTwice(m, m1, m');
      } else {
        AtDone(code', m', t, table);
        CallTraps(code', e.fn.name, |e.args|);
      }
    } else {
      m' := LeafMeans(e, t, table, db, code, m);
    }
  }

  lemma AtDone(code: Code, m: Machine, t: nat, table: string)
    ensures At(code, m, t, table) ==> Exec(code) == Done(m)
  {
  }

  ghost predicate ArgsFit(args: seq<Expr>, n: nat, idle: bool)
    requires n <= |args|
  {
    forall i :: 0 <= i < n ==> CallsFit(args[i], idle && i == 0)
  }

  /** The first n arguments: their meanings are pushed on top of what waits already. */
  lemma {:induction false} ArgsMean(args: seq<Expr>, n: nat, t: nat, table: string, db: Db, code: Code, m: Machine)
      returns (m': Machine)
    requires At(code, m, t, table) && n <= |args|
    requires CompileArgs(args, n, InTable(t), db, code).Done?
    ensures var code' := CompileArgs(args, n, InTable(t), db, code).value;
            if ArgsFit(args, n, m.args == []) then
              At(code', m', t, table) && Adds(m, m') && m'.args == m.args + Meanings(args, n, table)
            else Exec(code').Trapped?
    decreases args, n
  {
    hide Exec, At, CallsFit, CompileExpr;
    m' := m;
    if n > 0 {
      var code1 := CompileArgs(args, n - 1, InTable(t), db, code).value;
      var m1 := ArgsMean(args, n - 1, t, table, db, code, m);
      var c := CompileExpr(args[n - 1], InTable(t), db, code1).value;
      if ArgsFit(args, n - 1, m.args == []) {
        var m2 := CompiledMeans(args[n - 1], t, table, db, code1, m1);
        if CallsFit(args[n - 1], m1.args == []) {
          ArgPushed(c.code, m2, t, table, c.id);
          m' := m2.(args := m2.args + [m2.vars[c.id]]);
        } else {
          TrapStays(c.code, c.code + [Arg(c.id)]);
        }
      } else {
        TrapStays(code1, c.code + [Arg(c.id)]);
      }
    }
  }

  // ---------- Values ----------

  /** The condition on a value: the table is not named as a column, and calls follow each other. */
  predicate ValueClean(e: Expr, table: string) {
    match e
    case Ident(name) => name != table
    case Call(_, _) => CallsFit(e, true)
    case Binary(_, lhs, rhs) => ValueClean(lhs, table) && ValueClean(rhs, table)
    case Star => false
    case Select(_, _) => false
    case _ => true
  }

  /** No STAR among the operands of a value. */
  predicate NoStar(e: Expr) {
    match e
    case Binary(_, lhs, rhs) => NoStar(lhs) && NoStar(rhs)
    case Star => false
    case _ => true
  }

  /** The expressions that were compiled before still hold their values. */
  ghost predicate Remembers(memo: map<Expr, nat>, m: Machine, t: nat, table: string) {
    && Ident(table) in memo && memo[Ident(table)] == t
    && (Star in memo ==> memo[Star] == 0)
    && forall e <- memo :: e != Ident(table) && e != Star ==>
         ValueClean(e, table) && memo[e] in m.vars && m.vars[memo[e]] == Meaning(e, table)
  }

  lemma StillRemembers(memo: map<Expr, nat>, m: Machine, m': Machine, t: nat, table: string)
    requires Remembers(memo, m, t, table) && Adds(m, m')
    ensures Remembers(memo, m', t, table)
  {
  }

  lemma RemembersOneMore(s: State, e: Expr, id: nat, m: Machine, t: nat, table: string)
    requires Remembers(s.memo, m, t, table) && e != Ident(table) && e != Star
    requires ValueClean(e, table) && id in m.vars && m.vars[id] == Meaning(e, table)
    ensures Remembers(Remember(s, e, id).memo, m, t, table)
  {
  }

  /** Everything a value lowered in the scope of its table relies on and leaves behind. */
  ghost predicate InScope(s: State, m: Machine, t: nat, table: string) {
    At(s.code, m, t, table) && m.args == [] && Remembers(s.memo, m, t, table)
  }

  lemma Compares(code: Code, m: Machine, t: nat, table: string, op: Operator, l: nat, r: nat)
    requires At(code, m, t, table) && l in m.vars && r in m.vars
    ensures var m' := m.(vars := m.vars[|code| := Compared(op, m.vars[l], m.vars[r])]);
            At(code + [Compare(op, l, r)], m', t, table) && Adds(m, m')
  {
    VarPut(code, m, t, table, Compare(op, l, r), Compared(op, m.vars[l], m.vars[r]), m.args);
  }

  lemma ComparesTable(code: Code, m: Machine, t: nat, table: string, op: Operator, l: nat, r: nat)
    requires At(code, m, t, table) && (l == t || r == t)
    ensures Exec(code + [Compare(op, l, r)]).Trapped?
  {
    ExecNext(code, Compare(op, l, r));
  }

  /** The IR id of a value holds its meaning; if it is not clean, the executor stopped or the id is that of the table. */
  lemma {:induction false} ValueMeans(e: Expr, t: nat, table: string, db: Db, s: State, m: Machine)
      returns (m': Machine)
    requires InScope(s, m, t, table) && NoStar(e)
    requires LowerSingle(e, InTable(t), db, s).Done?
    ensures var r := LowerSingle(e, InTable(t), db, s).value;
            if ValueClean(e, table) then
              InScope(r.state, m', t, table) && Adds(m, m') && r.id in m'.vars && m'.vars[r.id] == Meaning(e, table)
            else Exec(r.state.code).Trapped? || (InScope(r.state, m', t, table) && Adds(m, m') && r.id == t)
    decreases e
  {
    m' := m;
    var r := LowerSingle(e, InTable(t), db, s).value;
    if Shareable(e) && e in s.memo {
    } else if e.Binary? {
      m' := BinaryMeans(e, t, table, db, s, m);
    } else {
      m' := CompiledMeans(e, t, table, db, s.code, m);
      if ValueClean(e, table) {
        StillRemembers(s.memo, m, m', t, table);
        RemembersOneMore(s.(code := r.state.code), e, r.id, m', t, table);
      }
    }
  }

  lemma {:induction false} BinaryMeans(e: Expr, t: nat, table: string, db: Db, s: State, m: Machine)
      returns (m': Machine)
    requires InScope(s, m, t, table) && NoStar(e) && e.Binary? && !(Shareable(e) && e in s.memo)
    requires LowerSingle(e, InTable(t), db, s).Done?
    ensures var r := LowerSingle(e, InTable(t), db, s).value;
            if ValueClean(e, table) then
              InScope(r.state, m', t, table) && Adds(m, m') && r.id in m'.vars && m'.vars[r.id] == Meaning(e, table)
            else Exec(r.state.code).Trapped?
    decreases e, 0
  {
    hide Exec, At, Adds, CompileExpr, Remembers;
    m' := m;
    var l := LowerSingle(e.lhs, InTable(t), db, s).value;
    var r := LowerSingle(e.rhs, InTable(t), db, l.state).value;
    var code' := r.state.code + [Compare(e.op, l.id, r.id)];
    var m1 := ValueMeans(e.lhs, t, table, db, s, m);
    if !ValueClean(e.lhs, table) && Exec(l.state.code).Trapped? {
      TrapStays(l.state.code, code');
    } else {
      var m2 := ValueMeans(e.rhs, t, table, db, l.state, m1);
      if !ValueClean(e.rhs, table) && Exec(r.state.code).Trapped? {
        TrapStays(r.state.code, code');
      } else if ValueClean(e, table) {
        KeptVar(m1, m2, l.id);
        Compares(r.state.code, m2, t, table, e.op, l.id, r.id);
        m' := m2.(vars := m2.vars[|r.state.code| := Compared(e.op, m2.vars[l.id], m2.vars[r.id])]);
        AddsTwice(m, m1, m2);
        AddsTwice(m, m2, m');
        StillRemembers(r.state.memo, m2, m', t, table);
        RemembersOneMore(r.state.(code := code'), e, |r.state.code|, m', t, table);
      } else {
        ComparesTable(r.state.code, m2, t, table, e.op, l.id, r.id);
      }
    }
  }

  lemma KeptVar(m: Machine, m': Machine, k: nat)
    requires Adds(m, m') && k in m.vars
    ensures k in m'.vars && m'.vars[k] == m.vars[k]
  {
  }
}
