/**
 The compiler over the expression graph: compile_expr, compile_ident and compile_graph_node of `src/SQL/ir.cpp`, with
 the namespace and table stacks of `src/SQL/ir.hpp`. Each method emits the code that module Lowering defines.
 */
module GraphCompiler {
  import opened Ast
  import CompileConditions
  import opened Lowering
  import opened StmtGraphs
  import opened Wrappers

  datatype Namespace = NS_GLOBAL | NS_TABLE

  /** A result of the compiler agrees with the definition; what it emitted before it stopped does not matter. */
  ghost predicate Agrees(r: Outcome<nat>, code: Code, spec: Outcome<Compiled>) {
    match spec
    case Done(c) => r == Done(c.id) && code == c.code
    case Failed => r == Failed
    case Trapped => r == Trapped
  }

  ghost predicate AgreesCode(r: Outcome<()>, code: Code, spec: Outcome<Code>) {
    match spec
    case Done(c) => r.Done? && code == c
    case Failed => r == Failed
    case Trapped => r == Trapped
  }

  ghost predicate AgreesNode(r: Outcome<seq<nat>>, code: Code, memo: map<Expr, nat>, spec: Outcome<Several>) {
    match spec
    case Done(c) => r == Done(c.ids) && code == c.state.code && memo == c.state.memo
    case Failed => r == Failed
    case Trapped => r == Trapped
  }

  ghost predicate AgreesSingle(r: Outcome<nat>, code: Code, memo: map<Expr, nat>, spec: Outcome<Single>) {
    match spec
    case Done(c) => r == Done(c.id) && code == c.state.code && memo == c.state.memo
    case Failed => r == Failed
    case Trapped => r == Trapped
  }

  /** A call stops where its first argument that does not compile stops. */
  lemma {:induction false} ArgsStop(args: seq<Expr>, i: nat, n: nat, scope: Scope, db: Db, code: Code)
    requires i <= n <= |args| && !CompileArgs(args, i, scope, db, code).Done?
    ensures CompileArgs(args, n, scope, db, code) == CompileArgs(args, i, scope, db, code)
  {
    if i < n {
      ArgsStop(args, i, n - 1, scope, db, code);
    }
  }

  lemma CallSpec(fn: Expr, args: seq<Expr>, scope: Scope, db: Db, code: Code)
    ensures CompileArgs(args, 0, scope, db, code) == Done(code)
    ensures Lowering.CompileExpr(Expr.Call(fn, args), scope, db, code) ==
            if !fn.Ident? then Trapped
            else match CompileArgs(args, |args|, scope, db, code)
              case Done(code') => Done(Emit(code', Instr.Call(fn.name, |args|)))
              case Failed => Failed
              case Trapped => Trapped
  {
  }

  lemma ArgSpec(args: seq<Expr>, i: nat, scope: Scope, db: Db, code: Code)
    requires i < |args| && CompileArgs(args, i, scope, db, code).Done?
    ensures CompileArgs(args, i + 1, scope, db, code) ==
            match Lowering.CompileExpr(args[i], scope, db, CompileArgs(args, i, scope, db, code).value)
            case Done(c) => Done(c.code + [Arg(c.id)])
            case Failed => Failed
            case Trapped => Trapped
  {
  }

  lemma ComparisonSpec(e: Expr, scope: Scope, db: Db, s: State)
    requires e.Binary? && !(Shareable(e) && e in s.memo)
    ensures LowerNode(e, scope, db, s) ==
            match LowerSingle(e.lhs, scope, db, s)
            case Failed => Failed
            case Trapped => Trapped
            case Done(l) => (
              match LowerSingle(e.rhs, scope, db, l.state)
              case Failed => Failed
              case Trapped => Trapped
              case Done(r) =>
                var c := Emit(r.state.code, Compare(e.op, l.id, r.id));
                Done(Several(Remember(r.state.(code := c.code), e, c.id), [c.id])))
  {
  }

  class IrContext {
    const db: Db
    var code: Code
    var namespaces: seq<Namespace>
    var tables: seq<nat>

    constructor (db: Db)
      ensures this.db == db && code == [] && StacksOk() && CurrentScope() == Global
    {
      this.db, code, namespaces, tables := db, [], [NS_GLOBAL], [];
    }

    ghost predicate StacksOk()
      reads this
    {
      namespaces != [] && (namespaces[|namespaces| - 1] == NS_TABLE ==> tables != [])
    }

    ghost function CurrentScope(): Scope
      requires StacksOk()
      reads this
    {
      if namespaces[|namespaces| - 1] == NS_TABLE then InTable(tables[|tables| - 1]) else Global
    }

    method EmitInstr(i: Instr) returns (id: nat)
      modifies this`code
      ensures code == old(code) + [i] && id == |old(code)|
    {
      id := |code|;
      code := code + [i];
    }

    /** `compile_ident` */
    method CompileIdent(name: string) returns (r: Outcome<nat>)
      requires StacksOk()
      modifies this`code
      ensures Agrees(r, code, Lowering.CompileIdent(name, CurrentScope(), db, old(code)))
    {
      match namespaces[|namespaces| - 1]
      case NS_TABLE =>
        var t := tables[|tables| - 1];
        var schema := TableSchema(code, t);
        if schema.None? {
          return Trapped;
        }
        if name !in schema.value.names {
          return Failed;
        }
        var id := EmitInstr(FetchColumn(t, name));
        r := Done(id);
      case NS_GLOBAL =>
        if name !in db {
          return Failed;
        }
        var id := EmitInstr(FetchTable(name, db[name]));
        r := Done(id);
    }

    /** `compile_expr` */
    method CompileExpr(e: Expr) returns (r: Outcome<nat>)
      requires StacksOk()
      modifies this`code
      ensures Agrees(r, code, Lowering.CompileExpr(e, CurrentScope(), db, old(code)))
      decreases e
    {
      var id;
      match e
      case IntegerLit(i) => id := EmitInstr(ConstInt(i)); r := Done(id);
      case StringLit(s) => id := EmitInstr(ConstString(s)); r := Done(id);
      case TrueLit => id := EmitInstr(ConstTrue); r := Done(id);
      case FalseLit => id := EmitInstr(ConstFalse); r := Done(id);
      case NullLit => id := EmitInstr(ConstNull); r := Done(id);
      case Ident(name) => r := CompileIdent(name);
      case Call(fn, args) => r := CompileCall(fn, args);
      case _ => r := Trapped;
    }

    method CompileCall(fn: Expr, args: seq<Expr>) returns (r: Outcome<nat>)
      requires StacksOk()
      modifies this`code
      ensures Agrees(r, code, Lowering.CompileExpr(Expr.Call(fn, args), CurrentScope(), db, old(code)))
      decreases args
    {
      hide Lowering.CompileExpr, CompileArgs;
      CallSpec(fn, args, CurrentScope(), db, code);
      if !fn.Ident? {
        return Trapped;
      }
      for i := 0 to |args|
        invariant CompileArgs(args, i, CurrentScope(), db, old(code)) == Done(code)
      {
        ArgSpec(args, i, CurrentScope(), db, old(code));
        r := CompileExpr(args[i]);
        if !r.Done? {
          ArgsStop(args, i + 1, |args|, CurrentScope(), db, old(code));
          return;
        }
        var id := EmitInstr(Arg(r.value));
      }
      var id := EmitInstr(Instr.Call(fn.name, |args|));
      r := Done(id);
    }

    // ---------- Nodes ----------

    method MarkVisited(g: StmtGraph, k: nat)
      requires g.Valid() && k < |g.nodes| && k !in g.open && !g.nodes[k].visited
      modifies g`nodes, g`open
      ensures g.Valid() && g.open == old(g.open) + {k}
      ensures g.nodes == old(g.nodes)[k := old(g.nodes)[k].(visited := true)]
      ensures Memo(g.nodes, g.indices, g.open) == old(Memo(g.nodes, g.indices, g.open))
    {
      MemoOpened(g.nodes, g.firsts, g.indices, g.open, k);
      ghost var nodes := g.nodes;
      g.nodes := g.nodes[k := g.nodes[k].(visited := true)];
      ShapeKeepsGraph(nodes, g.firsts, g.indices, g.nodes);
      g.open := g.open + {k};
    }

    method SetIrId(g: StmtGraph, k: nat, id: nat)
      requires g.Valid() && k < |g.nodes| && k in g.open && g.nodes[k].visited
      modifies g`nodes, g`open
      ensures g.Valid() && g.open == old(g.open) - {k}
      ensures g.nodes == old(g.nodes)[k := old(g.nodes)[k].(irId := id)]
      ensures var memo := old(Memo(g.nodes, g.indices, g.open));
              Memo(g.nodes, g.indices, g.open) ==
              if Shareable(old(g.nodes)[k].expr) then memo[old(g.nodes)[k].expr := id] else memo
    {
      MemoClosed(g.nodes, g.firsts, g.indices, g.open, k, id);
      ghost var nodes := g.nodes;
      g.nodes := g.nodes[k := g.nodes[k].(irId := id)];
      ShapeKeepsGraph(nodes, g.firsts, g.indices, g.nodes);
      g.open := g.open - {k};
    }

    ghost predicate CanCompile(g: StmtGraph, k: nat)
      reads this, g
    {
      && StacksOk() && g.Valid() && k < |g.nodes| && Ready(g.nodes, g.firsts, k)
      && forall j <- g.open :: j > k
    }

    ghost function MemoOf(g: StmtGraph): map<Expr, nat>
      reads g
    {
      Memo(g.nodes, g.indices, g.open)
    }

    /** `compile_graph_node` for the nodes of expressions. */
    method CompileGraphNode(g: StmtGraph, k: nat) returns (r: Outcome<seq<nat>>)
      requires CanCompile(g, k)
      modifies this`code, g`nodes, g`open
      ensures r.Done? ==> g.Valid() && g.open == old(g.open) && MarkedBy(old(g.nodes), g.nodes, g.firsts, k)
      ensures AgreesNode(r, code, MemoOf(g),
                         LowerNode(old(g.nodes[k].expr), CurrentScope(), db, State(old(code), old(MemoOf(g)))))
      decreases k, 1
    {
      hide GraphOk, MarkedBy, Ready, Memo, Lowering.CompileExpr, LowerSingle;
      var e := g.nodes[k].expr;
      if g.nodes[k].visited {
        VisitedNode(g.nodes, g.firsts, g.indices, g.open, k);
        return Done([g.nodes[k].irId]);
      }
      if e.Binary? {
        r := CompileComparison(g, k);
      } else if e.Star? {
        r := CompileStar(g, k);
      } else if e.Select? {
        NotInMemo(g.nodes, g.firsts, g.indices, g.open, k);
        r := Trapped; // nested queries are not modelled
      } else {
        r := CompileLeaf(g, k);
      }
    }

    method CompileLeaf(g: StmtGraph, k: nat) returns (r: Outcome<seq<nat>>)
      requires CanCompile(g, k) && !g.nodes[k].visited
      requires var e := g.nodes[k].expr; !e.Binary? && !e.Star? && !e.Select?
      modifies this`code, g`nodes, g`open
      ensures r.Done? ==> g.Valid() && g.open == old(g.open) && MarkedBy(old(g.nodes), g.nodes, g.firsts, k)
      ensures AgreesNode(r, code, MemoOf(g),
                         LowerNode(old(g.nodes[k].expr), old(CurrentScope()), db, State(old(code), old(MemoOf(g)))))
    {
      hide GraphOk, NodeOk, Memo, OnlyOwn, Ready, Lowering.CompileExpr;
      ghost var nodes := g.nodes;
      NodeIsOk(nodes, g.firsts, g.indices, k);
      NodeOwns(nodes, g.firsts, k);
      NotInMemo(nodes, g.firsts, g.indices, g.open, k);
      MarkVisited(g, k);
      var id := CompileExpr(g.nodes[k].expr);
      if !id.Done? {
        return if id.Failed? then Failed else Trapped;
      }
      SetIrId(g, k, id.value);
      Marked(nodes, g.firsts, k, g.nodes[k]);
      assert g.nodes == nodes[k := g.nodes[k]];
      r := Done([id.value]);
    }

    /** `compile_graph_node_single` */
    method CompileSingle(g: StmtGraph, k: nat) returns (r: Outcome<nat>)
      requires CanCompile(g, k)
      modifies this`code, g`nodes, g`open
      ensures r.Done? ==> g.Valid() && g.open == old(g.open) && MarkedBy(old(g.nodes), g.nodes, g.firsts, k)
      ensures AgreesSingle(r, code, MemoOf(g),
                           LowerSingle(old(g.nodes[k].expr), CurrentScope(), db, State(old(code), old(MemoOf(g)))))
      decreases k, 2
    {
      var ids := CompileGraphNode(g, k);
      match ids
      case Failed => r := Failed;
      case Trapped => r := Trapped;
      case Done(ids) => r := if |ids| == 1 then Done(ids[0]) else Trapped;
    }

    method CompileComparison(g: StmtGraph, k: nat) returns (r: Outcome<seq<nat>>)
      requires CanCompile(g, k) && !g.nodes[k].visited && g.nodes[k].expr.Binary?
      modifies this`code, g`nodes, g`open
      ensures r.Done? ==> g.Valid() && g.open == old(g.open) && MarkedBy(old(g.nodes), g.nodes, g.firsts, k)
      ensures AgreesNode(r, code, MemoOf(g),
                         LowerNode(old(g.nodes[k].expr), CurrentScope(), db, State(old(code), old(MemoOf(g)))))
      decreases k, 0
    {
      hide GraphOk, NodeOk, Edges, Memo, MarkedBy, Ready, LowerNode, LowerSingle;
      var n := g.nodes[k];
      ghost var nodes0, firsts := g.nodes, g.firsts;
      NodeIsOk(nodes0, firsts, g.indices, k);
      EdgeReady(nodes0, firsts, k, 0);
      EdgeReady(nodes0, firsts, k, 1);
      NotInMemo(nodes0, firsts, g.indices, g.open, k);
      ComparisonSpec(n.expr, CurrentScope(), db, State(code, MemoOf(g)));
      MarkVisited(g, k);
      ghost var nodes1 := g.nodes;
      NodeIsOk(nodes1, firsts, g.indices, k);
      var lhs := CompileSingle(g, n.edges[0]);
      if !lhs.Done? {
        return if lhs.Failed? then Failed else Trapped;
      }
      ghost var nodes2 := g.nodes;
      NextReady(nodes1, nodes2, firsts, n.edges, Children(n.expr), 0, 1);
      var rhs := CompileSingle(g, n.edges[1]);
      if !rhs.Done? {
        return if rhs.Failed? then Failed else Trapped;
      }
      ghost var nodes3 := g.nodes;
      OperandsMarked(nodes0, nodes1, nodes2, nodes3, firsts, k, n);
      var id := EmitInstr(Compare(n.expr.op, lhs.value, rhs.value));
      SetIrId(g, k, id);
      LastMark(nodes0, nodes3, firsts, k, g.nodes[k]);
      r := Done([id]);
    }

    method CompileStar(g: StmtGraph, k: nat) returns (r: Outcome<seq<nat>>)
      requires CanCompile(g, k) && !g.nodes[k].visited && g.nodes[k].expr.Star?
      modifies this`code, g`nodes, g`open
      ensures r.Done? ==> g.Valid() && g.open == old(g.open) && MarkedBy(old(g.nodes), g.nodes, g.firsts, k)
      ensures AgreesNode(r, code, MemoOf(g),
                         LowerNode(old(g.nodes[k].expr), CurrentScope(), db, State(old(code), old(MemoOf(g)))))
    {
      hide GraphOk, NodeOk, Memo, OnlyOwn, Ready, Lowering.CompileExpr;
      ghost var nodes := g.nodes;
      NodeIsOk(nodes, g.firsts, g.indices, k);
      NodeOwns(nodes, g.firsts, k);
      NotInMemo(nodes, g.firsts, g.indices, g.open, k);
      MarkVisited(g, k);
      if namespaces[|namespaces| - 1] == NS_GLOBAL {
        return Trapped;
      }
      var t := tables[|tables| - 1];
      var schema := TableSchema(code, t);
      if schema.None? {
        return Trapped;
      }
      var ids := FetchColumns(t, schema.value.names);
      SetIrId(g, k, 0); // the id of the node stays what it was made with
      Marked(nodes, g.firsts, k, g.nodes[k]);
      assert g.nodes == nodes[k := g.nodes[k]];
      r := Done(ids);
    }

    method FetchColumns(t: nat, names: seq<string>) returns (ids: seq<nat>)
      modifies this`code
      ensures code == old(code) + FetchAll(t, names) && ids == Ids(|old(code)|, |names|)
    {
      ids := [];
      for i := 0 to |names|
        invariant code == old(code) + FetchAll(t, names)[..i] && ids == Ids(|old(code)|, |names|)[..i]
      {
        var id := EmitInstr(FetchColumn(t, names[i]));
        ids := ids + [id];
      }
    }

    // ---------- Statements ----------

    method PushTable(t: nat)
      requires StacksOk()
      modifies this`namespaces, this`tables
      ensures StacksOk() && CurrentScope() == InTable(t)
      ensures namespaces == old(namespaces) + [NS_TABLE] && tables == old(tables) + [t]
    {
      tables := tables + [t];
      namespaces := namespaces + [NS_TABLE];
    }

    method PopNamespace()
      requires StacksOk()
      modifies this`namespaces, this`tables
      ensures namespaces == old(namespaces)[..|old(namespaces)| - 1]
      ensures tables == if old(namespaces)[|old(namespaces)| - 1] == NS_TABLE then old(tables)[..|old(tables)| - 1]
                        else old(tables)
    {
      var top := namespaces[|namespaces| - 1];
      namespaces := namespaces[..|namespaces| - 1];
      if top == NS_TABLE {
        tables := tables[..|tables| - 1];
      }
    }

    /** The edges of a statement of which the given ones are compiled. */
    ghost predicate Pending(g: StmtGraph, edges: seq<nat>, es: seq<Expr>, done: set<nat>)
      reads this, g
    {
      StacksOk() && g.Valid() && g.open == {} && AllReady(g.nodes, g.firsts, edges, es, done)
    }

    method CompileEdges(g: StmtGraph, edges: seq<nat>, i: nat, ghost es: seq<Expr>, ghost done: set<nat>)
        returns (r: Outcome<seq<nat>>)
      requires Pending(g, edges, es, done) && i < |edges| && i !in done
      modifies this`code, g`nodes, g`open
      ensures |es| == |edges| && (r.Done? ==> Pending(g, edges, es, done + {i}))
      ensures AgreesNode(r, code, MemoOf(g), LowerNode(es[i], CurrentScope(), db, State(old(code), old(MemoOf(g)))))
    {
      hide GraphOk, Memo, OnlyOwn, Ready, LowerNode;
      EdgeFacts(g.nodes, g.firsts, edges, es, done, i);
      r := CompileGraphNode(g, edges[i]);
      if r.Done? {
        OneDone(old(g.nodes), g.nodes, g.firsts, edges, es, done, i);
      }
    }

    method CompileEdge(g: StmtGraph, edges: seq<nat>, i: nat, ghost es: seq<Expr>, ghost done: set<nat>)
        returns (r: Outcome<nat>)
      requires Pending(g, edges, es, done) && i < |edges| && i !in done
      modifies this`code, g`nodes, g`open
      ensures |es| == |edges| && (r.Done? ==> Pending(g, edges, es, done + {i}))
      ensures AgreesSingle(r, code, MemoOf(g), LowerSingle(es[i], CurrentScope(), db, State(old(code), old(MemoOf(g)))))
    {
      hide GraphOk, Memo, OnlyOwn, Ready, LowerSingle;
      EdgeFacts(g.nodes, g.firsts, edges, es, done, i);
      r := CompileSingle(g, edges[i]);
      if r.Done? {
        OneDone(old(g.nodes), g.nodes, g.firsts, edges, es, done, i);
      }
    }

    /** The table of a statement. */
    method CompileTable(g: StmtGraph, edges: seq<nat>, i: nat, ghost es: seq<Expr>) returns (r: Outcome<nat>)
      requires Pending(g, edges, es, {}) && i < |edges| && MemoOf(g) == map[] && CurrentScope() == Global
      modifies this`code, g`nodes, g`open
      ensures |es| == |edges| && (r.Done? ==> Pending(g, edges, es, {i}))
      ensures AgreesSingle(r, code, MemoOf(g), LowerTable(es[i], db, old(code)))
    {
      hide GraphOk, Memo, AllReady, LowerSingle;
      r := CompileEdge(g, edges, i, es, {});
      if r.Done? {
        assert {} + {i} == {i};
        if TableSchema(code, r.value).None? {
          r := Failed;
        }
      }
    }

    method EmitColumns(t: nat, ids: seq<nat>, name: string)
      modifies this`code
      ensures code == old(code) + EmitAll(t, ids, name)
    {
      for i := 0 to |ids|
        invariant code == old(code) + EmitAll(t, ids, name)[..i]
      {
        var _ := EmitInstr(EmitColumn(t, ids[i], name));
      }
    }

    /** The loop over the select list. */
    method CompileItems(g: StmtGraph, edges: seq<nat>, exprs: seq<Expr>, ghost table: Expr, t: nat)
        returns (r: Outcome<nat>)
      requires Pending(g, edges, exprs + [table], {|exprs|}) && CurrentScope() == InTable(t)
      modifies this`code, g`nodes, g`open
      ensures match LowerItems(exprs, |exprs|, t, db, State(old(code), old(MemoOf(g))))
              case Done((s, count)) => r == Done(count) && code == s.code
              case Failed => r == Failed
              case Trapped => r == Trapped
    {
      hide GraphOk, Memo, AllReady, LowerNode, LowerItems;
      ghost var es, s := exprs + [table], State(code, MemoOf(g));
      NoItems(exprs, t, db, s);
      ghost var done: set<nat> := {|exprs|};
      EdgeCount(g.nodes, g.firsts, edges, es, done);
      var count := 0;
      for i := 0 to |exprs|
        invariant Pending(g, edges, es, done)
        invariant forall j :: i <= j < |exprs| ==> j !in done
        invariant LowerItems(exprs, i, t, db, s) == Done((State(code, MemoOf(g)), count))
      {
        ItemSpec(exprs, i, t, db, s);
        var ids := CompileEdges(g, edges, i, es, done);
        if !ids.Done? {
          ItemsStop(exprs, i + 1, |exprs|, t, db, s);
          return if ids.Failed? then Failed else Trapped;
        }
        done := done + {i};
        EmitColumns(t, ids.value, NameOf(exprs[i]));
        count := count + |ids.value|;
      }
      r := Done(count);
    }

    /** The SELECT node: its edges are the items and then the table. */
    method CompileSelect(g: StmtGraph, edges: seq<nat>, exprs: seq<Expr>, ghost table: Expr) returns (r: Outcome<()>)
      requires Pending(g, edges, exprs + [table], {}) && MemoOf(g) == map[] && CurrentScope() == Global
      modifies this, g`nodes, g`open
      ensures AgreesCode(r, code, LowerSelect(exprs, table, db, old(code)))
      ensures r.Done? ==> StacksOk() && CurrentScope() == Global
    {
      hide GraphOk, Memo, AllReady, LowerItems, LowerTable;
      EdgeCount(g.nodes, g.firsts, edges, exprs + [table], {});
      var t := CompileTable(g, edges, |exprs|, exprs + [table]);
      if !t.Done? {
        return if t.Failed? then Failed else Trapped;
      }
      PushTable(t.value);
      var count := CompileItems(g, edges, exprs, table, t.value);
      if !count.Done? {
        return if count.Failed? then Failed else Trapped;
      }
      PopNamespace();
      assert namespaces == old(namespaces) && tables == old(tables);
      var _ := EmitInstr(EmitQuery(count.value));
      r := Done(());
    }

    // ---------- INSERT ----------

    /** The loop over the values of row i, which start at edge `start`. */
    method CompileValues(g: StmtGraph, edges: seq<nat>, ghost es: seq<Expr>, start: nat, values: seq<Expr>,
                         columns: seq<string>, t: nat) returns (r: Outcome<()>)
      requires |values| == |columns| && start + |values| <= |edges| && CurrentScopeIs(InTable(t))
      requires Pending(g, edges, es, Before(start)) && |es| == |edges|
      requires es[start..start + |values|] == values
      modifies this`code, g`nodes, g`open
      ensures match LowerValues(values, |values|, columns, t, db, State(old(code), old(MemoOf(g))))
              case Done(s) => r.Done? && State(code, MemoOf(g)) == s && Pending(g, edges, es, Before(start + |values|))
              case Failed => r == Failed
              case Trapped => r == Trapped
    {
      hide GraphOk, Memo, AllReady, LowerSingle, LowerValues;
      ghost var s := State(code, MemoOf(g));
      NoValues(values, columns, t, db, s);
      for j := 0 to |values|
        invariant Pending(g, edges, es, Before(start + j))
        invariant LowerValues(values, j, columns, t, db, s) == Done(State(code, MemoOf(g)))
      {
        assert es[start + j] == es[start..start + |values|][j];
        ValueSpec(values, j, columns, t, db, s);
        var id := CompileEdge(g, edges, start + j, es, Before(start + j));
        if !id.Done? {
          ValuesStop(values, j + 1, |values|, columns, t, db, s);
          return if id.Failed? then Failed else Trapped;
        }
        assert Before(start + j) + {start + j} == Before(start + j + 1);
        var _ := EmitInstr(InsertColumn(columns[j], id.value));
      }
      r := Done(());
    }

    ghost predicate CurrentScopeIs(s: Scope)
      reads this
    {
      StacksOk() && CurrentScope() == s
    }

    /** The loop over the rows; the edges are the table and then all values, row after row. */
    method CompileRows(g: StmtGraph, edges: seq<nat>, ghost es: seq<Expr>, rows: seq<seq<Expr>>, columns: seq<string>, t: nat)
        returns (r: Outcome<()>)
      requires Pending(g, edges, es, Before(1)) && |es| == |edges| && es != [] && es[1..] == Flat(rows, |rows|)
      requires CurrentScopeIs(InTable(t))
      modifies this`code, g`nodes, g`open
      ensures match LowerRows(rows, |rows|, columns, t, db, State(old(code), old(MemoOf(g))))
              case Done(s) => r.Done? && code == s.code
              case Failed => r == Failed
              case Trapped => r == Trapped
    {
      hide GraphOk, Memo, AllReady, LowerValues, LowerRows, Flat;
      ghost var s := State(code, MemoOf(g));
      NoRows(rows, columns, t, db, s);
      var start := 1;
      for i := 0 to |rows|
        invariant start == 1 + |Flat(rows, i)| <= |edges|
        invariant Pending(g, edges, es, Before(start))
        invariant LowerRows(rows, i, columns, t, db, s) == Done(State(code, MemoOf(g)))
      {
        RowSpec(rows, i, columns, t, db, s);
        if |rows[i]| != |columns| {
          RowsStop(rows, i + 1, |rows|, columns, t, db, s);
          return Failed;
        }
        RowEdges(rows, i, es);
        var row := CompileValues(g, edges, es, start, rows[i], columns, t);
        if !row.Done? {
          RowsStop(rows, i + 1, |rows|, columns, t, db, s);
          return if row.Failed? then Failed else Trapped;
        }
        var _ := EmitInstr(InsertRow);
        start := start + |rows[i]|;
      }
      r := Done(());
    }

    method CompileInsert(g: StmtGraph, edges: seq<nat>, name: string, columns: seq<string>, rows: seq<seq<Expr>>)
        returns (r: Outcome<()>)
      requires Pending(g, edges, [Ident(name)] + Flat(rows, |rows|), {}) && MemoOf(g) == map[] && CurrentScope() == Global
      modifies this, g`nodes, g`open
      ensures AgreesCode(r, code, LowerInsert(name, columns, rows, db, old(code)))
      ensures r.Done? ==> StacksOk() && CurrentScope() == Global
    {
      hide GraphOk, Memo, AllReady, LowerRows, LowerTable;
      ghost var es := [Ident(name)] + Flat(rows, |rows|);
      EdgeCount(g.nodes, g.firsts, edges, es, {});
      var t := CompileTable(g, edges, 0, es);
      if !t.Done? {
        return if t.Failed? then Failed else Trapped;
      }
      var schema := TableSchema(code, t.value).value;
      if |columns| != |schema.names| {
        return Failed;
      }
      for i := 0 to |columns|
        invariant forall j :: 0 <= j < i ==> columns[j] in schema.names
      {
        if columns[i] !in schema.names {
          return Failed;
        }
      }
      PushTable(t.value);
      assert {0} == Before(1);
      var done := CompileRows(g, edges, es, rows, columns, t.value);
      if !done.Done? {
        return if done.Failed? then Failed else Trapped;
      }
      PopNamespace();
      assert namespaces == old(namespaces) && tables == old(tables);
      var _ := EmitInstr(CommitInsert(t.value));
      r := Done(());
    }

    // ---------- UPDATE and DELETE ----------

    method CompileSets(g: StmtGraph, edges: seq<nat>, ghost es: seq<Expr>, sets: seq<SetClause>, schema: Schema, t: nat)
        returns (r: Outcome<()>)
      requires Pending(g, edges, es, Before(1)) && |es| == |edges| == 1 + |sets|
      requires forall i :: 0 <= i < |sets| ==> es[i + 1] == sets[i].value
      requires CurrentScopeIs(InTable(t))
      modifies this`code, g`nodes, g`open
      ensures match LowerSets(sets, |sets|, schema, t, db, State(old(code), old(MemoOf(g))))
              case Done(s) => r.Done? && code == s.code
              case Failed => r == Failed
              case Trapped => r == Trapped
    {
      hide GraphOk, Memo, AllReady, LowerSingle, LowerSets;
      ghost var s := State(code, MemoOf(g));
      NoSets(sets, schema, t, db, s);
      for i := 0 to |sets|
        invariant Pending(g, edges, es, Before(i + 1))
        invariant LowerSets(sets, i, schema, t, db, s) == Done(State(code, MemoOf(g)))
      {
        SetSpec(sets, i, schema, t, db, s);
        if sets[i].name !in schema.names {
          SetsStop(sets, i + 1, |sets|, schema, t, db, s);
          return Failed;
        }
        var id := CompileEdge(g, edges, i + 1, es, Before(i + 1));
        if !id.Done? {
          SetsStop(sets, i + 1, |sets|, schema, t, db, s);
          return if id.Failed? then Failed else Trapped;
        }
        assert Before(i + 1) + {i + 1} == Before(i + 2);
        var _ := EmitInstr(UpdateColumn(t, id.value, sets[i].name));
      }
      r := Done(());
    }

    method CompileUpdate(g: StmtGraph, edges: seq<nat>, ghost table: Expr, sets: seq<SetClause>) returns (r: Outcome<()>)
      requires Pending(g, edges, [table] + Values(sets), {}) && MemoOf(g) == map[] && CurrentScope() == Global
      modifies this, g`nodes, g`open
      ensures AgreesCode(r, code, LowerUpdate(table, sets, db, old(code)))
      ensures r.Done? ==> StacksOk() && CurrentScope() == Global
    {
      hide GraphOk, Memo, AllReady, LowerSets, LowerTable;
      ghost var es := [table] + Values(sets);
      EdgeCount(g.nodes, g.firsts, edges, es, {});
      var t := CompileTable(g, edges, 0, es);
      if !t.Done? {
        return if t.Failed? then Failed else Trapped;
      }
      PushTable(t.value);
      assert {0} == Before(1);
      var done := CompileSets(g, edges, es, sets, TableSchema(code, t.value).value, t.value);
      if !done.Done? {
        return if done.Failed? then Failed else Trapped;
      }
      PopNamespace();
      assert namespaces == old(namespaces) && tables == old(tables);
      var _ := EmitInstr(CommitUpdate);
      r := Done(());
    }

    method CompileDelete(g: StmtGraph, edges: seq<nat>, ghost table: Expr) returns (r: Outcome<()>)
      requires Pending(g, edges, [table], {}) && MemoOf(g) == map[] && CurrentScope() == Global
      modifies this, g`nodes, g`open
      ensures AgreesCode(r, code, LowerDelete(table, db, old(code)))
      ensures r.Done? ==> StacksOk() && CurrentScope() == Global
    {
      hide GraphOk, Memo, AllReady, LowerTable;
      EdgeCount(g.nodes, g.firsts, edges, [table], {});
      var t := CompileTable(g, edges, 0, [table]);
      if !t.Done? {
        return if t.Failed? then Failed else Trapped;
      }
      PushTable(t.value);
      PopNamespace();
      assert namespaces == old(namespaces) && tables == old(tables);
      var _ := EmitInstr(DeleteTable(t.value));
      r := Done(());
    }

    // ---------- Queries ----------

    /** build_*_stmt_graph and compile_graph for one statement. */
    method CompileStmt(s: Stmt) returns (r: Outcome<()>)
      requires StacksOk() && CurrentScope() == Global && Modelled(s)
      modifies this
      ensures AgreesCode(r, code, LowerStmt(s, db, old(code)))
      ensures r.Done? ==> StacksOk() && CurrentScope() == Global
    {
      hide GraphOk, Memo, AllReady, Edges, Grown, NodeOk;
      hide LowerSelect, LowerInsert, LowerUpdate, LowerDelete;
      var g := new StmtGraph();
      ghost var none := g.nodes;
      assert g.firsts == [] by { GraphLengths(g.nodes, g.firsts, g.indices); }
      match s
      case ExprStmt(e) =>
        var root := g.ExprToNode(e);
        NodeIsOk(g.nodes, g.firsts, g.indices, root);
        var edges := g.nodes[root].edges;
        NewGraph(g.nodes, g.firsts, g.indices, edges, e.exprs + [e.table]);
        r := CompileSelect(g, edges, e.exprs, e.table);
      case InsertStmt(name, columns, rows) =>
        var es := [Ident(name)] + Flat(rows, |rows|);
        var edges := g.ExprsToNodes(es, Select(es, Star));
        NewGraph(g.nodes, g.firsts, g.indices, edges, es);
        r := CompileInsert(g, edges, name, columns, rows);
      case UpdateStmt(table, sets, filter) =>
        if filter.Some? {
          return Trapped;
        }
        var es := [table] + Values(sets);
        var edges := g.ExprsToNodes(es, Select(es, Star));
        NewGraph(g.nodes, g.firsts, g.indices, edges, es);
        r := CompileUpdate(g, edges, table, sets);
      case DeleteStmt(table, filter) =>
        if filter.Some? {
          return Trapped;
        }
        var edges := g.ExprsToNodes([table], Select([table], Star));
        NewGraph(g.nodes, g.firsts, g.indices, edges, [table]);
        r := CompileDelete(g, edges, table);
    }

    /** `ir_compile_query` */
    method CompileQuery(stmts: seq<Stmt>) returns (r: Outcome<()>)
      requires StacksOk() && CurrentScope() == Global && forall i :: 0 <= i < |stmts| ==> Modelled(stmts[i])
      modifies this
      ensures AgreesCode(r, code, LowerQuery(stmts, |stmts|, db))
      ensures CompileConditions.Agrees(r, CompileConditions.QueryFaults(stmts, |stmts|, db))
    {
      hide LowerStmt, CompileConditions.QueryFaults, CompileConditions.First;
      CompileConditions.QueryOutcome(stmts, |stmts|, db);
      code := [];
      for i := 0 to |stmts|
        invariant StacksOk() && CurrentScope() == Global
        invariant LowerQuery(stmts, i, db) == Done(code)
      {
        r := CompileStmt(stmts[i]);
        if !r.Done? {
          QueryStops(stmts, i + 1, |stmts|, db);
          return;
        }
      }
      r := Done(());
    }
  }

  lemma GraphLengths(nodes: seq<Node>, firsts: seq<nat>, indices: map<Expr, nat>)
    requires GraphOk(nodes, firsts, indices)
    ensures |firsts| == |nodes|
  {
  }

  lemma {:induction false} QueryStops(stmts: seq<Stmt>, i: nat, n: nat, db: Db)
    requires i <= n <= |stmts| && forall j :: 0 <= j < |stmts| ==> Modelled(stmts[j])
    requires !LowerQuery(stmts, i, db).Done?
    ensures LowerQuery(stmts, n, db) == LowerQuery(stmts, i, db)
  {
    hide LowerStmt;
    if i < n {
      QueryStops(stmts, i, n - 1, db);
    }
  }

  /** The numbers below n. */
  ghost function Before(n: nat): (r: set<nat>)
    ensures forall i <- r :: i < n
  {
    if n == 0 then {} else Before(n - 1) + {n - 1}
  }

  /** The values of the first n rows, one after the other. */
  function Flat(rows: seq<seq<Expr>>, n: nat): seq<Expr>
    requires n <= |rows|
  {
    if n == 0 then [] else Flat(rows, n - 1) + rows[n - 1]
  }

  lemma {:induction false} RowInFlat(rows: seq<seq<Expr>>, i: nat)
    requires i < |rows|
    ensures |Flat(rows, i)| + |rows[i]| <= |Flat(rows, |rows|)|
    ensures Flat(rows, |rows|)[|Flat(rows, i)|..|Flat(rows, i)| + |rows[i]|] == rows[i]
  {
    FlatGrows(rows, i + 1, |rows|);
    var all, upTo := Flat(rows, |rows|), Flat(rows, i + 1);
    assert all[|Flat(rows, i)|..|upTo|] == upTo[|Flat(rows, i)|..];
  }

  lemma {:induction false} FlatGrows(rows: seq<seq<Expr>>, i: nat, n: nat)
    requires i <= n <= |rows|
    ensures Flat(rows, i) <= Flat(rows, n)
  {
    if i < n {
      FlatGrows(rows, i, n - 1);
    }
  }

  function Values(sets: seq<SetClause>): seq<Expr> {
    seq(|sets|, i requires 0 <= i < |sets| => sets[i].value)
  }

  lemma {:induction false} ValuesStop(values: seq<Expr>, i: nat, n: nat, columns: seq<string>, t: nat, db: Db, s: State)
    requires i <= n <= |values| == |columns| && !LowerValues(values, i, columns, t, db, s).Done?
    ensures LowerValues(values, n, columns, t, db, s) == LowerValues(values, i, columns, t, db, s)
  {
    if i < n {
      ValuesStop(values, i, n - 1, columns, t, db, s);
    }
  }

  lemma {:induction false} RowsStop(rows: seq<seq<Expr>>, i: nat, n: nat, columns: seq<string>, t: nat, db: Db, s: State)
    requires i <= n <= |rows| && !LowerRows(rows, i, columns, t, db, s).Done?
    ensures LowerRows(rows, n, columns, t, db, s) == LowerRows(rows, i, columns, t, db, s)
  {
    if i < n {
      RowsStop(rows, i, n - 1, columns, t, db, s);
    }
  }

  lemma {:induction false} SetsStop(sets: seq<SetClause>, i: nat, n: nat, schema: Schema, t: nat, db: Db, s: State)
    requires i <= n <= |sets| && !LowerSets(sets, i, schema, t, db, s).Done?
    ensures LowerSets(sets, n, schema, t, db, s) == LowerSets(sets, i, schema, t, db, s)
  {
    if i < n {
      SetsStop(sets, i, n - 1, schema, t, db, s);
    }
  }

  // ---------- One turn of each loop ----------

  lemma NoItems(exprs: seq<Expr>, t: nat, db: Db, s: State)
    ensures LowerItems(exprs, 0, t, db, s) == Done((s, 0))
  {
  }

  lemma ItemSpec(exprs: seq<Expr>, i: nat, t: nat, db: Db, s: State)
    requires i < |exprs| && LowerItems(exprs, i, t, db, s).Done?
    ensures var (s', count) := LowerItems(exprs, i, t, db, s).value;
            LowerItems(exprs, i + 1, t, db, s) ==
            match LowerNode(exprs[i], InTable(t), db, s')
            case Failed => Failed
            case Trapped => Trapped
            case Done(r) =>
              Done((r.state.(code := r.state.code + EmitAll(t, r.ids, NameOf(exprs[i]))), count + |r.ids|))
  {
  }

  lemma NoValues(values: seq<Expr>, columns: seq<string>, t: nat, db: Db, s: State)
    requires |values| == |columns|
    ensures LowerValues(values, 0, columns, t, db, s) == Done(s)
  {
  }

  lemma ValueSpec(values: seq<Expr>, i: nat, columns: seq<string>, t: nat, db: Db, s: State)
    requires i < |values| == |columns| && LowerValues(values, i, columns, t, db, s).Done?
    ensures LowerValues(values, i + 1, columns, t, db, s) ==
            match LowerSingle(values[i], InTable(t), db, LowerValues(values, i, columns, t, db, s).value)
            case Failed => Failed
            case Trapped => Trapped
            case Done(r) => Done(r.state.(code := r.state.code + [InsertColumn(columns[i], r.id)]))
  {
  }

  lemma NoRows(rows: seq<seq<Expr>>, columns: seq<string>, t: nat, db: Db, s: State)
    ensures LowerRows(rows, 0, columns, t, db, s) == Done(s) && Flat(rows, 0) == []
  {
  }

  lemma RowSpec(rows: seq<seq<Expr>>, i: nat, columns: seq<string>, t: nat, db: Db, s: State)
    requires i < |rows| && LowerRows(rows, i, columns, t, db, s).Done?
    ensures LowerRows(rows, i + 1, columns, t, db, s) ==
            if |rows[i]| != |columns| then Failed
            else match LowerValues(rows[i], |columns|, columns, t, db, LowerRows(rows, i, columns, t, db, s).value)
              case Failed => Failed
              case Trapped => Trapped
              case Done(s') => Done(s'.(code := s'.code + [InsertRow]))
  {
  }

  lemma RowEdges(rows: seq<seq<Expr>>, i: nat, es: seq<Expr>)
    requires i < |rows| && es != [] && es[1..] == Flat(rows, |rows|)
    ensures var start := 1 + |Flat(rows, i)|;
            && start + |rows[i]| <= |es| && es[start..start + |rows[i]|] == rows[i]
            && |Flat(rows, i + 1)| == |Flat(rows, i)| + |rows[i]|
  {
    var start := 1 + |Flat(rows, i)|;
    RowInFlat(rows, i);
    DropSlice(es, start, start + |rows[i]|);
  }

  lemma DropSlice(es: seq<Expr>, a: nat, b: nat)
    requires 1 <= a <= b <= |es|
    ensures es[1..][a - 1..b - 1] == es[a..b]
  {
    var l, r := es[1..][a - 1..b - 1], es[a..b];
    assert forall j :: 0 <= j < b - a ==> l[j] == r[j];
  }

  lemma NoSets(sets: seq<SetClause>, schema: Schema, t: nat, db: Db, s: State)
    ensures LowerSets(sets, 0, schema, t, db, s) == Done(s)
  {
  }

  lemma SetSpec(sets: seq<SetClause>, i: nat, schema: Schema, t: nat, db: Db, s: State)
    requires i < |sets| && LowerSets(sets, i, schema, t, db, s).Done?
    ensures LowerSets(sets, i + 1, schema, t, db, s) ==
            if sets[i].name !in schema.names then Failed
            else match LowerSingle(sets[i].value, InTable(t), db, LowerSets(sets, i, schema, t, db, s).value)
              case Failed => Failed
              case Trapped => Trapped
              case Done(r) => Done(r.state.(code := r.state.code + [UpdateColumn(t, r.id, sets[i].name)]))
  {
  }

  lemma EdgeFacts(nodes: seq<Node>, firsts: seq<nat>, edges: seq<nat>, es: seq<Expr>, done: set<nat>, i: nat)
    requires AllReady(nodes, firsts, edges, es, done) && i < |edges| && i !in done
    ensures |es| == |edges| && |firsts| == |nodes| && edges[i] < |nodes| && nodes[edges[i]].expr == es[i]
    ensures Ready(nodes, firsts, edges[i])
  {
    var e := edges[i];
  }

  lemma EdgeCount(nodes: seq<Node>, firsts: seq<nat>, edges: seq<nat>, es: seq<Expr>, done: set<nat>)
    requires AllReady(nodes, firsts, edges, es, done)
    ensures |es| == |edges|
  {
  }

  lemma {:induction false} ItemsStop(exprs: seq<Expr>, i: nat, n: nat, t: nat, db: Db, s: State)
    requires i <= n <= |exprs| && !LowerItems(exprs, i, t, db, s).Done?
    ensures LowerItems(exprs, n, t, db, s) == LowerItems(exprs, i, t, db, s)
  {
    if i < n {
      ItemsStop(exprs, i, n - 1, t, db, s);
    }
  }
}
