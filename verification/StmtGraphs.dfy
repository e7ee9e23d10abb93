/**
 The compiler as it runs: expressions become nodes of a graph in which equal expressions share a node, and compiling a
 node marks it visited. Models `src/SQL/ir.cpp` (expr_to_node, the build_*_stmt_graph functions, compile_expr,
 compile_ident, compile_graph_node, ir_compile_query) and the namespace stacks of `src/SQL/ir.hpp`. Every method is
 proved to emit the code that module Lowering defines.
 */
module StmtGraphs {
  import opened Ast

  // ---------- Graphs ----------

  datatype Node = Node(expr: Expr, edges: seq<nat>, visited: bool, irId: nat)

  /** What the edges of a node lead to, in the order in which the nodes are made. */
  function Children(e: Expr): (es: seq<Expr>)
    ensures forall i :: 0 <= i < |es| ==> es[i] < e
  {
    match e
    case Binary(_, lhs, rhs) => [lhs, rhs]
    case Select(exprs, table) => exprs + [table]
    case _ => []
  }

  /** Nodes of the given expressions; the parts that are not shared lie in separate stretches of the node list. */
  ghost predicate Edges(nodes: seq<Node>, firsts: seq<nat>, edges: seq<nat>, es: seq<Expr>)
    requires |firsts| == |nodes|
  {
    && |edges| == |es|
    && (forall i {:trigger edges[i]} :: 0 <= i < |edges| ==> edges[i] < |nodes| && nodes[edges[i]].expr == es[i])
    && (forall i, j {:trigger edges[i], edges[j]} :: 0 <= i < j < |edges| && !Shareable(es[i]) && !Shareable(es[j]) ==>
         edges[i] < firsts[edges[j]])
  }

  /** Node k leads to smaller nodes only, and owns the nodes from firsts[k] on that are not shared. */
  ghost predicate NodeOk(nodes: seq<Node>, firsts: seq<nat>, k: nat)
    requires |firsts| == |nodes| && k < |nodes|
  {
    var n := nodes[k];
    && firsts[k] <= k
    && Edges(nodes, firsts, n.edges, Children(n.expr))
    && forall i {:trigger n.edges[i]} :: 0 <= i < |n.edges| ==>
         n.edges[i] < k && (!Shareable(nodes[n.edges[i]].expr) ==> firsts[k] <= firsts[n.edges[i]])
  }

  ghost predicate GraphOk(nodes: seq<Node>, firsts: seq<nat>, indices: map<Expr, nat>) {
    && |firsts| == |nodes|
    && (forall k {:trigger nodes[k]} :: 0 <= k < |nodes| ==> NodeOk(nodes, firsts, k))
    && (forall e <- indices :: Shareable(e) && indices[e] < |nodes| && nodes[indices[e]].expr == e)
    && (forall k {:trigger nodes[k]} :: 0 <= k < |nodes| && Shareable(nodes[k].expr) ==>
          nodes[k].expr in indices && indices[nodes[k].expr] == k)
  }

  /** The graph grew by nodes that are not visited. */
  ghost predicate Grown(nodes: seq<Node>, firsts: seq<nat>, nodes': seq<Node>, firsts': seq<nat>) {
    && |firsts| == |nodes| && |firsts'| == |nodes'| && nodes <= nodes' && firsts <= firsts'
    && forall k :: |nodes| <= k < |nodes'| ==> !nodes'[k].visited
  }

  /** The stretches of the unshared nodes among the edges begin at `first` or later. */
  ghost predicate From(first: nat, firsts: seq<nat>, edges: seq<nat>, es: seq<Expr>) {
    && |edges| == |es|
    && forall i {:trigger edges[i]} :: 0 <= i < |edges| && !Shareable(es[i]) ==>
         edges[i] < |firsts| && first <= firsts[edges[i]]
  }

  lemma GrownTwice(n0: seq<Node>, f0: seq<nat>, n1: seq<Node>, f1: seq<nat>, n2: seq<Node>, f2: seq<nat>)
    requires Grown(n0, f0, n1, f1) && Grown(n1, f1, n2, f2)
    ensures Grown(n0, f0, n2, f2)
  {
  }

  lemma GrownNot(nodes: seq<Node>, firsts: seq<nat>)
    requires |firsts| == |nodes|
    ensures Grown(nodes, firsts, nodes, firsts)
    ensures Edges(nodes, firsts, [], []) && From(|nodes|, firsts, [], [])
  {
  }

  lemma GrownLength(nodes: seq<Node>, firsts: seq<nat>, nodes': seq<Node>, firsts': seq<nat>)
    requires Grown(nodes, firsts, nodes', firsts')
    ensures |nodes| <= |nodes'|
  {
  }

  /** The nodes from `start` on are parts of e. */
  ghost predicate PartsOf(nodes: seq<Node>, start: nat, e: Expr) {
    forall k :: start <= k < |nodes| ==> nodes[k].expr < e
  }

  lemma EdgesKept(nodes: seq<Node>, firsts: seq<nat>, edges: seq<nat>, es: seq<Expr>, nodes': seq<Node>, firsts': seq<nat>)
    requires Grown(nodes, firsts, nodes', firsts') && Edges(nodes, firsts, edges, es)
    ensures Edges(nodes', firsts', edges, es)
  {
  }

  lemma NodeKept(nodes: seq<Node>, firsts: seq<nat>, k: nat, nodes': seq<Node>, firsts': seq<nat>)
    requires Grown(nodes, firsts, nodes', firsts') && k < |nodes| && NodeOk(nodes, firsts, k)
    ensures NodeOk(nodes', firsts', k)
  {
    EdgesKept(nodes, firsts, nodes[k].edges, Children(nodes[k].expr), nodes', firsts');
  }

  /** One more edge, to a node made last. */
  lemma EdgeAdded(nodes: seq<Node>, firsts: seq<nat>, edges: seq<nat>, es: seq<Expr>, first: nat,
                  nodes': seq<Node>, firsts': seq<nat>, id: nat, e: Expr)
    requires Grown(nodes, firsts, nodes', firsts') && Edges(nodes, firsts, edges, es) && From(first, firsts, edges, es)
    requires id < |nodes'| && nodes'[id].expr == e && first <= |nodes|
    requires !Shareable(e) ==> |nodes| <= firsts'[id]
    ensures Edges(nodes', firsts', edges + [id], es + [e]) && From(first, firsts', edges + [id], es + [e])
  {
    EdgesKept(nodes, firsts, edges, es, nodes', firsts');
  }

  lemma LastNodeOk(nodes: seq<Node>, firsts: seq<nat>, n: Node, first: nat)
    requires |firsts| == |nodes| && Edges(nodes, firsts, n.edges, Children(n.expr)) && first <= |nodes|
    requires From(first, firsts, n.edges, Children(n.expr)) && !n.visited
    ensures NodeOk(nodes + [n], firsts + [first], |nodes|)
  {
    var nodes', firsts' := nodes + [n], firsts + [first];
    EdgesKept(nodes, firsts, n.edges, Children(n.expr), nodes', firsts');
    assert nodes'[|nodes|] == n && firsts'[|nodes|] == first;
    assert forall i {:trigger n.edges[i]} :: 0 <= i < |n.edges| ==>
             nodes'[n.edges[i]] == nodes[n.edges[i]] && firsts'[n.edges[i]] == firsts[n.edges[i]];
  }

  lemma NodeAdded(nodes: seq<Node>, firsts: seq<nat>, indices: map<Expr, nat>, n: Node, first: nat)
    requires GraphOk(nodes, firsts, indices) && Edges(nodes, firsts, n.edges, Children(n.expr)) && first <= |nodes|
    requires From(first, firsts, n.edges, Children(n.expr)) && !n.visited
    requires Shareable(n.expr) ==> n.expr !in indices
    ensures Grown(nodes, firsts, nodes + [n], firsts + [first])
    ensures GraphOk(nodes + [n], firsts + [first], if Shareable(n.expr) then indices[n.expr := |nodes|] else indices)
  {
    var nodes', firsts' := nodes + [n], firsts + [first];
    EdgesKept(nodes, firsts, n.edges, Children(n.expr), nodes', firsts');
    forall k: nat | k < |nodes'|
      ensures NodeOk(nodes', firsts', k)
    {
      if k < |nodes| {
        assert nodes'[k] == nodes[k];
        NodeKept(nodes, firsts, k, nodes', firsts');
      } else {
        LastNodeOk(nodes, firsts, n, first);
      }
    }
    var indices' := if Shareable(n.expr) then indices[n.expr := |nodes|] else indices;
    forall k {:trigger nodes'[k]} | 0 <= k < |nodes'| && Shareable(nodes'[k].expr)
      ensures nodes'[k].expr in indices' && indices'[nodes'[k].expr] == k
    {
      if k < |nodes| {
        assert nodes'[k] == nodes[k];
      }
    }
    forall e | e in indices'
      ensures Shareable(e) && indices'[e] < |nodes'| && nodes'[indices'[e]].expr == e
    {
      if e in indices {
        assert nodes'[indices[e]] == nodes[indices[e]];
      }
    }
  }

  /** While the parts of e are added, e itself is not. */
  lemma NotYet(nodes: seq<Node>, firsts: seq<nat>, indices: map<Expr, nat>,
               nodes': seq<Node>, firsts': seq<nat>, indices': map<Expr, nat>, e: Expr)
    requires GraphOk(nodes, firsts, indices) && GraphOk(nodes', firsts', indices')
    requires Grown(nodes, firsts, nodes', firsts') && PartsOf(nodes', |nodes|, e) && Shareable(e) && e !in indices
    ensures e !in indices'
  {
  }

  lemma PartsAdded(nodes: seq<Node>, firsts: seq<nat>, nodes': seq<Node>, firsts': seq<nat>, start: nat, parent: Expr,
                   e: Expr)
    requires Grown(nodes, firsts, nodes', firsts') && PartsOf(nodes, start, parent) && e < parent
    requires forall k :: |nodes| <= k < |nodes'| ==> nodes'[k].expr == e || nodes'[k].expr < e
    ensures PartsOf(nodes', start, parent)
  {
    forall k | start <= k < |nodes'|
      ensures nodes'[k].expr < parent
    {
      assert k < |nodes| ==> nodes'[k] == nodes[k];
    }
  }

  lemma ShareableChildren(e: Expr)
    ensures Shareable(e) ==> forall i :: 0 <= i < |Children(e)| ==> Shareable(Children(e)[i])
  {
  }

  class StmtGraph {
    var nodes: seq<Node>
    var indices: map<Expr, nat>
    ghost var firsts: seq<nat>

    /** Nodes whose compilation has begun and is not finished. */
    ghost var open: set<nat>

    ghost predicate Valid()
      reads this
    {
      GraphOk(nodes, firsts, indices)
    }

    constructor ()
      ensures Valid() && nodes == [] && open == {}
    {
      nodes, indices, firsts, open := [], map[], [], {};
    }

    /** `expr_to_node` */
    method ExprToNode(e: Expr) returns (id: nat)
      requires Valid()
      modifies this`nodes, this`indices, this`firsts
      ensures Valid() && Grown(old(nodes), old(firsts), nodes, firsts)
      ensures id < |nodes| && nodes[id].expr == e
      ensures !Shareable(e) ==> firsts[id] >= |old(nodes)|
      ensures forall k :: |old(nodes)| <= k < |nodes| ==> nodes[k].expr == e || nodes[k].expr < e
      decreases e, 0
    {
      hide Edges, From, Grown, NodeOk;
      if Shareable(e) && e in indices {
        GrownNot(nodes, firsts);
        return indices[e];
      }
      var edges := ExprsToNodes(Children(e), e);
      GrownLength(old(nodes), old(firsts), nodes, firsts);
      if Shareable(e) {
        NotYet(old(nodes), old(firsts), old(indices), nodes, firsts, indices, e);
      }
      ghost var nodes0, firsts0 := nodes, firsts;
      id := AddNode(e, edges, |old(nodes)|);
      GrownTwice(old(nodes), old(firsts), nodes0, firsts0, nodes, firsts);
    }

    /** The nodes of the parts of an expression or of a statement, one after the other. */
    method ExprsToNodes(es: seq<Expr>, ghost parent: Expr) returns (edges: seq<nat>)
      requires Valid() && forall i :: 0 <= i < |es| ==> es[i] < parent
      modifies this`nodes, this`indices, this`firsts
      ensures Valid() && Grown(old(nodes), old(firsts), nodes, firsts)
      ensures Edges(nodes, firsts, edges, es) && From(|old(nodes)|, firsts, edges, es)
      ensures PartsOf(nodes, |old(nodes)|, parent)
      decreases parent, 0, |es|
    {
      hide Edges, From, Grown, NodeOk;
      edges := [];
      GrownNot(nodes, firsts);
      for i := 0 to |es|
        invariant Valid() && Grown(old(nodes), old(firsts), nodes, firsts)
        invariant PartsOf(nodes, |old(nodes)|, parent)
        invariant Edges(nodes, firsts, edges, es[..i]) && From(|old(nodes)|, firsts, edges, es[..i])
      {
        ghost var nodes0, firsts0 := nodes, firsts;
        var id := ExprToNode(es[i]);
        GrownTwice(old(nodes), old(firsts), nodes0, firsts0, nodes, firsts);
        GrownLength(old(nodes), old(firsts), nodes0, firsts0);
        PartsAdded(nodes0, firsts0, nodes, firsts, |old(nodes)|, parent, es[i]);
        EdgeAdded(nodes0, firsts0, edges, es[..i], |old(nodes)|, nodes, firsts, id, es[i]);
        edges := edges + [id];
        assert es[..i + 1] == es[..i] + [es[i]];
      }
      assert es[..|es|] == es;
    }

    method AddNode(e: Expr, edges: seq<nat>, ghost first: nat) returns (id: nat)
      requires Valid() && Edges(nodes, firsts, edges, Children(e)) && first <= |nodes|
      requires From(first, firsts, edges, Children(e))
      requires Shareable(e) ==> e !in indices
      modifies this`nodes, this`indices, this`firsts
      ensures Valid() && id == |old(nodes)| && nodes == old(nodes) + [Node(e, edges, false, 0)]
      ensures firsts == old(firsts) + [first] && Grown(old(nodes), old(firsts), nodes, firsts)
    {
      hide Edges, From, NodeOk, GraphOk;
      NodeAdded(nodes, firsts, indices, Node(e, edges, false, 0), first);
      id := |nodes|;
      nodes := nodes + [Node(e, edges, false, 0)];
      firsts := firsts + [first];
      if Shareable(e) {
        indices := indices[e := id];
      }
    }
  }

  // ---------- Marks ----------

  /** Only marks differ. */
  ghost predicate SameShape(nodes: seq<Node>, nodes': seq<Node>) {
    && |nodes'| == |nodes|
    && forall k {:trigger nodes'[k]} :: 0 <= k < |nodes| ==>
         nodes'[k].expr == nodes[k].expr && nodes'[k].edges == nodes[k].edges
  }

  /** The ids that visited nodes give; nodes that are being compiled give none yet. */
  ghost function Memo(nodes: seq<Node>, indices: map<Expr, nat>, open: set<nat>): map<Expr, nat> {
    map e | e in indices && indices[e] < |nodes| && nodes[indices[e]].visited && indices[e] !in open ::
      nodes[indices[e]].irId
  }

  /** The unshared nodes from first to k are not visited. */
  ghost predicate Untouched(nodes: seq<Node>, first: nat, k: nat)
    requires k < |nodes|
  {
    forall j :: first <= j <= k && !Shareable(nodes[j].expr) ==> !nodes[j].visited
  }

  ghost predicate Ready(nodes: seq<Node>, firsts: seq<nat>, k: nat)
    requires |firsts| == |nodes|
  {
    k < |nodes| && (!Shareable(nodes[k].expr) ==> Untouched(nodes, firsts[k], k))
  }

  /** Of the unshared nodes, only those that node k owns were marked. */
  ghost predicate OnlyOwn(nodes: seq<Node>, nodes': seq<Node>, firsts: seq<nat>, k: nat)
    requires |firsts| == |nodes| && k < |nodes|
  {
    && SameShape(nodes, nodes')
    && forall j {:trigger nodes'[j]} ::
         0 <= j < |nodes| && !Shareable(nodes[j].expr) && (Shareable(nodes[k].expr) || j < firsts[k] || k < j)
         ==> nodes'[j].visited == nodes[j].visited
  }

  /** What compiling node k leaves behind: marks on nodes of its own, and on shared nodes below it. */
  ghost predicate MarkedBy(nodes: seq<Node>, nodes': seq<Node>, firsts: seq<nat>, k: nat) {
    && |firsts| == |nodes| == |nodes'| && k < |nodes|
    && OnlyOwn(nodes, nodes', firsts, k)
    && forall j :: k < j < |nodes| ==> nodes'[j] == nodes[j]
  }

  lemma ShapeKeepsGraph(nodes: seq<Node>, firsts: seq<nat>, indices: map<Expr, nat>, nodes': seq<Node>)
    requires GraphOk(nodes, firsts, indices) && SameShape(nodes, nodes')
    ensures GraphOk(nodes', firsts, indices)
  {
    forall k: nat | k < |nodes'|
      ensures NodeOk(nodes', firsts, k)
    {
      assert nodes[k].expr == nodes'[k].expr;
      ShapeKeepsNode(nodes, firsts, k, nodes');
    }
    forall k {:trigger nodes'[k]} | 0 <= k < |nodes'| && Shareable(nodes'[k].expr)
      ensures nodes'[k].expr in indices && indices[nodes'[k].expr] == k
    {
      assert nodes'[k].expr == nodes[k].expr;
    }
    forall e | e in indices
      ensures Shareable(e) && indices[e] < |nodes'| && nodes'[indices[e]].expr == e
    {
      assert nodes'[indices[e]].expr == nodes[indices[e]].expr;
    }
  }

  lemma ShapeKeepsNode(nodes: seq<Node>, firsts: seq<nat>, k: nat, nodes': seq<Node>)
    requires |firsts| == |nodes| && k < |nodes| && NodeOk(nodes, firsts, k) && SameShape(nodes, nodes')
    ensures NodeOk(nodes', firsts, k)
  {
    assert nodes'[k].expr == nodes[k].expr;
    var edges := nodes[k].edges;
    assert forall i {:trigger edges[i]} :: 0 <= i < |edges| ==> nodes'[edges[i]].expr == nodes[edges[i]].expr;
  }

  /** A node that is opened is not in the memo, and nothing else changes. */
  lemma MemoOpened(nodes: seq<Node>, firsts: seq<nat>, indices: map<Expr, nat>, open: set<nat>, k: nat)
    requires GraphOk(nodes, firsts, indices) && k < |nodes| && k !in open && !nodes[k].visited
    ensures var nodes' := nodes[k := nodes[k].(visited := true)];
            && Memo(nodes', indices, open + {k}) == Memo(nodes, indices, open)
            && SameShape(nodes, nodes')
  {
  }

  /** A node that is closed gives its id from now on. */
  lemma MemoClosed(nodes: seq<Node>, firsts: seq<nat>, indices: map<Expr, nat>, open: set<nat>, k: nat, id: nat)
    requires GraphOk(nodes, firsts, indices) && k < |nodes| && k in open && nodes[k].visited
    ensures var nodes' := nodes[k := nodes[k].(irId := id)];
            var memo, memo' := Memo(nodes, indices, open), Memo(nodes', indices, open - {k});
            && memo' == (if Shareable(nodes[k].expr) then memo[nodes[k].expr := id] else memo)
            && SameShape(nodes, nodes')
  {
    hide Memo, NodeOk;
    var nodes', e := nodes[k := nodes[k].(irId := id)], nodes[k].expr;
    var memo, memo' := Memo(nodes, indices, open), Memo(nodes', indices, open - {k});
    var want := if Shareable(e) then memo[e := id] else memo;
    forall x
      ensures (x in memo' <==> x in want) && (x in want ==> memo'[x] == want[x])
    {
      MemoAt(nodes, indices, open, x);
      MemoAt(nodes', indices, open - {k}, x);
      if x in indices && indices[x] == k {
        assert x == e;
      }
    }
    assert memo' == want;
  }

  lemma MemoAt(nodes: seq<Node>, indices: map<Expr, nat>, open: set<nat>, e: Expr)
    ensures e in Memo(nodes, indices, open) <==>
            e in indices && indices[e] < |nodes| && nodes[indices[e]].visited && indices[e] !in open
    ensures e in Memo(nodes, indices, open) ==> Memo(nodes, indices, open)[e] == nodes[indices[e]].irId
  {
  }

  lemma EdgeReady(nodes: seq<Node>, firsts: seq<nat>, k: nat, i: nat)
    requires |firsts| == |nodes| && k < |nodes| && NodeOk(nodes, firsts, k) && i < |nodes[k].edges|
    requires Ready(nodes, firsts, k)
    ensures nodes[k].edges[i] < k && Ready(nodes[k := nodes[k].(visited := true)], firsts, nodes[k].edges[i])
  {
    ShareableChildren(nodes[k].expr);
    var c := nodes[k].edges[i];
    if !Shareable(nodes[c].expr) {
      assert firsts[k] <= firsts[c];
    }
  }

  /** What one node marks does not get in the way of another node of the same parent. */
  lemma OthersReady(nodes: seq<Node>, nodes': seq<Node>, firsts: seq<nat>, edges: seq<nat>, es: seq<Expr>, i: nat, j: nat)
    requires |firsts| == |nodes| && Edges(nodes, firsts, edges, es) && i < |edges| && j < |edges| && i != j
    requires OnlyOwn(nodes, nodes', firsts, edges[i]) && Ready(nodes, firsts, edges[j])
    ensures Ready(nodes', firsts, edges[j])
  {
    var c := edges[j];
    assert nodes'[c].expr == nodes[c].expr == es[j];
    if !Shareable(es[j]) {
      forall x | firsts[c] <= x <= c && !Shareable(nodes'[x].expr)
        ensures !nodes'[x].visited
      {
        assert nodes'[x].expr == nodes[x].expr;
      }
    }
  }

  lemma OwnWidens(nodes: seq<Node>, nodes': seq<Node>, nodes'': seq<Node>, firsts: seq<nat>, k: nat, i: nat)
    requires |firsts| == |nodes| && k < |nodes| && NodeOk(nodes, firsts, k) && i < |nodes[k].edges|
    requires OnlyOwn(nodes, nodes', firsts, k) && OnlyOwn(nodes', nodes'', firsts, nodes[k].edges[i])
    ensures OnlyOwn(nodes, nodes'', firsts, k)
  {
    ShareableChildren(nodes[k].expr);
    var c := nodes[k].edges[i];
    assert nodes'[c].expr == nodes[c].expr;
    forall j {:trigger nodes''[j]} | 0 <= j < |nodes|
      ensures nodes''[j].expr == nodes[j].expr && nodes''[j].edges == nodes[j].edges
      ensures !Shareable(nodes[j].expr) && (Shareable(nodes[k].expr) || j < firsts[k] || k < j)
              ==> nodes''[j].visited == nodes[j].visited
    {
      assert nodes'[j].expr == nodes[j].expr;
    }
  }

  lemma NodeIsOk(nodes: seq<Node>, firsts: seq<nat>, indices: map<Expr, nat>, k: nat)
    requires GraphOk(nodes, firsts, indices) && k < |nodes|
    ensures |firsts| == |nodes| && NodeOk(nodes, firsts, k)
    ensures Edges(nodes, firsts, nodes[k].edges, Children(nodes[k].expr))
    ensures forall i {:trigger nodes[k].edges[i]} :: 0 <= i < |nodes[k].edges| ==>
              nodes[k].edges[i] < k && nodes[nodes[k].edges[i]].expr == Children(nodes[k].expr)[i]
  {
    var n := nodes[k];
    assert NodeOk(nodes, firsts, k);
  }

  /** A node that is not visited is not in the memo. */
  lemma NotInMemo(nodes: seq<Node>, firsts: seq<nat>, indices: map<Expr, nat>, open: set<nat>, k: nat)
    requires GraphOk(nodes, firsts, indices) && k < |nodes| && !nodes[k].visited
    ensures Shareable(nodes[k].expr) ==> nodes[k].expr !in Memo(nodes, indices, open)
  {
  }

  /** A visited node that is ready has its id in the memo. */
  lemma VisitedNode(nodes: seq<Node>, firsts: seq<nat>, indices: map<Expr, nat>, open: set<nat>, k: nat)
    requires GraphOk(nodes, firsts, indices) && k < |nodes| && nodes[k].visited && k !in open
    requires Ready(nodes, firsts, k)
    ensures var e, memo := nodes[k].expr, Memo(nodes, indices, open);
            Shareable(e) && e in memo && memo[e] == nodes[k].irId && MarkedBy(nodes, nodes, firsts, k)
  {
    NodeIsOk(nodes, firsts, indices, k);
    NodeOwns(nodes, firsts, k);
    Marked(nodes, firsts, k, nodes[k]);
    assert nodes == nodes[k := nodes[k]];
  }

  lemma NodeOwns(nodes: seq<Node>, firsts: seq<nat>, k: nat)
    requires |firsts| == |nodes| && k < |nodes| && NodeOk(nodes, firsts, k)
    ensures firsts[k] <= k
  {
  }

  lemma Marked(nodes: seq<Node>, firsts: seq<nat>, k: nat, n: Node)
    requires |firsts| == |nodes| && k < |nodes| && firsts[k] <= k
    requires n.expr == nodes[k].expr && n.edges == nodes[k].edges
    ensures OnlyOwn(nodes, nodes[k := n], firsts, k)
  {
  }

  lemma OwnTwice(nodes: seq<Node>, nodes': seq<Node>, nodes'': seq<Node>, firsts: seq<nat>, k: nat)
    requires |firsts| == |nodes| && k < |nodes|
    requires OnlyOwn(nodes, nodes', firsts, k) && OnlyOwn(nodes', nodes'', firsts, k)
    ensures OnlyOwn(nodes, nodes'', firsts, k)
  {
    assert nodes'[k].expr == nodes[k].expr;
    forall j {:trigger nodes''[j]} | 0 <= j < |nodes|
      ensures nodes''[j].expr == nodes[j].expr && nodes''[j].edges == nodes[j].edges
      ensures !Shareable(nodes[j].expr) && (Shareable(nodes[k].expr) || j < firsts[k] || k < j)
              ==> nodes''[j].visited == nodes[j].visited
    {
      assert nodes'[j].expr == nodes[j].expr;
    }
  }

  lemma SameNode(nodes: seq<Node>, nodes': seq<Node>, firsts: seq<nat>, k: nat, j: nat)
    requires |firsts| == |nodes| && k < |nodes| && j < |nodes| && OnlyOwn(nodes, nodes', firsts, k)
    ensures |nodes'| == |nodes| && nodes'[j].expr == nodes[j].expr && nodes'[j].edges == nodes[j].edges
  {
    var n := nodes'[j];
  }

  /** The edges that are not done are still ready to be compiled. */
  ghost predicate AllReady(nodes: seq<Node>, firsts: seq<nat>, edges: seq<nat>, es: seq<Expr>, done: set<nat>) {
    && |firsts| == |nodes| && Edges(nodes, firsts, edges, es)
    && forall i {:trigger edges[i]} :: 0 <= i < |edges| && i !in done ==> Ready(nodes, firsts, edges[i])
  }

  lemma OneDone(nodes: seq<Node>, nodes': seq<Node>, firsts: seq<nat>, edges: seq<nat>, es: seq<Expr>, done: set<nat>,
                i: nat)
    requires AllReady(nodes, firsts, edges, es, done) && i < |edges| && MarkedBy(nodes, nodes', firsts, edges[i])
    ensures AllReady(nodes', firsts, edges, es, done + {i})
  {
    forall j {:trigger edges[j]} | 0 <= j < |edges|
      ensures edges[j] < |nodes'| && nodes'[edges[j]].expr == es[j]
      ensures j !in done + {i} ==> Ready(nodes', firsts, edges[j])
    {
      SameNode(nodes, nodes', firsts, edges[i], edges[j]);
      if j !in done + {i} {
        OthersReady(nodes, nodes', firsts, edges, es, i, j);
      }
    }
  }

  /** In a new graph nothing is visited. */
  lemma NewGraph(nodes: seq<Node>, firsts: seq<nat>, indices: map<Expr, nat>, edges: seq<nat>, es: seq<Expr>)
    requires GraphOk(nodes, firsts, indices) && Grown([], [], nodes, firsts) && Edges(nodes, firsts, edges, es)
    ensures AllReady(nodes, firsts, edges, es, {}) && Memo(nodes, indices, {}) == map[]
  {
  }

  lemma NextReady(nodes: seq<Node>, nodes': seq<Node>, firsts: seq<nat>, edges: seq<nat>, es: seq<Expr>, i: nat, j: nat)
    requires |firsts| == |nodes| && Edges(nodes, firsts, edges, es) && i < |edges| && j < |edges| && i != j
    requires MarkedBy(nodes, nodes', firsts, edges[i]) && Ready(nodes, firsts, edges[j])
    ensures |nodes'| == |nodes| && edges[j] < |nodes'| && Ready(nodes', firsts, edges[j])
    ensures nodes'[edges[j]].expr == es[j]
  {
    OthersReady(nodes, nodes', firsts, edges, es, i, j);
    SameNode(nodes, nodes', firsts, edges[i], edges[j]);
  }

  /** The marks of a comparison: its own, then those of its operands. */
  lemma OperandsMarked(nodes0: seq<Node>, nodes1: seq<Node>, nodes2: seq<Node>, nodes3: seq<Node>, firsts: seq<nat>,
                       k: nat, n: Node)
    requires |firsts| == |nodes0| && k < |nodes0| && NodeOk(nodes0, firsts, k) && |n.edges| == 2 && n == nodes0[k]
    requires nodes1 == nodes0[k := n.(visited := true)]
    requires MarkedBy(nodes1, nodes2, firsts, n.edges[0]) && MarkedBy(nodes2, nodes3, firsts, n.edges[1])
    ensures MarkedBy(nodes0, nodes3, firsts, k) && |nodes3| == |nodes0| && nodes3[k] == n.(visited := true)
  {
    hide OnlyOwn;
    NodeOwns(nodes0, firsts, k);
    Marked(nodes0, firsts, k, n.(visited := true));
    assert n.edges[0] < k && n.edges[1] < k;
    OwnWidens(nodes0, nodes1, nodes2, firsts, k, 0);
    OwnWidens(nodes0, nodes2, nodes3, firsts, k, 1);
  }

  lemma LastMark(nodes: seq<Node>, nodes': seq<Node>, firsts: seq<nat>, k: nat, n: Node)
    requires MarkedBy(nodes, nodes', firsts, k) && firsts[k] <= k
    requires n.expr == nodes'[k].expr && n.edges == nodes'[k].edges
    ensures MarkedBy(nodes, nodes'[k := n], firsts, k)
  {
    Marked(nodes', firsts, k, n);
    OwnTwice(nodes, nodes', nodes'[k := n], firsts, k);
  }
}
