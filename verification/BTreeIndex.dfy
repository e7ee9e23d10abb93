/**
 The paged B-tree index: `struct BTreeState` of `src/Core/BTreeIndex.cpp`.
 The page file holds one `DiskNode` per page id; the root of the tree is always page 0 and is also kept in memory.
 Where the source's statements do not do what the index is for (the bounds of the two shift loops, the node the
 descent continues in after a split, the id counter after a reload), this class does the intended thing;
 BTreeAsWritten.dfy says exactly when the statements as written agree with it.
 */
module BTreeIndex {
  import opened BTree
  import opened SeqFacts

  /** A page: fixed-size buffers of which `keysCount` keys are live. */
  datatype DiskNode = DiskNode(isLeaf: bool, keysCount: nat, keys: seq<nat>, children: seq<nat>)

  datatype Header = Header(nodesCount: nat, kvCount: nat, height: nat)

  ghost predicate Matches(d: DiskNode, t: Tree) {
    && |d.keys| == MAX_KEYS && |d.children| == MAX_KEYS + 1
    && d.isLeaf == (t.kids == [])
    && d.keysCount == |t.keys| <= MAX_KEYS
    && d.keys[..d.keysCount] == t.keys
    && (t.kids != [] ==> |t.kids| == |t.keys| + 1)
    && forall i {:trigger t.kids[i]} :: 0 <= i < |t.kids| ==> d.children[i] == t.kids[i].id
  }

  /** The pages reachable from page t.id spell out tree t. */
  ghost predicate Represents(pages: map<nat, DiskNode>, t: Tree)
    decreases t
  {
    && t.id in pages
    && Matches(pages[t.id], t)
    && forall i :: 0 <= i < |t.kids| ==> Represents(pages, t.kids[i])
  }

  lemma {:induction false} KidUses(kids: seq<Tree>, i: nat, x: nat)
    requires i < |kids|
    ensures Uses(kids[i], x) <= TallyAll(kids, Only(x))
    ensures forall j :: i < j < |kids| ==> Uses(kids[i], x) + Uses(kids[j], x) <= TallyAll(kids, Only(x))
  {
    TallyReplace(kids, i, kids[i], Only(x));
    if i > 0 {
      KidUses(kids[1..], i - 1, x);
      forall j | i < j < |kids|
        ensures Uses(kids[i], x) + Uses(kids[j], x) <= TallyAll(kids, Only(x))
      {
        assert kids[j] == kids[1..][j - 1];
      }
    } else {
      forall j | i < j < |kids|
        ensures Uses(kids[i], x) + Uses(kids[j], x) <= TallyAll(kids, Only(x))
      {
        KidUses(kids[1..], j - 1, x);
      }
    }
  }

  /** Pages outside the tree do not matter to it. */
  lemma {:induction false} Frame(pages: map<nat, DiskNode>, pages': map<nat, DiskNode>, t: Tree)
    requires Represents(pages, t)
    requires forall x: nat :: Uses(t, x) > 0 ==> x in pages && x in pages' && pages'[x] == pages[x]
    ensures Represents(pages', t)
    decreases t
  {
    assert Uses(t, t.id) > 0;
    forall i | 0 <= i < |t.kids|
      ensures Represents(pages', t.kids[i])
    {
      forall x: nat | Uses(t.kids[i], x) > 0
        ensures Uses(t, x) > 0
      {
        KidUses(t.kids, i, x);
      }
      Frame(pages, pages', t.kids[i]);
    }
  }

  /** Replacing what hangs below child i, on pages that only child i and fresh pages use. */
  lemma GraftKid(pages: map<nat, DiskNode>, pages': map<nat, DiskNode>, t: Tree, i: nat, c: Tree, last: nat)
    requires Represents(pages, t) && OwnPages(t, last) && i < |t.kids|
    requires Represents(pages', c) && c.id == t.kids[i].id
    requires forall x: nat :: x in pages && Uses(t.kids[i], x) == 0 && x <= last ==>
               x in pages' && pages'[x] == pages[x]
    ensures Represents(pages', t.(kids := t.kids[i := c]))
    ensures pages'[t.id] == pages[t.id]
  {
    forall x: nat
      ensures Uses(t, x) == (if x == t.id then 1 else 0) + TallyAll(t.kids, Only(x))
      ensures Uses(t.kids[i], x) <= TallyAll(t.kids, Only(x))
    {
      KidUses(t.kids, i, x);
    }
    forall j | 0 <= j < |t.kids| && j != i
      ensures Represents(pages', t.kids[j])
    {
      forall x: nat | Uses(t.kids[j], x) > 0
        ensures x in pages && x in pages' && pages'[x] == pages[x]
      {
        KidUses(t.kids, i, x);
        KidUses(t.kids, j, x);
        UsedIsThere(pages, t.kids[j], x);
      }
      Frame(pages, pages', t.kids[j]);
    }
  }

  lemma {:induction false} UsedIsThere(pages: map<nat, DiskNode>, t: Tree, x: nat)
    requires Represents(pages, t) && Uses(t, x) > 0
    ensures x in pages
    decreases t
  {
    if x != t.id {
      var i := UserAmong(t.kids, x);
      UsedIsThere(pages, t.kids[i], x);
    }
  }

  lemma UserAmong(kids: seq<Tree>, x: nat) returns (i: nat)
    requires TallyAll(kids, Only(x)) > 0
    ensures i < |kids| && Uses(kids[i], x) > 0
  {
    if Uses(kids[0], x) > 0 {
      i := 0;
    } else {
      i := UserAmong(kids[1..], x);
      i := i + 1;
    }
  }

  /** Subtree c stays represented when three pages it does not use are written. */
  lemma FrameThree(pages: map<nat, DiskNode>, c: Tree, x: nat, y: nat, z: nat, dx: DiskNode, dy: DiskNode, dz: DiskNode)
    requires Represents(pages, c)
    requires Uses(c, x) == 0 && Uses(c, y) == 0 && Uses(c, z) == 0
    ensures Represents(pages[x := dx][y := dy][z := dz], c)
  {
    forall u: nat | Uses(c, u) > 0
      ensures u in pages
    {
      UsedIsThere(pages, c, u);
    }
    Frame(pages, pages[x := dx][y := dy][z := dz], c);
  }

  /** What a split writes is not used by the subtrees that stay. */
  lemma SplitApart(t: Tree, i: nat, last: nat)
    requires OwnPages(t, last) && i < |t.kids|
    ensures t.id != t.kids[i].id && t.id <= last && t.kids[i].id <= last
    ensures forall j, x: nat :: 0 <= j < |t.kids| && j != i && (x == t.id || x == t.kids[i].id || x > last) ==>
              Uses(t.kids[j], x) == 0
    ensures forall j, x: nat :: 0 <= j < |t.kids[i].kids| && (x == t.id || x == t.kids[i].id || x > last) ==>
              Uses(t.kids[i].kids[j], x) == 0
  {
    var c := t.kids[i];
    KidUses(t.kids, i, c.id);
    KidUses(t.kids, i, t.id);
    assert Uses(c, c.id) >= 1 && Uses(t, t.id) >= 1 && Uses(t, c.id) >= 1;
    forall j, x: nat | 0 <= j < |t.kids| && j != i && (x == t.id || x == c.id || x > last)
      ensures Uses(t.kids[j], x) == 0
    {
      KidUses(t.kids, i, x);
      KidUses(t.kids, j, x);
      assert Uses(t, x) <= 1;
    }
    forall j, x: nat | 0 <= j < |c.kids| && (x == t.id || x == c.id || x > last)
      ensures Uses(c.kids[j], x) == 0
    {
      KidUses(t.kids, i, x);
      KidUses(c.kids, j, x);
      assert Uses(t, x) <= 1;
    }
  }

  /** The three pages a split writes turn the tree into the split tree. */
  lemma GraftSplit(pages: map<nat, DiskNode>, t: Tree, i: nat, newId: nat,
                   d: DiskNode, lower: DiskNode, upper: DiskNode)
    requires i < |t.kids| && i <= |t.keys| && IsFull(t.kids[i]) && newId > 0 && OwnPages(t, newId - 1)
    requires forall j :: 0 <= j < |t.kids| && j != i ==> Represents(pages, t.kids[j])
    requires forall j :: 0 <= j < |t.kids[i].kids| ==> Represents(pages, t.kids[i].kids[j])
    requires Matches(d, BTree.SplitChild(t, i, newId))
    requires Matches(lower, LowerHalf(t.kids[i])) && Matches(upper, UpperHalf(t.kids[i], newId))
    ensures Represents(pages[t.id := d][t.kids[i].id := lower][newId := upper], BTree.SplitChild(t, i, newId))
  {
    var c, s := t.kids[i], BTree.SplitChild(t, i, newId);
    var l, u := LowerHalf(c), UpperHalf(c, newId);
    var pages' := pages[t.id := d][c.id := lower][newId := upper];
    SplitApart(t, i, newId - 1);
    forall j | 0 <= j < |t.kids| && j != i
      ensures Represents(pages', t.kids[j])
    {
      FrameThree(pages, t.kids[j], t.id, c.id, newId, d, lower, upper);
    }
    forall j | 0 <= j < |c.kids|
      ensures Represents(pages', c.kids[j])
    {
      FrameThree(pages, c.kids[j], t.id, c.id, newId, d, lower, upper);
    }
    assert Represents(pages', l) by {
      assert forall j :: 0 <= j < |l.kids| ==> l.kids[j] == c.kids[j];
    }
    assert Represents(pages', u) by {
      assert forall j :: 0 <= j < |u.kids| ==> u.kids[j] == c.kids[ORDER + j];
    }
    forall j | 0 <= j < |s.kids|
      ensures Represents(pages', s.kids[j])
    {
      if j < i { assert s.kids[j] == t.kids[j]; }
      else if j > i + 1 { assert s.kids[j] == t.kids[j - 1]; }
      else if j == i { assert s.kids[j] == l; }
      else { assert s.kids[j] == u; }
    }
  }

  lemma LowerMatches(d: DiskNode, c: Tree)
    requires Matches(d, c) && IsFull(c)
    ensures Matches(d.(keysCount := ORDER - 1), LowerHalf(c))
  {
    var l := LowerHalf(c);
    assert d.keys[..ORDER - 1] == d.keys[..d.keysCount][..ORDER - 1];
    assert forall i :: 0 <= i < |l.kids| ==> l.kids[i] == c.kids[i];
  }

  lemma ParentMatches(d: DiskNode, d': DiskNode, t: Tree, i: nat, newId: nat)
    requires Matches(d, t) && !IsFull(t) && i < |t.kids| && IsFull(t.kids[i])
    requires |d'.keys| == MAX_KEYS && |d'.children| == MAX_KEYS + 1
    requires d'.keysCount == d.keysCount + 1 && d'.isLeaf == d.isLeaf
    requires d'.keys[..d'.keysCount] == InsertAt(d.keys[..d.keysCount], i, t.kids[i].keys[ORDER - 1])
    requires d'.children[..d'.keysCount + 1] == d.children[..i + 1] + [newId] + d.children[i + 1..d'.keysCount]
    ensures Matches(d', BTree.SplitChild(t, i, newId))
  {
    var s, live := BTree.SplitChild(t, i, newId), d'.children[..d'.keysCount + 1];
    forall j | 0 <= j < |s.kids|
      ensures d'.children[j] == s.kids[j].id
    {
      assert d'.children[j] == live[j];
      if j <= i {
        assert live[j] == d.children[j];
      } else if j > i + 1 {
        assert live[j] == d.children[j - 1];
      }
    }
  }

  /** A node in memory. */
  class Node {
    var id: nat
    var isLeaf: bool
    var keysCount: nat
    const keys: array<nat>
    const children: array<nat>

    ghost predicate Valid()
      reads this
    {
      keys.Length == MAX_KEYS && children.Length == MAX_KEYS + 1 && keys != children && keysCount <= MAX_KEYS
    }

    ghost function Disk(): DiskNode
      reads this, keys, children
    {
      DiskNode(isLeaf, keysCount, keys[..], children[..])
    }

    ghost predicate Apart(other: Node) {
      && this != other
      && keys != other.keys && keys != other.children
      && children != other.keys && children != other.children
    }

    constructor (id: nat, d: DiskNode)
      requires |d.keys| == MAX_KEYS && |d.children| == MAX_KEYS + 1 && d.keysCount <= MAX_KEYS
      ensures Valid() && fresh(keys) && fresh(children)
      ensures this.id == id && Disk() == d
    {
      this.id := id;
      isLeaf := d.isLeaf;
      keysCount := d.keysCount;
      keys := new nat[MAX_KEYS](i requires 0 <= i < MAX_KEYS => d.keys[i]);
      children := new nat[MAX_KEYS + 1](i requires 0 <= i < MAX_KEYS + 1 => d.children[i]);
      new;
      assert keys[..] == d.keys;
      assert children[..] == d.children;
    }

    /** Opens a slot at key i and stores key k there. */
    method InsertKey(i: nat, k: nat)
      requires Valid() && i <= keysCount < MAX_KEYS
      modifies this`keysCount, keys
      ensures Valid() && keysCount == old(keysCount) + 1
      ensures keys[..keysCount] == InsertAt(old(keys[..keysCount]), i, k)
    {
      ghost var live := keys[..keysCount];
      var j := keysCount;
      while j > i
        invariant i <= j <= keysCount == |live|
        invariant keys[..j] == live[..j]
        invariant forall m :: j < m <= keysCount ==> keys[m] == live[m - 1]
      {
        keys[j] := keys[j - 1];
        j := j - 1;
      }
      keys[i] := k;
      keysCount := keysCount + 1;
      assert keys[..keysCount] == InsertAt(live, i, k);
    }

    /** Opens a slot after child i and stores the page id there; the keys were shifted already. */
    method InsertChild(i: nat, newId: nat)
      requires Valid() && i < keysCount
      modifies children
      ensures children[..keysCount + 1] ==
              old(children[..i + 1]) + [newId] + old(children[i + 1..keysCount])
    {
      ghost var live := children[..keysCount];
      var j := keysCount;
      while j > i + 1
        invariant i + 1 <= j <= keysCount
        invariant children[..j] == live[..j]
        invariant forall m :: j < m <= keysCount ==> children[m] == live[m - 1]
      {
        children[j] := children[j - 1];
        j := j - 1;
      }
      children[i + 1] := newId;
      ghost var want := live[..i + 1] + [newId] + live[i + 1..];
      assert forall m :: 0 <= m <= keysCount ==> children[m] == want[m];
    }

    /** Takes in the median and the new right half of the split child i. */
    method TakeSplit(i: nat, k: nat, newId: nat, ghost t: Tree)
      requires Valid() && Matches(Disk(), t) && !IsFull(t)
      requires i < |t.kids| && IsFull(t.kids[i]) && k == t.kids[i].keys[ORDER - 1]
      modifies this`keysCount, keys, children
      ensures Valid() && Matches(Disk(), BTree.SplitChild(t, i, newId))
    {
      ghost var d := Disk();
      InsertKey(i, k);
      InsertChild(i, newId);
      ParentMatches(d, Disk(), t, i, newId);
    }
  }

  class BTreeState {
    var pages: map<nat, DiskNode>
    var savedHeader: Header
    var header: Header
    var root: Node
    var currentNodeId: nat

    /** The tree that the pages spell out. */
    ghost var tree: Tree

    ghost predicate Valid()
      reads this, root, root.keys, root.children
    {
      && root.Valid() && root.id == 0 && tree.id == 0
      && Represents(pages, tree)
      && pages[0] == root.Disk()
      && savedHeader == header
      && RootShape(tree, header.height)
      && Sorted(Flat(tree))
      && OwnPages(tree, currentNodeId)
      && header.kvCount == |Flat(tree)|
      && header.nodesCount == Nodes(tree)
    }

    /** An index on an empty file: one empty leaf in page 0. */
    constructor Create()
      ensures Valid() && fresh(root) && fresh(root.keys) && fresh(root.children)
      ensures Flat(tree) == [] && header == Header(1, 0, 1) && currentNodeId == 0
    {
      currentNodeId := 0;
      pages := map[];
      header, savedHeader := Header(1, 0, 1), Header(1, 0, 1);
      tree := Tree(0, [], []);
      root := new Node(0, EmptyLeaf());
      new;
      Reset();
    }

    static function EmptyLeaf(): DiskNode {
      DiskNode(true, 0, seq(MAX_KEYS, i => 0), seq(MAX_KEYS + 1, i => 0))
    }

    /** Starts over with one empty leaf; ids handed out before are not handed out again. */
    method Reset()
      modifies this
      ensures Valid() && fresh(root) && fresh(root.keys) && fresh(root.children)
      ensures Flat(tree) == [] && header == Header(1, 0, 1) && currentNodeId == old(currentNodeId)
    {
      header := Header(1, 0, 1);
      root := new Node(0, EmptyLeaf());
      savedHeader := header;
      SaveNode(root);
      tree := Tree(0, [], []);
    }

    /** An index on a file written before: header and root page are read back. */
    constructor Open(pages: map<nat, DiskNode>, savedHeader: Header, ghost t: Tree)
      requires Represents(pages, t) && t.id == 0 && RootShape(t, savedHeader.height) && Sorted(Flat(t))
      requires savedHeader.kvCount == |Flat(t)| && savedHeader.nodesCount == Nodes(t)
      requires OwnPages(t, savedHeader.nodesCount - 1)
      ensures Valid() && fresh(root) && fresh(root.keys) && fresh(root.children)
      ensures this.pages == pages && header == savedHeader && tree == t
      ensures currentNodeId == savedHeader.nodesCount - 1
    {
      this.pages, this.savedHeader, header := pages, savedHeader, savedHeader;
      root := new Node(0, pages[0]);
      currentNodeId := savedHeader.nodesCount - 1;
      tree := t;
    }

    method SaveNode(node: Node)
      modifies this`pages
      ensures pages == old(pages)[node.id := node.Disk()]
    {
      pages := pages[node.id := DiskNode(node.isLeaf, node.keysCount, node.keys[..], node.children[..])];
    }

    method LoadNode(id: nat) returns (node: Node)
      requires id in pages && |pages[id].keys| == MAX_KEYS && |pages[id].children| == MAX_KEYS + 1
      requires pages[id].keysCount <= MAX_KEYS
      ensures fresh(node) && fresh(node.keys) && fresh(node.children)
      ensures node.Valid() && node.id == id && node.Disk() == pages[id]
    {
      node := new Node(id, pages[id]);
    }

    method AllocNode() returns (node: Node)
      modifies this`header, this`currentNodeId
      ensures fresh(node) && fresh(node.keys) && fresh(node.children)
      ensures node.Valid() && node.id == currentNodeId == old(currentNodeId) + 1
      ensures header == old(header).(nodesCount := old(header).nodesCount + 1)
    {
      header := header.(nodesCount := header.nodesCount + 1);
      currentNodeId := currentNodeId + 1;
      node := new Node(currentNodeId, EmptyLeaf());
    }

    /** The upper half of a full child's keys and children, copied into a new node. */
    method CopyUpperHalf(child: Node, node: Node, ghost c: Tree)
      requires child.Valid() && node.Valid() && Matches(child.Disk(), c) && IsFull(c)
      requires node.Apart(child)
      modifies node, node.keys, node.children
      ensures node.Valid() && node.id == old(node.id)
      ensures Matches(node.Disk(), UpperHalf(c, node.id))
    {
      node.isLeaf := child.isLeaf;
      node.keysCount := ORDER - 1;
      for i := 0 to ORDER - 1
        invariant node.keysCount == ORDER - 1 && node.isLeaf == child.isLeaf && node.id == old(node.id)
        invariant forall j :: 0 <= j < i ==> node.keys[j] == child.keys[ORDER + j]
      {
        node.keys[i] := child.keys[ORDER + i];
      }
      assert node.keys[..ORDER - 1] == child.keys[ORDER..];
      if !child.isLeaf {
        for i := 0 to ORDER
          invariant node.keysCount == ORDER - 1 && node.isLeaf == child.isLeaf && node.id == old(node.id)
          invariant node.keys[..ORDER - 1] == child.keys[ORDER..]
          invariant forall j :: 0 <= j < i ==> node.children[j] == child.children[ORDER + j]
        {
          node.children[i] := child.children[ORDER + i];
        }
      }
    }

    /** Cuts the full child i of `parent` at its median, which moves up, and saves the three pages. */
    method SplitChild(parent: Node, child: Node, i: nat, ghost t: Tree)
      returns (ghost lower: DiskNode, ghost upper: DiskNode)
      requires parent.Valid() && child.Valid()
      requires parent.Apart(child)
      requires Matches(parent.Disk(), t) && !IsFull(t)
      requires i < |t.kids| && Matches(child.Disk(), t.kids[i]) && IsFull(t.kids[i])
      modifies this`header, this`currentNodeId, this`pages
      modifies parent`keysCount, parent.keys, parent.children, child`keysCount
      ensures header == old(header).(nodesCount := old(header).nodesCount + 1)
      ensures currentNodeId == old(currentNodeId) + 1
      ensures parent.Valid() && Matches(parent.Disk(), BTree.SplitChild(t, i, currentNodeId))
      ensures Matches(lower, LowerHalf(t.kids[i]))
      ensures Matches(upper, UpperHalf(t.kids[i], currentNodeId))
      ensures pages == old(pages)[parent.id := parent.Disk()][child.id := lower][currentNodeId := upper]
    {
      LowerMatches(child.Disk(), t.kids[i]);
      var medianKey := child.keys[ORDER - 1];
      var newChild := AllocNode();
      CopyUpperHalf(child, newChild, t.kids[i]);
      child.keysCount := ORDER - 1;
      parent.TakeSplit(i, medianKey, newChild.id, t);
      SaveNode(parent);
      SaveNode(child);
      SaveNode(newChild);
      lower, upper := child.Disk(), newChild.Disk();
    }

    method FindPosition(node: Node, k: nat) returns (i: nat)
      requires node.Valid()
      ensures i == Position(node.keys[..node.keysCount], k)
    {
      i := node.keysCount;
      while i > 0 && k < node.keys[i - 1]
        invariant i <= node.keysCount
        invariant Position(node.keys[..node.keysCount], k) == Position(node.keys[..i], k)
      {
        i := i - 1;
        assert node.keys[..i + 1][..i] == node.keys[..i];
      }
    }

    method LoadChild(node: Node, i: nat, ghost t: Tree) returns (child: Node)
      requires node.Valid() && Represents(pages, t) && Matches(node.Disk(), t) && i < |t.kids|
      ensures child.Valid() && fresh(child) && fresh(child.keys) && fresh(child.children)
      ensures child.id == t.kids[i].id && child.id in pages && pages[child.id] == child.Disk()
      ensures Matches(child.Disk(), t.kids[i])
    {
      assert Represents(pages, t.kids[i]);
      assert node.children[i] == t.kids[i].id;
      child := LoadNode(node.children[i]);
    }

    /** Inserts key k below `node`, whose subtree t is not full at the top. */
    method InsertNonFull(node: Node, k: nat, ghost t: Tree, ghost h: nat) returns (ghost t': Tree)
      requires node.Valid() && node.id == t.id
      requires Represents(pages, t) && pages[t.id] == node.Disk()
      requires Shape(t, h) && !IsFull(t) && OwnPages(t, currentNodeId)
      modifies this`header, this`currentNodeId, this`pages
      modifies node`keysCount, node.keys, node.children
      ensures node.Valid()
      ensures (t', currentNodeId) == BTree.InsertNonFull(t, k, old(currentNodeId), h)
      ensures Moved(old(pages), pages, t, t', old(currentNodeId)) && pages[t.id] == node.Disk()
      ensures currentNodeId >= old(currentNodeId)
      ensures header == old(header).(nodesCount := old(header).nodesCount + currentNodeId - old(currentNodeId))
      decreases h, 1
    {
      hide Represents, Shape, Uses, Moved, Untouched, OwnPages;
      NodeFacts(pages, t, h);
      var i := FindPosition(node, k);
      if node.isLeaf {
        t' := Tree(t.id, InsertAt(t.keys, i, k), []);
        node.InsertKey(i, k);
        SaveNode(node);
        LeafMoved(old(pages), pages, t, t', currentNodeId);
      } else {
        var child := LoadChild(node, i, t);
        if child.keysCount == MAX_KEYS {
          t' := InsertAfterSplit(node, child, i, k, t, h);
        } else {
          t' := InsertInChild(node, child, i, k, t, h);
        }
      }
    }

    /** Goes on in child i of `node`; `node` itself stays as it is. */
    method InsertInChild(node: Node, child: Node, i: nat, k: nat, ghost t: Tree, ghost h: nat)
      returns (ghost t': Tree)
      requires node.Valid() && node.id == t.id && child.Valid() && node.Apart(child)
      requires Represents(pages, t) && pages[t.id] == node.Disk()
      requires Shape(t, h) && OwnPages(t, currentNodeId)
      requires i < |t.kids| && !IsFull(t.kids[i])
      requires child.id == t.kids[i].id && child.id in pages && pages[child.id] == child.Disk()
      modifies this`header, this`currentNodeId, this`pages
      modifies child`keysCount, child.keys, child.children
      ensures var (c, last) := BTree.InsertNonFull(t.kids[i], k, old(currentNodeId), h - 1);
              t' == t.(kids := t.kids[i := c]) && currentNodeId == last
      ensures Moved(old(pages), pages, t, t', old(currentNodeId)) && pages[t.id] == node.Disk()
      ensures currentNodeId >= old(currentNodeId)
      ensures header == old(header).(nodesCount := old(header).nodesCount + currentNodeId - old(currentNodeId))
      decreases h, 0, 0
    {
      hide Represents, Shape, Uses, Moved, Untouched, OwnPages;
      NodeFacts(pages, t, h);
      KidOwns(t, i, currentNodeId);
      ghost var c := InsertNonFull(child, k, t.kids[i], h - 1);
      assert node.Disk() == old(node.Disk());
      t' := t.(kids := t.kids[i := c]);
      ChildMoved(old(pages), pages, t, i, c, old(currentNodeId));
    }

    /** `SplitChild` inside a tree whose pages are all saved. */
    method SplitAndSave(node: Node, fullChild: Node, i: nat, ghost t: Tree, ghost h: nat)
      returns (ghost s: Tree)
      requires node.Valid() && node.id == t.id && fullChild.Valid() && node.Apart(fullChild)
      requires Represents(pages, t) && pages[t.id] == node.Disk()
      requires Shape(t, h) && !IsFull(t) && OwnPages(t, currentNodeId)
      requires i < |t.kids|
      requires fullChild.id == t.kids[i].id && Matches(fullChild.Disk(), t.kids[i]) && IsFull(t.kids[i])
      modifies this`header, this`currentNodeId, this`pages
      modifies node`keysCount, node.keys, node.children, fullChild`keysCount
      ensures node.Valid() && node.keysCount > i && |s.kids| > i + 1 && s.id == t.id
      ensures s == BTree.SplitChild(t, i, old(currentNodeId) + 1)
      ensures node.keys[i] == s.keys[i] && Matches(node.Disk(), s) && Represents(pages, s)
      ensures Moved(old(pages), pages, t, s, old(currentNodeId)) && pages[t.id] == node.Disk()
      ensures Shape(s, h) && OwnPages(s, currentNodeId) && !IsFull(s.kids[i]) && !IsFull(s.kids[i + 1])
      ensures forall x: nat {:trigger Uses(t, x)} :: x <= old(currentNodeId) && Uses(t, x) == 0 ==> Uses(s, x) == 0
      ensures currentNodeId == old(currentNodeId) + 1
      ensures header == old(header).(nodesCount := old(header).nodesCount + 1)
    {
      hide Represents, Shape, Uses, Moved, Untouched, OwnPages, BTree.SplitChild, LowerHalf, UpperHalf;
      NodeFacts(pages, t, h);
      ghost var last := currentNodeId;
      s := BTree.SplitChild(t, i, last + 1);
      ghost var lower, upper := SplitChild(node, fullChild, i, t);
      AfterSplit(old(pages), pages, t, i, last, h, node.Disk(), lower, upper);
      assert node.keys[..node.keysCount][i] == s.keys[i];
    }

    /** Splits the full child i and goes on in the half that key k belongs to. */
    method InsertAfterSplit(node: Node, fullChild: Node, i: nat, k: nat, ghost t: Tree, ghost h: nat)
      returns (ghost t': Tree)
      requires node.Valid() && node.id == t.id && fullChild.Valid() && node.Apart(fullChild)
      requires Represents(pages, t) && pages[t.id] == node.Disk()
      requires Shape(t, h) && !IsFull(t) && OwnPages(t, currentNodeId)
      requires t.kids != [] && i == Position(t.keys, k)
      requires fullChild.id == t.kids[i].id && Matches(fullChild.Disk(), t.kids[i]) && IsFull(t.kids[i])
      modifies this`header, this`currentNodeId, this`pages
      modifies node`keysCount, node.keys, node.children, fullChild`keysCount
      ensures node.Valid()
      ensures (t', currentNodeId) == BTree.InsertNonFull(t, k, old(currentNodeId), h)
      ensures Moved(old(pages), pages, t, t', old(currentNodeId)) && pages[t.id] == node.Disk()
      ensures currentNodeId >= old(currentNodeId)
      ensures header == old(header).(nodesCount := old(header).nodesCount + currentNodeId - old(currentNodeId))
      decreases h, 0, 1
    {
      hide Represents, Shape, Uses, Moved, Untouched, OwnPages, Matches, BTree.SplitChild;
      NodeFacts(pages, t, h);
      ghost var last := currentNodeId;
      ghost var s := SplitAndSave(node, fullChild, i, t, h);
      ghost var middle := pages;
      var j := if k > node.keys[i] then i + 1 else i;
      var child := LoadChild(node, j, s);
      t' := InsertInChild(node, child, j, k, s, h);
      InsertNonFullSplits(t, k, last, h, i, s, j);
      MovedTwice(old(pages), middle, pages, t, s, t', last);
    }

    /** Adds one occurrence of key k. */
    method Insert(k: nat)
      requires Valid()
      modifies this, root, root.keys, root.children
      ensures Valid() && (root == old(root) || (fresh(root) && fresh(root.keys) && fresh(root.children)))
      ensures (tree, currentNodeId) == BTree.Insert(old(tree), k, old(currentNodeId), old(header.height))
      ensures multiset(Flat(tree)) == multiset(Flat(old(tree))) + multiset{k}
      ensures header.kvCount == old(header.kvCount) + 1
      ensures header.nodesCount - currentNodeId == old(header.nodesCount - currentNodeId)
      ensures header.height == NewHeight(old(tree), old(header.height))
    {
      hide Represents, Shape, Flat, Sorted, Nodes, Uses, OwnPages, Untouched, Matches;
      hide BTree.SplitChild, BTree.InsertNonFull;
      ghost var t, last, h := tree, currentNodeId, header.height;
      NodeFacts(pages, t, h);
      RootMatches(pages[0], t);
      InsertShape(t, k, last, h);
      InsertGrows(t, k, last, h);
      GrownLength(Flat(t), Flat(BTree.Insert(t, k, last, h).0), k);
      InsertPages(t, k, last, h);
      if root.keysCount == MAX_KEYS {
        ghost var s := GrowRoot(t, h);
        ghost var t' := InsertNonFull(root, k, s, h + 1);
        tree := t';
      } else {
        ghost var t' := InsertNonFull(root, k, t, h);
        tree := t';
      }
      header := header.(kvCount := header.kvCount + 1);
      savedHeader := header;
    }

    /** Puts a full root under a new root and splits it; the new root takes over page 0. */
    method GrowRoot(ghost t: Tree, ghost h: nat) returns (ghost s: Tree)
      requires Valid() && t == tree && h == header.height && IsFull(t)
      modifies this, root, root.keys, root.children
      ensures fresh(root) && fresh(root.keys) && fresh(root.children) && root.Valid() && root.id == 0
      ensures s == BTree.SplitChild(GrownRoot(t, old(currentNodeId)), 0, old(currentNodeId) + 2)
      ensures Represents(pages, s) && pages[0] == root.Disk()
      ensures Shape(s, h + 1) && !IsFull(s) && s.id == 0 && OwnPages(s, currentNodeId)
      ensures currentNodeId == old(currentNodeId) + 2
      ensures header == old(header).(nodesCount := old(header).nodesCount + 2, height := h + 1)
    {
      hide Represents, Shape, Flat, Sorted, Nodes, Uses, OwnPages, BTree.SplitChild, LowerHalf, UpperHalf;
      ghost var last, g := currentNodeId, GrownRoot(t, currentNodeId);
      NodeFacts(pages, t, h);
      var newRoot := AllocNode();
      newRoot.isLeaf := false;
      newRoot.keysCount := 0;
      root.id := newRoot.id;
      newRoot.id := 0;
      newRoot.children[0] := root.id;
      assert Matches(newRoot.Disk(), g);
      s := BTree.SplitChild(g, 0, last + 2);
      ghost var lower, upper := SplitChild(newRoot, root, 0, g);
      RootGrown(old(pages), t, last, h, newRoot.Disk(), lower, upper);
      root := newRoot;
      header := header.(height := header.height + 1);
    }

    /** Whether key q is in the index. */
    method Contains(q: nat) returns (found: bool)
      requires Valid()
      ensures found <==> q in Flat(tree)
    {
      FoundIff(tree, q, header.height);
      var node, i := NodeSearch(root, q, tree, header.height);
      found := i != -1;
    }

    /** The node and index at which key q lies, or -1. */
    method NodeSearch(node: Node, q: nat, ghost t: Tree, ghost h: nat) returns (at: Node, i: int)
      requires node.Valid() && Represents(pages, t) && Matches(node.Disk(), t) && Shape(t, h)
      ensures i != -1 <==> Found(t, q, h)
      ensures i != -1 ==> 0 <= i < at.keysCount && at.Valid() && at.keys[i] == q
      decreases h
    {
      var keyIndex := 0;
      while keyIndex < node.keysCount && node.keys[keyIndex] < q
        invariant keyIndex <= node.keysCount
        invariant FirstAtLeast(t.keys, q) == keyIndex + FirstAtLeast(t.keys[keyIndex..], q)
      {
        assert node.keys[..node.keysCount][keyIndex] == t.keys[keyIndex];
        assert t.keys[keyIndex..][1..] == t.keys[keyIndex + 1..];
        keyIndex := keyIndex + 1;
      }
      assert keyIndex < node.keysCount ==> node.keys[..node.keysCount][keyIndex] == t.keys[keyIndex];
      at := node;
      if keyIndex < node.keysCount && node.keys[keyIndex] == q {
        i := keyIndex;
      } else if node.isLeaf {
        i := -1;
      } else {
        var child := LoadChild(node, keyIndex, t);
        at, i := NodeSearch(child, q, t.kids[keyIndex], h - 1);
      }
    }
  }

  /**
   Closing an index and opening its file again: every key is answered as before and the next page ids handed out are
   unused. The pages must be numbered without gaps, as they are unless the index was reset and has grown since.
   */
  method Reopen(index: BTreeState) returns (again: BTreeState)
    requires index.Valid() && OwnPages(index.tree, index.header.nodesCount - 1)
    ensures again.Valid() && again.tree == index.tree && again.header == index.header
    ensures again.currentNodeId == index.header.nodesCount - 1 && again.pages == index.pages
  {
    again := new BTreeState.Open(index.pages, index.savedHeader, index.tree);
  }

  /** An index that was never reset, or is a single page, can be opened again. */
  lemma CanReopen(index: BTreeState)
    requires index.Valid() && (index.currentNodeId == index.header.nodesCount - 1 || index.tree.kids == [])
    ensures OwnPages(index.tree, index.header.nodesCount - 1)
  {
    if index.tree.kids == [] {
      forall x: nat
        ensures Uses(index.tree, x) <= if x <= index.header.nodesCount - 1 then 1 else 0
      {
        assert TallyAll(index.tree.kids, Only(x)) == 0;
      }
    }
  }

  /** Pages in use outside t are as they were. */
  ghost predicate Untouched(pages: map<nat, DiskNode>, pages': map<nat, DiskNode>, t: Tree, last: nat) {
    forall x: nat {:trigger Uses(t, x)} :: x in pages && Uses(t, x) == 0 && x <= last ==>
      x in pages' && pages'[x] == pages[x]
  }

  /** The page file went from t to t', and nothing else changed. */
  ghost predicate Moved(pages: map<nat, DiskNode>, pages': map<nat, DiskNode>, t: Tree, t': Tree, last: nat) {
    Represents(pages', t') && t'.id == t.id && Untouched(pages, pages', t, last)
  }

  lemma NodeFacts(pages: map<nat, DiskNode>, t: Tree, h: nat)
    requires Represents(pages, t) && Shape(t, h)
    ensures t.id in pages && Matches(pages[t.id], t)
    ensures t.kids == [] || (|t.kids| == |t.keys| + 1 && h > 1)
    ensures forall i :: 0 <= i < |t.kids| ==> Represents(pages, t.kids[i]) && Shape(t.kids[i], h - 1)
  {
  }

  lemma KidOwns(t: Tree, i: nat, last: nat)
    requires OwnPages(t, last) && i < |t.kids|
    ensures OwnPages(t.kids[i], last)
    ensures Uses(t.kids[i], t.id) == 0 && t.id <= last
    ensures forall x: nat :: Uses(t.kids[i], x) <= Uses(t, x)
  {
    forall x: nat
      ensures Uses(t, x) == (if x == t.id then 1 else 0) + TallyAll(t.kids, Only(x))
      ensures Uses(t.kids[i], x) <= TallyAll(t.kids, Only(x))
    {
      KidUses(t.kids, i, x);
    }
  }

  lemma LeafMoved(p: map<nat, DiskNode>, p': map<nat, DiskNode>, t: Tree, t': Tree, last: nat)
    requires t'.kids == [] && t'.id == t.id
    requires t.id in p' && p' == p[t.id := p'[t.id]] && Matches(p'[t.id], t')
    ensures Moved(p, p', t, t', last)
  {
    assert Uses(t, t.id) > 0;
  }

  lemma ChildMoved(p: map<nat, DiskNode>, p': map<nat, DiskNode>, t: Tree, i: nat, c: Tree, last: nat)
    requires Represents(p, t) && OwnPages(t, last) && i < |t.kids|
    requires Moved(p, p', t.kids[i], c, last)
    ensures Moved(p, p', t, t.(kids := t.kids[i := c]), last) && p'[t.id] == p[t.id]
  {
    GraftKid(p, p', t, i, c, last);
    KidOwns(t, i, last);
  }

  lemma MovedTwice(p: map<nat, DiskNode>, m: map<nat, DiskNode>, p': map<nat, DiskNode>,
                   t: Tree, s: Tree, t': Tree, last: nat)
    requires Moved(p, m, t, s, last) && Moved(m, p', s, t', last + 1)
    requires forall x: nat {:trigger Uses(t, x)} :: x <= last && Uses(t, x) == 0 ==> Uses(s, x) == 0
    ensures Moved(p, p', t, t', last)
  {
  }

  /** What holds right after a split of child i. */
  lemma AfterSplit(p: map<nat, DiskNode>, m: map<nat, DiskNode>, t: Tree, i: nat, last: nat, h: nat,
                   d: DiskNode, lower: DiskNode, upper: DiskNode)
    requires Represents(p, t) && Shape(t, h) && i < |t.kids| && IsFull(t.kids[i]) && OwnPages(t, last)
    requires Matches(d, BTree.SplitChild(t, i, last + 1))
    requires Matches(lower, LowerHalf(t.kids[i])) && Matches(upper, UpperHalf(t.kids[i], last + 1))
    requires m == p[t.id := d][t.kids[i].id := lower][last + 1 := upper]
    ensures var s := BTree.SplitChild(t, i, last + 1);
            && Moved(p, m, t, s, last) && Represents(m, s) && m[t.id] == d
            && |s.keys| > i && |s.kids| > i + 1 && s.id == t.id
            && Shape(s, h) && OwnPages(s, last + 1) && !IsFull(s.kids[i]) && !IsFull(s.kids[i + 1])
            && forall x: nat {:trigger Uses(t, x)} :: x <= last && Uses(t, x) == 0 ==> Uses(s, x) == 0
  {
    GraftSplit(p, t, i, last + 1, d, lower, upper);
    SplitShape(t, i, last + 1, h);
    SplitApart(t, i, last);
    SplitUses(t, i, last, h);
  }

  lemma SplitUses(t: Tree, i: nat, last: nat, h: nat)
    requires Shape(t, h) && i < |t.kids| && IsFull(t.kids[i]) && OwnPages(t, last)
    ensures OwnPages(BTree.SplitChild(t, i, last + 1), last + 1)
    ensures forall x: nat {:trigger Uses(t, x)} ::
              x <= last ==> Uses(BTree.SplitChild(t, i, last + 1), x) == Uses(t, x)
    ensures Uses(t, t.id) > 0 && Uses(t, t.kids[i].id) > 0
  {
    assert Shape(t.kids[i], h - 1);
    var s := BTree.SplitChild(t, i, last + 1);
    forall x: nat
      ensures Uses(s, x) == Uses(t, x) + if x == last + 1 then 1 else 0
    {
      SplitTally(t, i, last + 1, Only(x));
    }
    forall x: nat
      ensures Uses(s, x) <= if x <= last + 1 then 1 else 0
    {
      assert Uses(t, x) <= if x <= last then 1 else 0;
    }
    KidUses(t.kids, i, t.kids[i].id);
  }

  lemma RootMatches(d: DiskNode, t: Tree)
    requires Matches(d, t)
    ensures d.keysCount == MAX_KEYS <==> IsFull(t)
  {
  }

  lemma GrownOwns(t: Tree, last: nat, h: nat)
    requires RootShape(t, h) && t.id == 0 && IsFull(t) && OwnPages(t, last)
    ensures OwnPages(GrownRoot(t, last), last + 1) && Shape(GrownRoot(t, last), h + 1)
  {
    var g := GrownRoot(t, last);
    forall x: nat
      ensures Uses(g, x) <= if x <= last + 1 then 1 else 0
    {
      assert g.kids[1..] == [];
      assert TallyAll(g.kids, Only(x)) == Tally(g.kids[0], Only(x));
      assert Uses(t, x) <= if x <= last then 1 else 0;
    }
  }

  /** The pages written when the root grows hold the new tree. */
  lemma RootGrown(p: map<nat, DiskNode>, t: Tree, last: nat, h: nat,
                  d: DiskNode, lower: DiskNode, upper: DiskNode)
    requires Represents(p, t) && RootShape(t, h) && t.id == 0 && IsFull(t) && OwnPages(t, last)
    requires Matches(d, BTree.SplitChild(GrownRoot(t, last), 0, last + 2))
    requires Matches(lower, LowerHalf(GrownRoot(t, last).kids[0]))
    requires Matches(upper, UpperHalf(GrownRoot(t, last).kids[0], last + 2))
    ensures var s := BTree.SplitChild(GrownRoot(t, last), 0, last + 2);
            var p' := p[0 := d][last + 1 := lower][last + 2 := upper];
            && Represents(p', s) && p'[0] == d
            && Shape(s, h + 1) && OwnPages(s, last + 2) && s.id == 0 && !IsFull(s)
  {
    hide Represents, Shape, Uses, OwnPages, Matches, LowerHalf, UpperHalf;
    var g := GrownRoot(t, last);
    NodeFacts(p, t, h);
    GrownOwns(t, last, h);
    SplitUses(g, 0, last + 1, h + 1);
    GrownSplitShape(t, last, h);
    GraftSplit(p, g, 0, last + 2, d, lower, upper);
  }

  lemma GrownSplitShape(t: Tree, last: nat, h: nat)
    requires RootShape(t, h) && IsFull(t)
    ensures Shape(BTree.SplitChild(GrownRoot(t, last), 0, last + 2), h + 1)
    ensures |BTree.SplitChild(GrownRoot(t, last), 0, last + 2).keys| == 1
  {
    SplitShape(GrownRoot(t, last), 0, last + 2, h + 1);
  }
}
