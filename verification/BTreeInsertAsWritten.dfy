/**
 Insertion exactly as `src/Core/BTreeIndex.cpp` has it, over the page file: after a split the parent's page keeps its
 old slots where they should have been shifted and counts one slot that was dead before, and the descent always goes
 on in the lower half. The result is an index with one key more exactly under a condition on the pages before.
 */
module BTreeInsertAsWritten {
  import opened BTree
  import opened BTreeAsWritten
  import opened BTreeIndex
  import opened SeqFacts
  import opened Wrappers

  type Pages = map<nat, DiskNode>

  /** A page of the right size. */
  type Page = d: DiskNode | |d.keys| == MAX_KEYS && |d.children| == MAX_KEYS + 1
    witness DiskNode(true, 0, seq(MAX_KEYS, i => 0), seq(MAX_KEYS + 1, i => 0))

  datatype Written = Stopped | Ended(pages: Pages, last: nat)

  // ---------- The code, page by page ----------

  /** The page is in the file, and its node has room. */
  predicate HasRoom(p: Pages, id: nat) {
    id in p && |p[id].keys| == MAX_KEYS && |p[id].children| == MAX_KEYS + 1 && p[id].keysCount < MAX_KEYS
  }

  predicate HasFull(p: Pages, id: nat) {
    id in p && |p[id].keys| == MAX_KEYS && |p[id].children| == MAX_KEYS + 1 && p[id].keysCount == MAX_KEYS
  }

  /** A leaf's page after key k was shifted in at index i. */
  function LeafPage(d: Page, i: nat, k: nat): Page
    requires i <= d.keysCount < MAX_KEYS
  {
    d.(keysCount := d.keysCount + 1, keys := InsertAt(d.keys[..d.keysCount], i, k) + d.keys[d.keysCount + 1..])
  }

  /** The page of the new right half; `blank` is what its buffer held when it was allocated. */
  function UpperPage(c: Page, blank: Page): Page {
    DiskNode(c.isLeaf, ORDER - 1, c.keys[ORDER..] + blank.keys[ORDER - 1..],
             if c.isLeaf then blank.children else c.children[ORDER..] + blank.children[ORDER..])
  }

  /** The pages after `split_child` as written; None when a bounds check traps. */
  function SplitPages(p: Pages, id: nat, i: nat, newId: nat, blank: Page): Option<Pages>
    requires HasRoom(p, id) && i <= p[id].keysCount && HasFull(p, p[id].children[i])
  {
    var childId := p[id].children[i];
    var c := p[childId];
    match ParentAsWritten(p[id], childId, i, c.keys[ORDER - 1], newId)
    case None => None
    case Some(d) => Some(p[id := d][childId := c.(keysCount := ORDER - 1)][newId := UpperPage(c, blank)])
  }

  /**
   `insert_non_full` as written, for the node on page id. Reading a page that is not in the file stops the program, and
   so does a full node; the height bounds how far down the pages are followed.
   */
  function WrittenNonFull(p: Pages, id: nat, k: nat, last: nat, height: nat, blank: nat -> Page): Written
    decreases height
  {
    if height == 0 || !HasRoom(p, id) then Stopped
    else
      var d := p[id];
      var i := Position(d.keys[..d.keysCount], k);
      if d.isLeaf then Ended(p[id := LeafPage(d, i, k)], last)
      else if HasFull(p, d.children[i]) then
        match SplitPages(p, id, i, last + 1, blank(last + 1))
        case None => Stopped
        case Some(m) => WrittenNonFull(m, d.children[i], k, last + 1, height - 1, blank)
      else WrittenNonFull(p, d.children[i], k, last, height - 1, blank)
  }

  /** The pages when a full root has moved to the next page, below a new root in page 0. */
  function GrownPages(p: Pages, last: nat, blank: nat -> Page): Pages
    requires HasFull(p, 0)
  {
    var b := blank(last + 1);
    p[0 := b.(isLeaf := false, keysCount := 0, children := b.children[0 := last + 1])][last + 1 := p[0]]
  }

  /** `insert` as written. */
  function WrittenInsert(p: Pages, k: nat, last: nat, height: nat, blank: nat -> Page): Written {
    if HasFull(p, 0) then
      match SplitPages(GrownPages(p, last, blank), 0, 0, last + 2, blank(last + 2))
      case None => Stopped
      case Some(m) => WrittenNonFull(m, 0, k, last + 2, height + 1, blank)
    else WrittenNonFull(p, 0, k, last, height, blank)
  }

  // ---------- The condition ----------

  /** All keys to the right of child i are the separator next to it. */
  ghost predicate RightAllSame(t: Tree, i: nat)
    requires i < |t.keys| && |t.kids| == |t.keys| + 1
  {
    && (forall j :: i <= j < |t.keys| ==> t.keys[j] == t.keys[i])
    && (forall j, x :: i < j < |t.kids| && x in Flat(t.kids[j]) ==> x == t.keys[i])
  }

  /**
   The split of child i does no harm: the bounds check passes, and the child is the last one, or the dead slots of the
   page repeat exactly what is overwritten, which then comes behind keys that do not tell the difference.
   */
  ghost predicate SplitFits(p: Pages, t: Tree, i: nat)
    requires |t.kids| == |t.keys| + 1 && i < |t.kids| && !IsFull(t)
  {
    var n := |t.keys|;
    && t.id in p && |p[t.id].keys| == MAX_KEYS && |p[t.id].children| == MAX_KEYS + 1
    && n <= t.kids[i].id && n < MAX_KEYS
    && (i == n || (p[t.id].keys[n] == t.keys[i] && p[t.id].children[n + 1] == t.kids[i + 1].id
                   && (i + 1 == n || RightAllSame(t, i))))
  }

  /** The lower half of a full child, with what a split makes of its shape. */
  ghost function LowerOf(t: Tree, i: nat, h: nat): (l: Tree)
    requires Shape(t, h) && i < |t.kids| && IsFull(t.kids[i])
    ensures Shape(l, h - 1) && !IsFull(l) && l == LowerHalf(t.kids[i])
  {
    SplitShape(t, i, 0, h);
    LowerHalf(t.kids[i])
  }

  /** Every split on the way down does no harm and leaves the new key in the lower half. */
  ghost predicate DescentFits(p: Pages, t: Tree, k: nat, h: nat)
    requires Shape(t, h) && !IsFull(t)
    decreases h
  {
    if t.kids == [] then true
    else
      var i := Position(t.keys, k);
      if IsFull(t.kids[i]) then
        SplitFits(p, t, i) && k <= t.kids[i].keys[ORDER - 1] && DescentFits(p, LowerOf(t, i, h), k, h - 1)
      else DescentFits(p, t.kids[i], k, h - 1)
  }

  /** The pages used are those used before and those handed out. */
  ghost predicate UsesGrown(t: Tree, t': Tree, last: nat, last': nat) {
    last <= last' && forall x: nat :: Uses(t', x) == Uses(t, x) + if last < x <= last' then 1 else 0
  }

  /** Pages p' hold a subtree that took in key k. */
  ghost predicate Took(p': Pages, last': nat, t: Tree, t': Tree, k: nat, last: nat, h: nat) {
    && Represents(p', t') && t'.id == t.id && Shape(t', h)
    && GrownBy(t, t', k) && UsesGrown(t, t', last, last')
  }

  // ---------- What the pages of a subtree tell ----------

  lemma {:induction false} SameTree(p: Pages, p': Pages, a: Tree, b: Tree)
    requires Represents(p, a) && Represents(p', b) && a.id == b.id
    requires forall x: nat :: Uses(a, x) > 0 ==> x in p && x in p' && p'[x] == p[x]
    ensures a == b
    decreases a
  {
    assert Uses(a, a.id) > 0;
    assert |a.kids| == |b.kids|;
    forall i | 0 <= i < |a.kids|
      ensures a.kids[i] == b.kids[i]
    {
      assert p[a.id].children[i] == a.kids[i].id && p'[a.id].children[i] == b.kids[i].id;
      forall x: nat | Uses(a.kids[i], x) > 0
        ensures Uses(a, x) > 0
      {
        KidUses(a.kids, i, x);
      }
      SameTree(p, p', a.kids[i], b.kids[i]);
    }
  }

  lemma {:induction false} HeightUnique(t: Tree, h: nat, h': nat)
    requires Shape(t, h) && Shape(t, h')
    ensures h == h'
    decreases h
  {
    if t.kids != [] {
      HeightUnique(t.kids[0], h - 1, h' - 1);
    }
  }

  /** No tree of height h or more hangs at page x. */
  ghost predicate NotHigh(p: Pages, x: nat, h: nat) {
    forall g: Tree, hg: nat :: Represents(p, g) && g.id == x && Shape(g, hg) ==> hg < h
  }

  lemma NotHigher(p: Pages, x: nat, h: nat, h': nat)
    requires NotHigh(p, x, h) && h <= h'
    ensures NotHigh(p, x, h')
  {
  }

  /** Pages that stayed hold what they held. */
  lemma {:induction false} KeptNotHigh(p: Pages, p': Pages, t: Tree, h: nat, x: nat)
    requires Represents(p, t) && Shape(t, h) && Uses(t, x) > 0
    requires forall y: nat :: Uses(t, y) > 0 ==> y in p && y in p' && p'[y] == p[y]
    ensures NotHigh(p', x, h + 1)
    decreases h
  {
    if x == t.id {
      forall g: Tree, hg: nat | Represents(p', g) && g.id == x && Shape(g, hg)
        ensures hg < h + 1
      {
        SameTree(p, p', t, g);
        HeightUnique(t, h, hg);
      }
    } else {
      var i := UserAmong(t.kids, x);
      forall y: nat | Uses(t.kids[i], y) > 0
        ensures Uses(t, y) > 0
      {
        KidUses(t.kids, i, y);
      }
      KeptNotHigh(p, p', t.kids[i], h - 1, x);
    }
  }

  // ---------- One split, as written ----------

  /** The pages after a split whose bounds check passed. */
  function Cut(p: Pages, t: Tree, i: nat, newId: nat, blank: Page): Pages
    requires HasRoom(p, t.id) && i <= p[t.id].keysCount && i < |t.kids| && HasFull(p, t.kids[i].id)
  {
    var d, c := p[t.id], p[t.kids[i].id];
    p[t.id := d.(keysCount := d.keysCount + 1, keys := d.keys[i := c.keys[ORDER - 1]],
                 children := d.children[i + 1 := newId])]
     [t.kids[i].id := c.(keysCount := ORDER - 1)]
     [newId := UpperPage(c, blank)]
  }

  lemma SplitStep(p: Pages, t: Tree, i: nat, newId: nat, blank: Page)
    requires Represents(p, t) && !IsFull(t) && i < |t.kids| && IsFull(t.kids[i])
    ensures HasRoom(p, t.id) && i <= p[t.id].keysCount && HasFull(p, t.kids[i].id)
    ensures p[t.id].children[i] == t.kids[i].id
    ensures SplitPages(p, t.id, i, newId, blank) ==
            if |t.keys| > t.kids[i].id then None else Some(Cut(p, t, i, newId, blank))
  {
    ParentAsWrittenIs(p[t.id], t.kids[i].id, i, p[t.kids[i].id].keys[ORDER - 1], newId);
  }

  /** The three ways an insertion as written takes its first step. */
  lemma FirstStep(p: Pages, t: Tree, k: nat, last: nat, h: nat, blank: nat -> Page)
    requires Represents(p, t) && Shape(t, h) && !IsFull(t)
    ensures HasRoom(p, t.id) && Position(t.keys, k) <= p[t.id].keysCount
    ensures p[t.id].keys[..p[t.id].keysCount] == t.keys
    ensures var i, r := Position(t.keys, k), WrittenNonFull(p, t.id, k, last, h, blank);
            if t.kids == [] then r == Ended(p[t.id := LeafPage(p[t.id], i, k)], last)
            else if IsFull(t.kids[i]) then
              HasFull(p, t.kids[i].id) &&
              r == if |t.keys| > t.kids[i].id then Stopped
                   else WrittenNonFull(Cut(p, t, i, last + 1, blank(last + 1)), t.kids[i].id, k, last + 1, h - 1, blank)
            else r == WrittenNonFull(p, t.kids[i].id, k, last, h - 1, blank)
  {
    var i := Position(t.keys, k);
    if t.kids != [] {
      assert p[t.id].children[i] == t.kids[i].id;
      if IsFull(t.kids[i]) {
        SplitStep(p, t, i, last + 1, blank(last + 1));
      } else {
        assert !HasFull(p, t.kids[i].id) by { assert Represents(p, t.kids[i]); }
      }
    }
  }

  lemma UpperMatches(d: Page, c: Tree, newId: nat, blank: Page)
    requires Matches(d, c) && IsFull(c)
    ensures Matches(UpperPage(d, blank), UpperHalf(c, newId))
  {
    var u, d' := UpperHalf(c, newId), UpperPage(d, blank);
    assert d'.keys[..ORDER - 1] == d.keys[..d.keysCount][ORDER..];
    forall j | 0 <= j < |u.kids|
      ensures d'.children[j] == u.kids[j].id
    {
      assert u.kids[j] == c.kids[ORDER + j];
    }
  }

  lemma HalvesUse(c: Tree, newId: nat, h: nat, last: nat)
    requires IsFull(c) && Shape(c, h) && OwnPages(c, last) && newId > last
    ensures forall x: nat :: Uses(LowerHalf(c), x) + Uses(UpperHalf(c, newId), x) == Uses(c, x) + if x == newId then 1 else 0
    ensures OwnPages(LowerHalf(c), last)
    ensures forall j :: 0 <= j < |LowerHalf(c).kids| ==> j < |c.kids| && LowerHalf(c).kids[j] == c.kids[j]
    ensures forall j :: 0 <= j < |UpperHalf(c, newId).kids| ==>
              ORDER + j < |c.kids| && UpperHalf(c, newId).kids[j] == c.kids[ORDER + j]
  {
    forall x: nat
      ensures Uses(LowerHalf(c), x) + Uses(UpperHalf(c, newId), x) == Uses(c, x) + if x == newId then 1 else 0
    {
      HalvesTally(c, newId, Only(x));
    }
    assert Uses(UpperHalf(c, newId), newId) > 0;
    forall x: nat
      ensures Uses(LowerHalf(c), x) <= if x <= last then 1 else 0
    {
      assert Uses(c, x) <= if x <= last then 1 else 0;
    }
  }

  lemma LowerId(c: Tree)
    requires IsFull(c)
    ensures LowerHalf(c).id == c.id
  {
  }

  lemma UpperId(c: Tree, newId: nat)
    requires IsFull(c)
    ensures UpperHalf(c, newId).id == newId
  {
  }

  /** What the cut pages still hold. */
  lemma CutHolds(p: Pages, t: Tree, i: nat, last: nat, h: nat, blank: Page)
    requires Represents(p, t) && Shape(t, h) && OwnPages(t, last) && !IsFull(t) && i < |t.kids| && IsFull(t.kids[i])
    requires HasRoom(p, t.id) && i <= p[t.id].keysCount && HasFull(p, t.kids[i].id)
    ensures var c, m := t.kids[i], Cut(p, t, i, last + 1, blank);
            && Represents(m, LowerHalf(c)) && Represents(m, UpperHalf(c, last + 1))
            && (forall j :: 0 <= j < |t.kids| && j != i ==> Represents(m, t.kids[j]))
            && (forall x: nat :: x in p && x <= last && x != t.id && x != c.id ==> m[x] == p[x])
            && Shape(LowerHalf(c), h - 1) && Shape(UpperHalf(c, last + 1), h - 1)
            && !IsFull(LowerHalf(c)) && OwnPages(LowerHalf(c), last)
  {
    hide OwnPages, Matches, TallyAll, LowerHalf, UpperHalf, UpperPage;
    var c, newId := t.kids[i], last + 1;
    var m, l, u := Cut(p, t, i, newId, blank), LowerHalf(c), UpperHalf(c, newId);
    NodeFacts(p, t, h);
    LowerId(c);
    UpperId(c, newId);
    NodeFacts(p, c, h - 1);
    SplitApart(t, i, last);
    KidOwns(t, i, last);
    HalvesUse(c, newId, h - 1, last);
    SplitShape(t, i, newId, h);
    assert BTree.SplitChild(t, i, newId).kids[i] == l && BTree.SplitChild(t, i, newId).kids[i + 1] == u;
    forall j | 0 <= j < |t.kids| && j != i
      ensures Represents(m, t.kids[j])
    {
      FrameThree(p, t.kids[j], t.id, c.id, newId, m[t.id], m[c.id], m[newId]);
    }
    forall j | 0 <= j < |c.kids|
      ensures Represents(m, c.kids[j])
    {
      FrameThree(p, c.kids[j], t.id, c.id, newId, m[t.id], m[c.id], m[newId]);
    }
    LowerMatches(p[c.id], c);
    UpperMatches(p[c.id], c, newId, blank);
  }

  // ---------- What an insertion as written leaves alone ----------

  /** Pages outside the subtree stay, and no page inside comes to hold a higher tree than before. */
  ghost predicate Keeps(p: Pages, p': Pages, t: Tree, last: nat, last': nat, h: nat) {
    && last <= last' && Untouched(p, p', t, last)
    && NotHigh(p', t.id, h + 1)
    && forall x: nat :: (Uses(t, x) > 0 && x != t.id) || last < x <= last' ==> NotHigh(p', x, h)
  }

  lemma {:induction false} WrittenKeeps(p: Pages, t: Tree, k: nat, last: nat, h: nat, blank: nat -> Page)
    requires Represents(p, t) && Shape(t, h) && OwnPages(t, last) && !IsFull(t)
    requires WrittenNonFull(p, t.id, k, last, h, blank).Ended?
    ensures var r := WrittenNonFull(p, t.id, k, last, h, blank); Keeps(p, r.pages, t, last, r.last, h)
    decreases h
  {
    hide WrittenNonFull, LowerHalf, UpperHalf, NotHigh;
    var i, r := Position(t.keys, k), WrittenNonFull(p, t.id, k, last, h, blank);
    FirstStep(p, t, k, last, h, blank);
    NodeFacts(p, t, h);
    if t.kids == [] {
      LeafKeeps(p, r.pages, t, last, h);
    } else if IsFull(t.kids[i]) {
      var c, m := t.kids[i], Cut(p, t, i, last + 1, blank(last + 1));
      CutHolds(p, t, i, last, h, blank(last + 1));
      OwnsLater(LowerHalf(c), last);
      LowerId(c);
      WrittenKeeps(m, LowerHalf(c), k, last + 1, h - 1, blank);
      SplitKeeps(p, m, r.pages, t, i, last, r.last, h, blank(last + 1));
    } else {
      KidOwns(t, i, last);
      WrittenKeeps(p, t.kids[i], k, last, h - 1, blank);
      KidKeeps(p, r.pages, t, i, last, r.last, h);
    }
  }

  lemma OwnsLater(t: Tree, last: nat)
    requires OwnPages(t, last)
    ensures OwnPages(t, last + 1)
  {
    assert forall x: nat :: Uses(t, x) <= if x <= last then 1 else 0;
  }

  lemma LeafKeeps(p: Pages, p': Pages, t: Tree, last: nat, h: nat)
    requires Shape(t, h) && t.kids == [] && Represents(p, t)
    requires t.id in p' && p'[t.id].isLeaf && p' == p[t.id := p'[t.id]]
    ensures Keeps(p, p', t, last, last, h)
  {
    forall x: nat
      ensures Uses(t, x) == if x == t.id then 1 else 0
    {
      assert TallyAll(t.kids, Only(x)) == 0;
    }
  }

  /** A node is as high as its first child makes it. */
  lemma FirstKidNotHigh(p: Pages, p': Pages, t: Tree, h: nat)
    requires Represents(p, t) && t.kids != [] && t.id in p' && !p'[t.id].isLeaf
    requires |p'[t.id].children| > 0 && p'[t.id].children[0] == t.kids[0].id
    requires NotHigh(p', t.kids[0].id, h)
    ensures NotHigh(p', t.id, h + 1)
  {
    forall g: Tree, hg: nat | Represents(p', g) && g.id == t.id && Shape(g, hg)
      ensures hg < h + 1
    {
      assert Represents(p', g.kids[0]) && g.kids[0].id == t.kids[0].id && Shape(g.kids[0], hg - 1);
    }
  }

  /** The pages of the other children are not among those that may change. */
  lemma OtherKidKept(p: Pages, p': Pages, t: Tree, i: nat, j: nat, last: nat)
    requires Represents(p, t) && OwnPages(t, last) && i < |t.kids| && j < |t.kids| && i != j
    requires Untouched(p, p', t.kids[i], last)
    ensures forall y: nat :: Uses(t.kids[j], y) > 0 ==> y in p && y in p' && p'[y] == p[y]
    ensures Represents(p', t.kids[j])
  {
    forall y: nat | Uses(t.kids[j], y) > 0
      ensures y in p && y in p' && p'[y] == p[y]
    {
      KidUses(t.kids, i, y);
      KidUses(t.kids, j, y);
      assert Uses(t, y) <= if y <= last then 1 else 0;
      UsedIsThere(p, t.kids[j], y);
    }
    Frame(p, p', t.kids[j]);
  }

  lemma KidKeeps(p: Pages, p': Pages, t: Tree, i: nat, last: nat, last': nat, h: nat)
    requires Represents(p, t) && Shape(t, h) && OwnPages(t, last) && i < |t.kids|
    requires Keeps(p, p', t.kids[i], last, last', h - 1)
    ensures Keeps(p, p', t, last, last', h)
  {
    hide NotHigh;
    KidOwns(t, i, last);
    assert Untouched(p, p', t, last);
    assert p'[t.id] == p[t.id];
    forall x: nat | Uses(t, x) > 0 && x != t.id
      ensures NotHigh(p', x, h)
    {
      var j := UserAmong(t.kids, x);
      if Uses(t.kids[i], x) > 0 {
        if x != t.kids[i].id {
          NotHigher(p', x, h - 1, h);
        }
      } else {
        OtherKidKept(p, p', t, i, j, last);
        KeptNotHigh(p, p', t.kids[j], h - 1, x);
      }
    }
    forall x: nat | last < x <= last'
      ensures NotHigh(p', x, h)
    {
      NotHigher(p', x, h - 1, h);
    }
    KidOwns(t, 0, last);
    UsesOwnPage(t.kids[0]);
    FirstKidNotHigh(p, p', t, h);
  }

  /** A split whose lower half was worked on afterwards. */
  ghost predicate CutThen(p: Pages, m: Pages, p': Pages, t: Tree, i: nat, last: nat, h: nat, blank: Page) {
    && Represents(p, t) && Shape(t, h) && OwnPages(t, last) && !IsFull(t) && i < |t.kids| && IsFull(t.kids[i])
    && HasRoom(p, t.id) && i <= p[t.id].keysCount && HasFull(p, t.kids[i].id)
    && m == Cut(p, t, i, last + 1, blank) && Untouched(m, p', LowerHalf(t.kids[i]), last + 1)
  }

  lemma CutUntouched(p: Pages, m: Pages, p': Pages, t: Tree, i: nat, last: nat, h: nat, blank: Page)
    requires CutThen(p, m, p', t, i, last, h, blank)
    ensures Untouched(p, p', t, last) && t.id in p' && t.id in m && p'[t.id] == m[t.id]
  {
    hide LowerHalf, UpperHalf, Shape, Matches, Represents, TallyAll;
    var c := t.kids[i];
    NodeFacts(p, t, h);
    CutHolds(p, t, i, last, h, blank);
    SplitApart(t, i, last);
    KidOwns(t, i, last);
    HalvesUse(c, last + 1, h - 1, last);
    UsesOwnPage(t);
    UsesOwnPage(c);
    forall x: nat | x in p && Uses(t, x) == 0 && x <= last
      ensures x in p' && p'[x] == p[x]
    {
      KidUses(t.kids, i, x);
      assert Uses(LowerHalf(c), x) == 0;
    }
    assert Uses(LowerHalf(c), t.id) == 0;
  }

  lemma SplitKeeps(p: Pages, m: Pages, p': Pages, t: Tree, i: nat, last: nat, last': nat, h: nat, blank: Page)
    requires CutThen(p, m, p', t, i, last, h, blank) && Keeps(m, p', LowerHalf(t.kids[i]), last + 1, last', h - 1)
    ensures Keeps(p, p', t, last, last', h)
  {
    hide NotHigh, LowerHalf, UpperHalf, Cut, OwnPages, TallyAll, Matches;
    CutUntouched(p, m, p', t, i, last, h, blank);
    forall x: nat | Uses(t, x) > 0 && x != t.id
      ensures NotHigh(p', x, h)
    {
      CutNotHigh(p, m, p', t, i, last, last', h, blank, x);
    }
    forall x: nat | last < x <= last'
      ensures NotHigh(p', x, h)
    {
      if x == last + 1 {
        UpperNotHigh(p, m, p', t, i, last, h, blank, x);
      } else {
        NotHigher(p', x, h - 1, h);
      }
    }
    CutFirstKid(p, t, i, last, h, blank);
    CutNotHigh(p, m, p', t, i, last, last', h, blank, t.kids[0].id);
    FirstKidNotHigh(p, p', t, h);
  }

  lemma CutFirstKid(p: Pages, t: Tree, i: nat, last: nat, h: nat, blank: Page)
    requires Represents(p, t) && Shape(t, h) && OwnPages(t, last) && !IsFull(t) && i < |t.kids| && IsFull(t.kids[i])
    requires HasRoom(p, t.id) && i <= p[t.id].keysCount && HasFull(p, t.kids[i].id)
    ensures var d := Cut(p, t, i, last + 1, blank)[t.id];
            !d.isLeaf && |d.children| > 0 && d.children[0] == t.kids[0].id
    ensures Uses(t, t.kids[0].id) > 0 && t.kids[0].id != t.id
  {
    SplitApart(t, i, last);
    UsesOwnPage(t.kids[0]);
    KidOwns(t, 0, last);
  }

  lemma UpperNotHigh(p: Pages, m: Pages, p': Pages, t: Tree, i: nat, last: nat, h: nat, blank: Page, x: nat)
    requires CutThen(p, m, p', t, i, last, h, blank)
    requires Uses(UpperHalf(t.kids[i], last + 1), x) > 0 || x == last + 1
    ensures NotHigh(p', x, h)
  {
    hide NotHigh, LowerHalf, UpperHalf, Cut;
    var c := t.kids[i];
    CutHolds(p, t, i, last, h, blank);
    KidOwns(t, i, last);
    UpperId(c, last + 1);
    UsesOwnPage(UpperHalf(c, last + 1));
    UpperKept(m, p', c, last, h - 1);
    KeptNotHigh(m, p', UpperHalf(c, last + 1), h - 1, x);
  }

  lemma CutNotHigh(p: Pages, m: Pages, p': Pages, t: Tree, i: nat, last: nat, last': nat, h: nat, blank: Page, x: nat)
    requires CutThen(p, m, p', t, i, last, h, blank) && Keeps(m, p', LowerHalf(t.kids[i]), last + 1, last', h - 1)
    requires Uses(t, x) > 0 && x != t.id
    ensures NotHigh(p', x, h)
  {
    hide NotHigh, LowerHalf, UpperHalf, Cut, Matches, Represents;
    var c := t.kids[i];
    var j := UserAmong(t.kids, x);
    if Uses(c, x) > 0 {
      KidOwns(t, i, last);
      LowerId(c);
      HalvesUse(c, last + 1, h - 1, last);
      if Uses(LowerHalf(c), x) == 0 {
        UpperNotHigh(p, m, p', t, i, last, h, blank, x);
      } else if x != c.id {
        NotHigher(p', x, h - 1, h);
      }
    } else {
      KidAfterCut(p, m, p', t, i, j, last, h, blank);
      KeptNotHigh(m, p', t.kids[j], h - 1, x);
    }
  }

  /** The upper half is out of the way of what happens in the lower one. */
  lemma UpperKept(m: Pages, p': Pages, c: Tree, last: nat, h: nat)
    requires IsFull(c) && Shape(c, h) && OwnPages(c, last) && Represents(m, UpperHalf(c, last + 1))
    requires Untouched(m, p', LowerHalf(c), last + 1)
    ensures forall y: nat :: Uses(UpperHalf(c, last + 1), y) > 0 ==> y in m && y in p' && p'[y] == m[y]
    ensures Represents(p', UpperHalf(c, last + 1))
  {
    hide LowerHalf, UpperHalf;
    var u := UpperHalf(c, last + 1);
    HalvesUse(c, last + 1, h, last);
    forall y: nat | Uses(u, y) > 0
      ensures y in m && y in p' && p'[y] == m[y]
    {
      assert Uses(c, y) <= if y <= last then 1 else 0;
      UsedIsThere(m, u, y);
    }
    Frame(m, p', u);
  }

  lemma KidAfterCut(p: Pages, m: Pages, p': Pages, t: Tree, i: nat, j: nat, last: nat, h: nat, blank: Page)
    requires CutThen(p, m, p', t, i, last, h, blank) && j < |t.kids| && j != i
    ensures forall y: nat :: Uses(t.kids[j], y) > 0 ==> y in p && y in m && y in p' && p'[y] == m[y] == p[y]
    ensures Represents(m, t.kids[j]) && Represents(p', t.kids[j])
  {
    hide LowerHalf, UpperHalf;
    var c := t.kids[i];
    CutHolds(p, t, i, last, h, blank);
    KidOwns(t, i, last);
    HalvesUse(c, last + 1, h - 1, last);
    SplitApart(t, i, last);
    forall y: nat | Uses(t.kids[j], y) > 0
      ensures y in p && y in m && y in p' && p'[y] == m[y] == p[y]
    {
      KidUses(t.kids, i, y);
      KidUses(t.kids, j, y);
      assert Uses(t, y) <= if y <= last then 1 else 0;
      UsedIsThere(p, t.kids[j], y);
      assert Uses(LowerHalf(c), y) == 0;
    }
    Frame(p, p', t.kids[j]);
  }

  // ---------- Where the condition holds ----------

  /** The two files have the same slots on the pages of t, live or not. */
  ghost predicate SameSlots(p: Pages, m: Pages, t: Tree) {
    forall x: nat :: Uses(t, x) > 0 ==>
      x in p && x in m && p[x].keys == m[x].keys && p[x].children == m[x].children
  }

  lemma SlotsBelow(p: Pages, m: Pages, t: Tree, i: nat)
    requires SameSlots(p, m, t) && i < |t.kids|
    ensures SameSlots(p, m, t.kids[i])
    ensures IsFull(t.kids[i]) && (t.kids[i].kids == [] || |t.kids[i].kids| == MAX_KEYS + 1) ==>
              SameSlots(p, m, LowerHalf(t.kids[i]))
  {
    var c := t.kids[i];
    forall x: nat | Uses(c, x) > 0
      ensures Uses(t, x) > 0
    {
      KidUses(t.kids, i, x);
    }
    if IsFull(c) && (c.kids == [] || |c.kids| == MAX_KEYS + 1) {
      forall x: nat | Uses(LowerHalf(c), x) > 0
        ensures Uses(c, x) > 0
      {
        HalvesTally(c, c.id, Only(x));
        UsesOwnPage(c);
      }
    }
  }

  lemma {:induction false} FitsFrame(p: Pages, m: Pages, t: Tree, k: nat, h: nat)
    requires Shape(t, h) && !IsFull(t) && SameSlots(p, m, t)
    ensures DescentFits(p, t, k, h) <==> DescentFits(m, t, k, h)
    decreases h
  {
    hide LowerHalf, RightAllSame, SameSlots;
    if t.kids != [] {
      var i := Position(t.keys, k);
      SlotsBelow(p, m, t, i);
      SlotsHere(p, m, t);
      if IsFull(t.kids[i]) {
        SplitShape(t, i, 0, h);
        assert Shape(t.kids[i], h - 1);
        FitsFrame(p, m, LowerHalf(t.kids[i]), k, h - 1);
      } else {
        FitsFrame(p, m, t.kids[i], k, h - 1);
      }
    }
  }

  lemma SlotsHere(p: Pages, m: Pages, t: Tree)
    requires SameSlots(p, m, t)
    ensures t.id in p && t.id in m && p[t.id].keys == m[t.id].keys && p[t.id].children == m[t.id].children
  {
    UsesOwnPage(t);
  }

  /** Order, from the order of the parts. */
  lemma SortedFromKids(t: Tree)
    requires |t.kids| == |t.keys| + 1 && Sorted(t.keys)
    requires forall j :: 0 <= j < |t.kids| ==> Between(t, j) && Sorted(Flat(t.kids[j]))
    ensures Sorted(Flat(t))
  {
    var i := |t.keys|;
    SortedIfSeparated(t, i);
    KidAbove(t, i, Left(t, i));
    SortedConcat(Left(t, i), Flat(t.kids[i]));
    FlatAt(t, i);
  }

  /** All keys of a list of trees, in any order. */
  function KeysOf(kids: seq<Tree>): multiset<nat> {
    if kids == [] then multiset{} else multiset(Flat(kids[0])) + KeysOf(kids[1..])
  }

  lemma {:induction false} KeysOfConcat(a: seq<Tree>, b: seq<Tree>)
    ensures KeysOf(a + b) == KeysOf(a) + KeysOf(b)
  {
    hide KeysOf;
    KeysOfSplit(a);
    KeysOfSplit(a + b);
    if a == [] {
      assert a + b == b;
    } else {
      KeysOfConcat(a[1..], b);
      assert (a + b)[1..] == a[1..] + b;
    }
  }

  lemma KeysOfSplit(kids: seq<Tree>)
    ensures KeysOf(kids) == if kids == [] then multiset{} else multiset(Flat(kids[0])) + KeysOf(kids[1..])
  {
  }

  lemma {:induction false} AfterKeys(keys: seq<nat>, kids: seq<Tree>)
    requires |kids| == |keys|
    ensures multiset(After(keys, kids)) == multiset(keys) + KeysOf(kids)
  {
    if keys != [] {
      AfterKeys(keys[1..], kids[1..]);
      assert keys == [keys[0]] + keys[1..];
    }
  }

  /** The keys of a node: its own, and those of its children. */
  lemma FlatKeys(t: Tree)
    requires |t.kids| == |t.keys| + 1
    ensures multiset(Flat(t)) == multiset(t.keys) + KeysOf(t.kids)
  {
    AfterKeys(t.keys, t.kids[1..]);
  }

  lemma KeysOfOne(c: Tree)
    ensures KeysOf([c]) == multiset(Flat(c))
  {
    assert [c][1..] == [];
  }

  lemma TallyOne(c: Tree, w: nat -> nat)
    ensures TallyAll([c], w) == Tally(c, w)
  {
    assert [c][1..] == [];
  }

  /** The children of a node around children i and i + 1. */
  lemma KidsAround(t: Tree, i: nat)
    requires i + 1 < |t.kids|
    ensures KeysOf(t.kids) == KeysOf(t.kids[..i]) + multiset(Flat(t.kids[i])) + multiset(Flat(t.kids[i + 1]))
                              + KeysOf(t.kids[i + 2..])
    ensures forall w: nat -> nat :: TallyAll(t.kids, w) ==
              TallyAll(t.kids[..i], w) + Tally(t.kids[i], w) + Tally(t.kids[i + 1], w) + TallyAll(t.kids[i + 2..], w)
  {
    hide Flat, Tally;
    var a, b, c, d := t.kids[..i], t.kids[i], t.kids[i + 1], t.kids[i + 2..];
    assert t.kids == (a + [b]) + ([c] + d);
    KeysOfConcat(a + [b], [c] + d);
    KeysOfConcat(a, [b]);
    KeysOfConcat([c], d);
    KeysOfOne(b);
    KeysOfOne(c);
    forall w: nat -> nat
      ensures TallyAll(t.kids, w) == TallyAll(a, w) + Tally(b, w) + Tally(c, w) + TallyAll(d, w)
    {
      TallyConcat(a + [b], [c] + d, w);
      TallyConcat(a, [b], w);
      TallyConcat([c], d, w);
      TallyOne(b, w);
      TallyOne(c, w);
    }
  }

  /** A node in which child i was cut and child i + 1 replaced by one at the end. */
  function Overwritten(t: Tree, i: nat, low: Tree, newId: nat, dead: nat, g: Tree): Tree
    requires i < |t.keys| && |t.kids| == |t.keys| + 1 && IsFull(t.kids[i])
  {
    var c := t.kids[i];
    Tree(t.id, t.keys[i := c.keys[ORDER - 1]] + [dead],
         t.kids[..i] + [low, UpperHalf(c, newId)] + t.kids[i + 2..] + [g])
  }

  lemma OverwrittenKids(t: Tree, i: nat, low: Tree, newId: nat, dead: nat, g: Tree)
    requires i < |t.keys| && |t.kids| == |t.keys| + 1 && IsFull(t.kids[i])
    ensures var o, n := Overwritten(t, i, low, newId, dead, g), |t.keys|;
            && |o.kids| == n + 2 && |o.keys| == n + 1 && o.id == t.id
            && o.kids[i] == low && o.kids[i + 1] == UpperHalf(t.kids[i], newId) && o.kids[n + 1] == g
            && (forall j :: 0 <= j < i || i + 1 < j < n + 1 ==> o.kids[j] == t.kids[j])
            && o.keys[i] == t.kids[i].keys[ORDER - 1] && o.keys[n] == dead
            && (forall j :: 0 <= j < n && j != i ==> o.keys[j] == t.keys[j])
  {
    hide UpperHalf;
  }

  lemma OverwrittenSums(t: Tree, i: nat, low: Tree, newId: nat, dead: nat, g: Tree)
    requires i < |t.keys| && |t.kids| == |t.keys| + 1 && IsFull(t.kids[i])
    ensures var o, c, u := Overwritten(t, i, low, newId, dead, g), t.kids[i], UpperHalf(t.kids[i], newId);
            && multiset(Flat(o)) + multiset(Flat(c)) + multiset(Flat(t.kids[i + 1])) + multiset{t.keys[i]} ==
               multiset(Flat(t)) + multiset(Flat(low)) + multiset(Flat(u)) + multiset(Flat(g))
               + multiset{c.keys[ORDER - 1], dead}
            && forall w: nat -> nat ::
                 Tally(o, w) + Tally(c, w) + Tally(t.kids[i + 1], w) == Tally(t, w) + Tally(low, w) + Tally(u, w) + Tally(g, w)
  {
    hide Flat, UpperHalf, Tally, TallyAll, KeysOf;
    var o, c, u := Overwritten(t, i, low, newId, dead, g), t.kids[i], UpperHalf(t.kids[i], newId);
    var x := Tree(t.id, t.keys, o.kids[..|t.kids|]);
    OverwrittenFront(t, i, low, newId, dead, g);
    KidsAround(t, i);
    KidsAround(x, i);
    forall w: nat -> nat
      ensures Tally(o, w) + Tally(c, w) + Tally(t.kids[i + 1], w) == Tally(t, w) + Tally(low, w) + Tally(u, w) + Tally(g, w)
    {
      TallyConcat(x.kids, [g], w);
      TallyOne(g, w);
      TallyIs(o, w);
      TallyIs(t, w);
    }
    FlatKeys(t);
    FlatKeys(o);
    KeysOfConcat(x.kids, [g]);
    KeysOfOne(g);
    OneKeyChanged(t.keys, i, c.keys[ORDER - 1], dead);
    Sums(multiset(o.keys), multiset(t.keys), multiset{t.keys[i]}, multiset{c.keys[ORDER - 1], dead},
         KeysOf(t.kids[..i]), KeysOf(t.kids[i + 2..]), multiset(Flat(c)), multiset(Flat(t.kids[i + 1])),
         multiset(Flat(low)), multiset(Flat(u)), multiset(Flat(g)));
  }

  /** All children but the last. */
  lemma OverwrittenFront(t: Tree, i: nat, low: Tree, newId: nat, dead: nat, g: Tree)
    requires i < |t.keys| && |t.kids| == |t.keys| + 1 && IsFull(t.kids[i])
    ensures var o, n := Overwritten(t, i, low, newId, dead, g), |t.kids|;
            && |o.kids| == n + 1 && o.kids == o.kids[..n] + [g]
            && o.kids[..n][..i] == t.kids[..i] && o.kids[..n][i + 2..] == t.kids[i + 2..]
            && o.kids[i] == low && o.kids[i + 1] == UpperHalf(t.kids[i], newId)
            && o.keys == t.keys[i := t.kids[i].keys[ORDER - 1]] + [dead] && o.id == t.id
  {
    hide UpperHalf;
  }

  lemma Sums(ok: multiset<nat>, tk: multiset<nat>, ki: multiset<nat>, md: multiset<nat>, a: multiset<nat>, b: multiset<nat>,
             c: multiset<nat>, k1: multiset<nat>, low: multiset<nat>, u: multiset<nat>, g: multiset<nat>)
    requires ok + ki == tk + md
    ensures (ok + (a + low + u + b + g)) + c + k1 + ki == (tk + (a + c + k1 + b)) + low + u + g + md
  {
    forall x
      ensures ((ok + (a + low + u + b + g)) + c + k1 + ki)[x] == ((tk + (a + c + k1 + b)) + low + u + g + md)[x]
    {
      assert (ok + ki)[x] == (tk + md)[x];
    }
  }

  lemma TallyIs(t: Tree, w: nat -> nat)
    ensures Tally(t, w) == w(t.id) + TallyAll(t.kids, w)
  {
  }

  lemma OneKeyChanged(keys: seq<nat>, i: nat, k: nat, dead: nat)
    requires i < |keys|
    ensures multiset(keys[i := k] + [dead]) + multiset{keys[i]} == multiset(keys) + multiset{k, dead}
  {
    assert keys == keys[..i] + [keys[i]] + keys[i + 1..];
    assert keys[i := k] == keys[..i] + [k] + keys[i + 1..];
  }

  lemma HalvesOrdered(c: Tree, newId: nat, h: nat)
    requires IsFull(c) && Shape(c, h) && Sorted(Flat(c))
    ensures Sorted(Flat(LowerHalf(c))) && Sorted(Flat(UpperHalf(c, newId)))
    ensures var m := c.keys[ORDER - 1];
            && m in Flat(c)
            && (forall x :: x in Flat(LowerHalf(c)) ==> x <= m && x in Flat(c))
            && (forall x :: x in Flat(UpperHalf(c, newId)) ==> m <= x && x in Flat(c))
    ensures multiset(Flat(c)) == multiset(Flat(LowerHalf(c))) + multiset{c.keys[ORDER - 1]}
                                 + multiset(Flat(UpperHalf(c, newId)))
  {
    hide Flat, LowerHalf, UpperHalf;
    assert c.kids == [] || |c.kids| == MAX_KEYS + 1;
    HalvesKeepKeys(c, newId);
    SortedConcat3(Flat(LowerHalf(c)), [c.keys[ORDER - 1]], Flat(UpperHalf(c, newId)));
  }

  /** The node around a harmless split in the middle. */
  function Turned(t: Tree, i: nat, newId: nat): Tree
    requires i < |t.keys| && |t.kids| == |t.keys| + 1 && IsFull(t.kids[i])
  {
    Overwritten(t, i, LowerHalf(t.kids[i]), newId, t.keys[i], t.kids[i + 1])
  }

  lemma TurnedSorted(p: Pages, t: Tree, i: nat, newId: nat, h: nat)
    requires Shape(t, h) && !IsFull(t) && i < |t.keys| && |t.kids| == |t.keys| + 1 && IsFull(t.kids[i])
    requires Sorted(Flat(t)) && (i + 1 == |t.keys| || RightAllSame(t, i))
    ensures Sorted(Flat(Turned(t, i, newId)))
  {
    hide Flat, LowerHalf, UpperHalf, Overwritten;
    var s, c, n := Turned(t, i, newId), t.kids[i], |t.keys|;
    OverwrittenKids(t, i, LowerHalf(c), newId, t.keys[i], t.kids[i + 1]);
    SeparatedIfSorted(t);
    HalvesOrdered(c, newId, h - 1);
    assert Between(t, i) && Between(t, i + 1);
    forall a, b | 0 <= a < b < |s.keys|
      ensures s.keys[a] <= s.keys[b]
    {
    }
    forall j | 0 <= j < |s.kids|
      ensures Between(s, j) && Sorted(Flat(s.kids[j]))
    {
      if j < |t.kids| {
        assert Between(t, j) && Sorted(Flat(t.kids[j]));
      }
    }
    SortedFromKids(s);
  }

  lemma TurnedShape(t: Tree, i: nat, newId: nat, h: nat)
    requires Shape(t, h) && !IsFull(t) && i < |t.keys| && |t.kids| == |t.keys| + 1 && IsFull(t.kids[i])
    ensures Shape(Turned(t, i, newId), h) && Turned(t, i, newId).id == t.id
  {
    hide LowerHalf, UpperHalf, Overwritten;
    var s, c := Turned(t, i, newId), t.kids[i];
    OverwrittenKids(t, i, LowerHalf(c), newId, t.keys[i], t.kids[i + 1]);
    SplitShape(t, i, newId, h);
    var z := BTree.SplitChild(t, i, newId);
    assert z.kids[i] == LowerHalf(c) && z.kids[i + 1] == UpperHalf(c, newId);
    forall j | 0 <= j < |s.kids|
      ensures Filled(s.kids[j]) && Shape(s.kids[j], h - 1)
    {
    }
  }

  /** What a harmless split makes of the node. */
  function AfterFit(t: Tree, i: nat, newId: nat): Tree
    requires |t.kids| == |t.keys| + 1 && i < |t.kids| && IsFull(t.kids[i])
  {
    if i == |t.keys| then BTree.SplitChild(t, i, newId) else Turned(t, i, newId)
  }

  lemma TurnedMatches(d: DiskNode, d': DiskNode, t: Tree, i: nat, newId: nat)
    requires Matches(d, t) && !IsFull(t) && i < |t.keys| && |t.kids| == |t.keys| + 1 && IsFull(t.kids[i])
    requires d' == d.(keysCount := d.keysCount + 1, keys := d.keys[i := t.kids[i].keys[ORDER - 1]],
                      children := d.children[i + 1 := newId])
    requires d.keys[|t.keys|] == t.keys[i] && d.children[|t.keys| + 1] == t.kids[i + 1].id
    ensures Matches(d', Turned(t, i, newId))
  {
    hide LowerHalf, UpperHalf, Overwritten;
    var s, c, n := Turned(t, i, newId), t.kids[i], |t.keys|;
    OverwrittenKids(t, i, LowerHalf(c), newId, t.keys[i], t.kids[i + 1]);
    UpperId(c, newId);
    LowerId(c);
    assert forall j :: 0 <= j < n ==> d.keys[j] == d.keys[..n][j];
    assert d'.keys[..n + 1] == s.keys;
    forall j | 0 <= j < |s.kids|
      ensures d'.children[j] == s.kids[j].id
    {
      if j <= n { assert d.children[j] == t.kids[j].id; }
    }
  }

  lemma TurnedHeld(p: Pages, t: Tree, i: nat, last: nat, h: nat, blank: Page)
    requires Represents(p, t) && Shape(t, h) && OwnPages(t, last) && !IsFull(t) && i < |t.keys| && |t.kids| == |t.keys| + 1
    requires IsFull(t.kids[i]) && SplitFits(p, t, i)
    requires HasRoom(p, t.id) && i <= p[t.id].keysCount && HasFull(p, t.kids[i].id)
    ensures Represents(Cut(p, t, i, last + 1, blank), Turned(t, i, last + 1))
  {
    hide LowerHalf, UpperHalf, Overwritten, OwnPages, UpperPage, RightAllSame, Matches, Shape;
    var s, c, m := Turned(t, i, last + 1), t.kids[i], Cut(p, t, i, last + 1, blank);
    NodeFacts(p, t, h);
    NodeFacts(p, c, h - 1);
    MedianOf(p[c.id], c);
    CutHolds(p, t, i, last, h, blank);
    CutApart(p, t, i, last, h);
    OverwrittenKids(t, i, LowerHalf(c), last + 1, t.keys[i], t.kids[i + 1]);
    TurnedMatches(p[t.id], m[t.id], t, i, last + 1);
  }

  lemma MedianOf(d: DiskNode, c: Tree)
    requires Matches(d, c) && IsFull(c)
    ensures d.keys[ORDER - 1] == c.keys[ORDER - 1]
  {
    assert d.keys[..MAX_KEYS][ORDER - 1] == d.keys[ORDER - 1];
  }

  lemma LastHeld(p: Pages, t: Tree, last: nat, h: nat, blank: Page)
    requires Represents(p, t) && Shape(t, h) && OwnPages(t, last) && !IsFull(t) && |t.kids| == |t.keys| + 1
    requires IsFull(t.kids[|t.keys|]) && SplitFits(p, t, |t.keys|)
    requires HasRoom(p, t.id) && |t.keys| <= p[t.id].keysCount && HasFull(p, t.kids[|t.keys|].id)
    ensures Represents(Cut(p, t, |t.keys|, last + 1, blank), BTree.SplitChild(t, |t.keys|, last + 1))
  {
    hide LowerHalf, UpperHalf, UpperPage;
    var i := |t.keys|;
    var c, m := t.kids[i], Cut(p, t, i, last + 1, blank);
    SplitApart(t, i, last);
    NodeFacts(p, t, h);
    NodeFacts(p, c, h - 1);
    FittingShiftAgrees(p[t.id], m[t.id], t, i, last + 1);
    LowerMatches(p[c.id], c);
    UpperMatches(p[c.id], c, last + 1, blank);
    GraftSplit(p, t, i, last + 1, m[t.id], m[c.id], m[last + 1]);
  }

  /** Node s, held by pages m, is node t with child i cut: the same keys, on the same pages and the new one. */
  ghost predicate Halved(m: Pages, t: Tree, s: Tree, i: nat, k: nat, last: nat, h: nat) {
    && Represents(m, s) && Shape(s, h) && s.id == t.id
    && Sorted(Flat(s)) && multiset(Flat(s)) == multiset(Flat(t))
    && OwnPages(s, last + 1) && UsesGrown(t, s, last, last + 1)
    && i < |t.kids| && |s.kids| == |s.keys| + 1 == |t.kids| + 1
    && IsFull(t.kids[i]) && s.kids[i] == LowerHalf(t.kids[i])
    && s.keys[i] == t.kids[i].keys[ORDER - 1] && (i > 0 ==> s.keys[i - 1] <= k)
  }

  /** A split that is about to be made. */
  ghost predicate Splits(p: Pages, t: Tree, i: nat, k: nat, last: nat, h: nat) {
    && Represents(p, t) && Shape(t, h) && Sorted(Flat(t)) && OwnPages(t, last) && !IsFull(t)
    && t.kids != [] && |t.kids| == |t.keys| + 1 && i == Position(t.keys, k) && IsFull(t.kids[i])
    && HasRoom(p, t.id) && i <= p[t.id].keysCount && HasFull(p, t.kids[i].id)
  }

  lemma LastFits(p: Pages, t: Tree, k: nat, last: nat, h: nat, blank: Page)
    requires Splits(p, t, |t.keys|, k, last, h) && SplitFits(p, t, |t.keys|)
    ensures var i := |t.keys|; Halved(Cut(p, t, i, last + 1, blank), t, BTree.SplitChild(t, i, last + 1), i, k, last, h)
  {
    hide LowerHalf, UpperHalf, Flat, Cut;
    var i, newId := |t.keys|, last + 1;
    var s := BTree.SplitChild(t, i, newId);
    NodeFacts(p, t, h);
    NodeShape(t.kids[i], h - 1);
    LastHeld(p, t, last, h, blank);
    SplitShape(t, i, newId, h);
    SplitKeepsKeys(t, i, newId);
    forall x: nat
      ensures Uses(s, x) == Uses(t, x) + if x == newId then 1 else 0
    {
      SplitTally(t, i, newId, Only(x));
    }
    UsesMore(t, s, last);
  }

  lemma TurnedFits(p: Pages, t: Tree, i: nat, k: nat, last: nat, h: nat, blank: Page)
    requires Splits(p, t, i, k, last, h) && SplitFits(p, t, i) && i < |t.keys|
    ensures Halved(Cut(p, t, i, last + 1, blank), t, Turned(t, i, last + 1), i, k, last, h)
  {
    hide LowerHalf, UpperHalf, Overwritten, Flat, Cut, RightAllSame;
    var s, c, newId := Turned(t, i, last + 1), t.kids[i], last + 1;
    NodeFacts(p, t, h);
    NodeShape(c, h - 1);
    TurnedHeld(p, t, i, last, h, blank);
    TurnedShape(t, i, newId, h);
    TurnedSorted(p, t, i, newId, h);
    OverwrittenKids(t, i, LowerHalf(c), newId, t.keys[i], t.kids[i + 1]);
    TurnedSums(t, i, newId, h);
    UsesMore(t, s, last);
  }

  lemma TurnedSums(t: Tree, i: nat, newId: nat, h: nat)
    requires i < |t.keys| && |t.kids| == |t.keys| + 1 && IsFull(t.kids[i]) && Shape(t, h) && Sorted(Flat(t))
    ensures multiset(Flat(Turned(t, i, newId))) == multiset(Flat(t))
    ensures forall x: nat :: Uses(Turned(t, i, newId), x) == Uses(t, x) + if x == newId then 1 else 0
  {
    hide LowerHalf, UpperHalf, Overwritten, Flat, TallyAll;
    var s, c := Turned(t, i, newId), t.kids[i];
    OverwrittenSums(t, i, LowerHalf(c), newId, t.keys[i], t.kids[i + 1]);
    KidSorted(t, i);
    NodeShape(c, h - 1);
    HalvesOrdered(c, newId, h - 1);
    Cancel(multiset(Flat(s)), multiset(Flat(t)), multiset(Flat(c)), multiset(Flat(t.kids[i + 1])),
           multiset(Flat(LowerHalf(c))), multiset(Flat(UpperHalf(c, newId))), c.keys[ORDER - 1], t.keys[i]);
    forall x: nat
      ensures Uses(s, x) == Uses(t, x) + if x == newId then 1 else 0
    {
      HalvesTally(c, newId, Only(x));
    }
  }

  lemma Cancel(o: multiset<nat>, t: multiset<nat>, c: multiset<nat>, g: multiset<nat>, l: multiset<nat>, u: multiset<nat>,
               m: nat, a: nat)
    requires o + c + g + multiset{a} == t + l + u + g + multiset{m, a} && c == l + multiset{m} + u
    ensures o == t
  {
    forall x
      ensures o[x] == t[x]
    {
      assert (o + c + g + multiset{a})[x] == (t + l + u + g + multiset{m, a})[x];
    }
  }

  lemma UsesMore(t: Tree, s: Tree, last: nat)
    requires OwnPages(t, last) && forall x: nat :: Uses(s, x) == Uses(t, x) + if x == last + 1 then 1 else 0
    ensures OwnPages(s, last + 1) && UsesGrown(t, s, last, last + 1)
  {
    forall x: nat
      ensures Uses(s, x) <= if x <= last + 1 then 1 else 0
    {
      assert Uses(t, x) <= if x <= last then 1 else 0;
    }
  }

  lemma NodeShape(t: Tree, h: nat)
    requires Shape(t, h)
    ensures t.kids == [] || |t.kids| == |t.keys| + 1
  {
  }

  // ---------- Insertion where the condition holds ----------

  ghost predicate RoomTaken(t: Tree, t': Tree) {
    |t.keys| <= |t'.keys| <= |t.keys| + 1 && (t.kids == [] <==> t'.kids == [])
  }

  /** A child that took in the key, seen from its node. */
  lemma KidTook(p: Pages, p': Pages, t: Tree, i: nat, c: Tree, k: nat, last: nat, last': nat, h: nat)
    requires Represents(p, t) && Shape(t, h) && Sorted(Flat(t)) && OwnPages(t, last)
    requires i < |t.kids| && |t.kids| == |t.keys| + 1 && !IsFull(t.kids[i])
    requires i > 0 ==> t.keys[i - 1] <= k
    requires i < |t.keys| ==> k <= t.keys[i]
    requires Took(p', last', t.kids[i], c, k, last, h - 1) && RoomTaken(t.kids[i], c)
    requires Untouched(p, p', t.kids[i], last)
    ensures Took(p', last', t, t.(kids := t.kids[i := c]), k, last, h)
  {
    hide Flat;
    var t' := t.(kids := t.kids[i := c]);
    GraftKid(p, p', t, i, c, last);
    GrowKid(t, i, c, k);
    forall x: nat
      ensures Uses(t', x) == Uses(t, x) + if last < x <= last' then 1 else 0
    {
      TallyReplace(t.kids, i, c, Only(x));
      assert Uses(c, x) == Uses(t.kids[i], x) + if last < x <= last' then 1 else 0;
    }
  }

  lemma TookTwice(p': Pages, m: Pages, t: Tree, s: Tree, t': Tree, i: nat, k: nat, last: nat, last': nat, h: nat)
    requires Halved(m, t, s, i, k, last, h) && Took(p', last', s, t', k, last + 1, h)
    ensures Took(p', last', t, t', k, last, h)
  {
    hide Flat, Represents, Shape, Uses, LowerHalf;
  }

  lemma {:induction false} FittingTakes(p: Pages, t: Tree, k: nat, last: nat, h: nat, blank: nat -> Page)
      returns (t': Tree)
    requires Represents(p, t) && Shape(t, h) && Sorted(Flat(t)) && OwnPages(t, last) && !IsFull(t)
    requires DescentFits(p, t, k, h)
    ensures var r := WrittenNonFull(p, t.id, k, last, h, blank);
            r.Ended? && Took(r.pages, r.last, t, t', k, last, h) && RoomTaken(t, t')
    decreases h
  {
    hide Flat, WrittenNonFull, LowerHalf, UpperHalf, Cut, SplitFits, Took, OwnPages, RoomTaken;
    var i := Position(t.keys, k);
    FirstStep(p, t, k, last, h, blank);
    NodeFacts(p, t, h);
    if t.kids == [] {
      t' := Tree(t.id, InsertAt(t.keys, i, k), []);
      LeafTook(p, t, k, last, h);
    } else if IsFull(t.kids[i]) {
      var l, m := LowerHalf(t.kids[i]), Cut(p, t, i, last + 1, blank(last + 1));
      LowerReady(p, t, i, k, last, h, blank(last + 1));
      var c := FittingTakes(m, l, k, last + 1, h - 1, blank);
      t' := SplitTook(p, t, i, c, k, last, h, blank);
    } else {
      KidSorted(t, i);
      KidOwns(t, i, last);
      var c := FittingTakes(p, t.kids[i], k, last, h - 1, blank);
      t' := PlainTook(p, t, i, c, k, last, h, blank);
    }
  }

  lemma PlainTook(p: Pages, t: Tree, i: nat, c: Tree, k: nat, last: nat, h: nat, blank: nat -> Page) returns (t': Tree)
    requires Represents(p, t) && Shape(t, h) && Sorted(Flat(t)) && OwnPages(t, last)
    requires t.kids != [] && i == Position(t.keys, k) && |t.kids| == |t.keys| + 1 && !IsFull(t.kids[i])
    requires var r := WrittenNonFull(p, t.kids[i].id, k, last, h - 1, blank);
             r.Ended? && Took(r.pages, r.last, t.kids[i], c, k, last, h - 1) && RoomTaken(t.kids[i], c)
    ensures var r := WrittenNonFull(p, t.kids[i].id, k, last, h - 1, blank);
            Took(r.pages, r.last, t, t', k, last, h) && RoomTaken(t, t')
  {
    hide Flat, WrittenNonFull, Took, OwnPages;
    var r := WrittenNonFull(p, t.kids[i].id, k, last, h - 1, blank);
    KidOwns(t, i, last);
    WrittenKeeps(p, t.kids[i], k, last, h - 1, blank);
    KidTook(p, r.pages, t, i, c, k, last, r.last, h);
    t' := t.(kids := t.kids[i := c]);
  }

  /** The lower half of a harmless split, ready for the rest of the way. */
  lemma LowerReady(p: Pages, t: Tree, i: nat, k: nat, last: nat, h: nat, blank: Page)
    requires Splits(p, t, i, k, last, h) && SplitFits(p, t, i)
    ensures var l, m := LowerHalf(t.kids[i]), Cut(p, t, i, last + 1, blank);
            && Represents(m, l) && Shape(l, h - 1) && Sorted(Flat(l)) && OwnPages(l, last + 1) && !IsFull(l)
            && l.id == t.kids[i].id && |t.keys| <= l.id && (DescentFits(m, l, k, h - 1) <==> DescentFits(p, l, k, h - 1))
  {
    hide Flat, LowerHalf, UpperHalf, Cut, OwnPages, DescentFits, RightAllSame;
    var l, m := LowerHalf(t.kids[i]), Cut(p, t, i, last + 1, blank);
    NodeFacts(p, t, h);
    CutSlots(p, t, i, last, h, blank);
    CutHolds(p, t, i, last, h, blank);
    OwnsLater(l, last);
    FitsFrame(p, m, l, k, h - 1);
    KidSorted(t, i);
    HalvesOrdered(t.kids[i], last + 1, h - 1);
    LowerId(t.kids[i]);
  }

  lemma SplitTook(p: Pages, t: Tree, i: nat, c: Tree, k: nat, last: nat, h: nat, blank: nat -> Page) returns (t': Tree)
    requires Splits(p, t, i, k, last, h) && SplitFits(p, t, i) && k <= t.kids[i].keys[ORDER - 1]
    requires var l, m := LowerHalf(t.kids[i]), Cut(p, t, i, last + 1, blank(last + 1));
             var r := WrittenNonFull(m, l.id, k, last + 1, h - 1, blank);
             r.Ended? && Took(r.pages, r.last, l, c, k, last + 1, h - 1) && RoomTaken(l, c)
    ensures var l, m := LowerHalf(t.kids[i]), Cut(p, t, i, last + 1, blank(last + 1));
            var r := WrittenNonFull(m, l.id, k, last + 1, h - 1, blank);
            Took(r.pages, r.last, t, t', k, last, h) && RoomTaken(t, t')
  {
    hide Flat, WrittenNonFull, LowerHalf, Cut, Took, SplitFits, OwnPages;
    var l, m := LowerHalf(t.kids[i]), Cut(p, t, i, last + 1, blank(last + 1));
    var r := WrittenNonFull(m, l.id, k, last + 1, h - 1, blank);
    LowerReady(p, t, i, k, last, h, blank(last + 1));
    var s := AfterFit(t, i, last + 1);
    FitIsHalved(p, t, i, k, last, h, blank(last + 1));
    WrittenKeeps(m, l, k, last + 1, h - 1, blank);
    KidTook(m, r.pages, s, i, c, k, last + 1, r.last, h);
    t' := s.(kids := s.kids[i := c]);
    TookTwice(r.pages, m, t, s, t', i, k, last, r.last, h);
  }

  lemma LeafTook(p: Pages, t: Tree, k: nat, last: nat, h: nat)
    requires Represents(p, t) && Shape(t, h) && Sorted(Flat(t)) && !IsFull(t) && t.kids == [] && HasRoom(p, t.id)
    requires Position(t.keys, k) <= p[t.id].keysCount
    ensures var i := Position(t.keys, k);
            Took(p[t.id := LeafPage(p[t.id], i, k)], last, t, Tree(t.id, InsertAt(t.keys, i, k), []), k, last, h)
    ensures RoomTaken(t, Tree(t.id, InsertAt(t.keys, Position(t.keys, k), k), []))
  {
    var i := Position(t.keys, k);
    var t' := Tree(t.id, InsertAt(t.keys, i, k), []);
    InsertNonFullGrows(t, k, last, h);
    assert BTree.InsertNonFull(t, k, last, h).0 == t';
    assert LeafPage(p[t.id], i, k).keys[..|t.keys| + 1] == t'.keys;
  }

  /** A cut changes no slot of the pages of its lower half. */
  lemma CutSlots(p: Pages, t: Tree, i: nat, last: nat, h: nat, blank: Page)
    requires Represents(p, t) && Shape(t, h) && OwnPages(t, last) && !IsFull(t) && i < |t.kids| && IsFull(t.kids[i])
    requires HasRoom(p, t.id) && i <= p[t.id].keysCount && HasFull(p, t.kids[i].id)
    ensures SameSlots(p, Cut(p, t, i, last + 1, blank), LowerHalf(t.kids[i]))
  {
    hide LowerHalf, UpperHalf, TallyAll, Matches, Represents;
    var c := t.kids[i];
    NodeFacts(p, t, h);
    CutHolds(p, t, i, last, h, blank);
    KidOwns(t, i, last);
    HalvesUse(c, last + 1, h - 1, last);
    forall x: nat | Uses(LowerHalf(c), x) > 0
      ensures x in p && x <= last && x != t.id
    {
      assert Uses(c, x) > 0 && Uses(c, x) <= (if x <= last then 1 else 0);
      UsedIsThere(p, c, x);
    }
  }

  // ---------- Nothing else comes out right ----------

  /** The child of a node that took in the key took it in. */
  lemma KidUntook(p': Pages, last': nat, s: Tree, i: nat, c: Tree, k: nat, last: nat, h: nat)
    requires |s.kids| == |s.keys| + 1 && i < |s.kids| && c.id == s.kids[i].id
    requires Took(p', last', s, s.(kids := s.kids[i := c]), k, last, h)
    ensures Took(p', last', s.kids[i], c, k, last, h - 1)
  {
    hide Flat;
    var t' := s.(kids := s.kids[i := c]);
    assert t'.kids[i] == c;
    NodeFacts(p', t', h);
    KidSorted(t', i);
    FlatAt(s, i);
    ReplaceKid(s, i, c);
    MiddleGrown(multiset(Left(s, i)), multiset(Flat(s.kids[i])), multiset(Right(s, i)), multiset(Flat(c)), k);
    forall x: nat
      ensures Uses(c, x) == Uses(s.kids[i], x) + if last < x <= last' then 1 else 0
    {
      TallyReplace(s.kids, i, c, Only(x));
      assert Uses(t', x) == Uses(s, x) + if last < x <= last' then 1 else 0;
    }
  }

  lemma MiddleGrown(a: multiset<nat>, b: multiset<nat>, c: multiset<nat>, b': multiset<nat>, k: nat)
    requires a + b' + c == a + b + c + multiset{k}
    ensures b' == b + multiset{k}
  {
    forall x
      ensures b'[x] == (b + multiset{k})[x]
    {
      assert (a + b' + c)[x] == (a + b + c + multiset{k})[x];
    }
  }

  /** The page of a node that was not written still says what the node is. */
  lemma SameNode(p: Pages, p': Pages, t: Tree, t': Tree, i: nat, last: nat, h: nat)
    requires Represents(p, t) && Shape(t, h) && OwnPages(t, last) && i < |t.kids| && |t.kids| == |t.keys| + 1
    requires Represents(p', t') && t'.id == t.id && Untouched(p, p', t.kids[i], last)
    ensures |t'.kids| == |t.kids| && t'.kids[i].id == t.kids[i].id && t' == t.(kids := t.kids[i := t'.kids[i]])
  {
    KidOwns(t, i, last);
    assert p'[t.id] == p[t.id];
    forall j | 0 <= j < |t.kids|
      ensures t'.kids[j].id == t.kids[j].id
      ensures j != i ==> t'.kids[j] == t.kids[j]
    {
      assert p[t.id].children[j] == t.kids[j].id && p'[t.id].children[j] == t'.kids[j].id;
      if j != i {
        OtherKidKept(p, p', t, i, j, last);
        SameTree(p, p', t.kids[j], t'.kids[j]);
      }
    }
    assert t'.kids == t.kids[i := t'.kids[i]];
  }

  /** What the page of the cut node says it is. */
  lemma CutNode(p: Pages, m: Pages, p': Pages, t: Tree, t': Tree, i: nat, last: nat, h: nat, blank: Page)
    requires CutThen(p, m, p', t, i, last, h, blank) && |t.kids| == |t.keys| + 1
    requires Represents(p', t') && t'.id == t.id
    ensures |t'.keys| == |t.keys| + 1 && |t'.kids| == |t.kids| + 1
    ensures t'.keys[i] == t.kids[i].keys[ORDER - 1]
    ensures forall j :: 0 <= j < |t.keys| && j != i ==> t'.keys[j] == t.keys[j]
    ensures t'.kids[i].id == t.kids[i].id && t'.kids[i + 1].id == last + 1
    ensures forall j :: 0 <= j < |t.kids| && j != i && j != i + 1 ==> t'.kids[j].id == t.kids[j].id
    ensures i < |t.keys| ==> p[t.id].keys[|t.keys|] == t'.keys[|t.keys|]
    ensures i < |t.keys| ==> p[t.id].children[|t.kids|] == t'.kids[|t.kids|].id
  {
    hide LowerHalf, UpperHalf, OwnPages, UpperPage, Tally, Shape;
    var c, n := t.kids[i], |t.keys|;
    CutUntouched(p, m, p', t, i, last, h, blank);
    CutApart(p, t, i, last, h);
    NodeFacts(p, t, h);
    NodeFacts(p, c, h - 1);
    var d, d' := p[t.id], p'[t.id];
    assert d'.keysCount == n + 1 && d'.keys == d.keys[i := p[c.id].keys[ORDER - 1]];
    assert forall j :: 0 <= j < n ==> d.keys[j] == d.keys[..n][j];
    assert forall j :: 0 <= j < n + 1 ==> d'.keys[j] == d'.keys[..n + 1][j];
    assert p[c.id].keys[ORDER - 1] == p[c.id].keys[..MAX_KEYS][ORDER - 1];
    assert forall j {:trigger t'.kids[j]} :: 0 <= j < |t'.kids| ==> t'.kids[j].id == d.children[i + 1 := last + 1][j];
  }

  lemma CutApart(p: Pages, t: Tree, i: nat, last: nat, h: nat)
    requires Represents(p, t) && Shape(t, h) && OwnPages(t, last) && i < |t.kids|
    ensures t.id != t.kids[i].id && t.id <= last && t.kids[i].id <= last
    ensures t.kids != [] ==> !p[t.id].isLeaf
  {
    SplitApart(t, i, last);
  }

  lemma CutKids(p: Pages, m: Pages, p': Pages, t: Tree, t': Tree, i: nat, last: nat, h: nat, blank: Page)
    requires CutThen(p, m, p', t, i, last, h, blank) && |t.kids| == |t.keys| + 1
    requires Represents(p', t') && t'.id == t.id
    ensures |t'.kids| == |t.kids| + 1 && t'.kids[i + 1] == UpperHalf(t.kids[i], last + 1)
    ensures forall j :: 0 <= j < |t.kids| && j != i && j != i + 1 ==> t'.kids[j] == t.kids[j]
  {
    hide LowerHalf, UpperHalf, OwnPages, Cut, Tally, Matches, Shape;
    var c := t.kids[i];
    CutNode(p, m, p', t, t', i, last, h, blank);
    NodeFacts(p, t, h);
    KidOwns(t, i, last);
    CutHolds(p, t, i, last, h, blank);
    UpperKept(m, p', c, last, h - 1);
    UpperId(c, last + 1);
    SameTree(m, p', UpperHalf(c, last + 1), t'.kids[i + 1]);
    forall j | 0 <= j < |t.kids| && j != i && j != i + 1
      ensures t'.kids[j] == t.kids[j]
    {
      KidAfterCut(p, m, p', t, i, j, last, h, blank);
      SameTree(p, p', t.kids[j], t'.kids[j]);
    }
  }

  /** Where the page of the subtree at the end can lie, counting pages. */
  lemma DeadUses(t: Tree, t': Tree, i: nat, low: Tree, dead: nat, g: Tree, last: nat, last': nat, h: nat)
    requires Shape(t, h) && OwnPages(t, last) && i < |t.keys| && |t.kids| == |t.keys| + 1 && IsFull(t.kids[i])
    requires t' == Overwritten(t, i, low, last + 1, dead, g) && UsesGrown(t, t', last, last') && low.id == t.kids[i].id
    ensures g.id != LowerHalf(t.kids[i]).id
    ensures last < g.id ==> last + 1 < g.id <= last'
    ensures g.id <= last ==> Uses(LowerHalf(t.kids[i]), g.id) > 0 || Uses(t.kids[i + 1], g.id) > 0
  {
    hide LowerHalf, UpperHalf, Flat, TallyAll, Overwritten;
    var e, c := g.id, t.kids[i];
    UsesOwnPage(g);
    UsesOwnPage(low);
    LowerId(c);
    UpperId(c, last + 1);
    UsesOwnPage(UpperHalf(c, last + 1));
    KidOwns(t, i, last);
    HalvesUse(c, last + 1, h - 1, last);
    OverwrittenSums(t, i, low, last + 1, dead, g);
    OverwrittenUses(t, i, low, last + 1, dead, g, e);
    assert Uses(t', e) == Uses(t, e) + if last < e <= last' then 1 else 0;
    assert Uses(t, e) <= if e <= last then 1 else 0;
  }

  /** The subtree at the end of a good node can only be the one that was overwritten. */
  lemma DeadChild(p: Pages, m: Pages, p': Pages, t: Tree, t': Tree, i: nat, low: Tree, dead: nat, g: Tree, k: nat,
                  last: nat, last': nat, h: nat, blank: Page)
    requires CutThen(p, m, p', t, i, last, h, blank) && Keeps(m, p', LowerHalf(t.kids[i]), last + 1, last', h - 1)
    requires i < |t.keys| && |t.kids| == |t.keys| + 1 && low.id == t.kids[i].id
    requires t' == Overwritten(t, i, low, last + 1, dead, g) && Took(p', last', t, t', k, last, h)
    ensures g == t.kids[i + 1]
  {
    hide LowerHalf, UpperHalf, Flat, NotHigh, Cut, Matches, Tally, Overwritten;
    var e, o := g.id, t.kids[i + 1];
    OverwrittenKids(t, i, low, last + 1, dead, g);
    NodeFacts(p', t', h);
    NodeFacts(p, t, h);
    DeadUses(t, t', i, low, dead, g, last, last', h);
    TooHigh(p', g, h - 1);
    KidAfterCut(p, m, p', t, i, i + 1, last, h, blank);
    if e != o.id && Uses(o, e) > 0 {
      InnerNotHigh(p, p', o, h - 1, e);
    }
    SameTree(p, p', o, g);
  }

  lemma TooHigh(p: Pages, g: Tree, h: nat)
    requires Represents(p, g) && Shape(g, h)
    ensures !NotHigh(p, g.id, h)
  {
  }

  lemma InnerNotHigh(p: Pages, p': Pages, o: Tree, h: nat, x: nat)
    requires Represents(p, o) && Shape(o, h) && Uses(o, x) > 0 && x != o.id
    requires forall y: nat :: Uses(o, y) > 0 ==> y in p && y in p' && p'[y] == p[y]
    ensures NotHigh(p', x, h)
  {
    hide NotHigh;
    var j := UserAmong(o.kids, x);
    forall y: nat | Uses(o.kids[j], y) > 0
      ensures Uses(o, y) > 0
    {
      KidUses(o.kids, j, y);
    }
    KeptNotHigh(p, p', o.kids[j], h - 1, x);
  }

  lemma OverwrittenUses(t: Tree, i: nat, low: Tree, newId: nat, dead: nat, g: Tree, x: nat)
    requires i < |t.keys| && |t.kids| == |t.keys| + 1 && IsFull(t.kids[i])
    ensures Uses(low, x) + Uses(UpperHalf(t.kids[i], newId), x) + Uses(g, x) <= Uses(Overwritten(t, i, low, newId, dead, g), x)
  {
    hide UpperHalf, TallyAll;
    var o := Overwritten(t, i, low, newId, dead, g);
    var y := Tree(t.id, t.keys, o.kids[..|t.kids|]);
    OverwrittenKids(t, i, low, newId, dead, g);
    KidsAround(y, i);
    assert o.kids == y.kids + [g];
    TallyConcat(y.kids, [g], Only(x));
    TallyOne(g, Only(x));
    TallyIs(o, Only(x));
  }

  /** The dead key can only be the overwritten one, and everything behind it must be that same key. */
  lemma DeadKey(t: Tree, i: nat, low: Tree, newId: nat, dead: nat, k: nat, h: nat)
    requires Shape(t, h) && Sorted(Flat(t)) && i < |t.keys| && |t.kids| == |t.keys| + 1 && IsFull(t.kids[i])
    requires k < t.keys[i] && GrownBy(t, Overwritten(t, i, low, newId, dead, t.kids[i + 1]), k)
    ensures dead == t.keys[i] && (i + 1 == |t.keys| || RightAllSame(t, i))
  {
    hide Flat, LowerHalf, UpperHalf, Overwritten, KeysOf;
    var o, c, n := Overwritten(t, i, low, newId, dead, t.kids[i + 1]), t.kids[i], |t.keys|;
    var m, a := c.keys[ORDER - 1], t.keys[i];
    OverwrittenKids(t, i, low, newId, dead, t.kids[i + 1]);
    OverwrittenSums(t, i, low, newId, dead, t.kids[i + 1]);
    SeparatedIfSorted(t);
    SeparatedIfSorted(o);
    NodeShape(c, h - 1);
    HalvesOrdered(c, newId, h - 1);
    assert Between(t, i) && Between(t, i + 1) && Between(o, i) && Between(o, i + 1) && Between(o, n + 1);
    assert m <= a && o.keys[i] <= o.keys[n];
    var fl, fl' := multiset(Flat(LowerHalf(c))), multiset(Flat(low));
    Replaced(multiset(Flat(o)), multiset(Flat(t)), multiset(Flat(c)), multiset(Flat(t.kids[i + 1])), fl, fl',
             multiset(Flat(UpperHalf(c, newId))), m, a, dead, k);
    assert forall x :: x in fl ==> x in Flat(LowerHalf(c));
    assert forall x :: x in fl' ==> x in Flat(o.kids[i]);
    DeadIs(fl, fl', m, a, dead, k);
    if i + 1 < n {
      AllSame(t, o, i, newId);
    }
  }

  lemma DeadIs(l: multiset<nat>, l': multiset<nat>, m: nat, a: nat, dead: nat, k: nat)
    requires l' + multiset{dead} == l + multiset{a, k} && k < a && m <= a && m <= dead
    requires (forall x :: x in l ==> x <= m) && (forall x :: x in l' ==> x <= m)
    ensures dead == a
  {
    assert (l' + multiset{dead})[a] == (l + multiset{a, k})[a] > 0;
    assert (l + multiset{a, k})[dead] == (l' + multiset{dead})[dead] > 0;
  }

  lemma Replaced(o: multiset<nat>, t: multiset<nat>, c: multiset<nat>, g: multiset<nat>, l: multiset<nat>, l': multiset<nat>,
                 u: multiset<nat>, m: nat, a: nat, dead: nat, k: nat)
    requires o + c + g + multiset{a} == t + l' + u + g + multiset{m, dead}
    requires c == l + multiset{m} + u && o == t + multiset{k}
    ensures l' + multiset{dead} == l + multiset{a, k}
  {
    forall x
      ensures (l' + multiset{dead})[x] == (l + multiset{a, k})[x]
    {
      assert (o + c + g + multiset{a})[x] == (t + l' + u + g + multiset{m, dead})[x];
    }
  }

  lemma AllSame(t: Tree, o: Tree, i: nat, newId: nat)
    requires i + 1 < |t.keys| && |t.kids| == |t.keys| + 1 && |o.keys| == |t.keys| + 1 && |o.kids| == |t.kids| + 1
    requires Sorted(t.keys) && Sorted(o.keys) && o.keys[|t.keys|] == t.keys[i]
    requires forall j :: 0 <= j < |t.kids| ==> Between(t, j)
    requires forall j :: 0 <= j < |o.kids| ==> Between(o, j)
    requires forall j :: i < j < |t.keys| ==> o.keys[j] == t.keys[j]
    requires forall j :: i + 1 < j < |t.kids| ==> o.kids[j] == t.kids[j]
    ensures RightAllSame(t, i)
  {
    hide Flat;
    var n, a := |t.keys|, t.keys[i];
    forall j | i < j < n
      ensures t.keys[j] == a
    {
      assert t.keys[i] <= t.keys[j] && o.keys[j] <= o.keys[n];
    }
    forall j, x | i < j < |t.kids| && x in Flat(t.kids[j])
      ensures x == a
    {
      assert Between(t, j) && Between(o, j);
    }
  }

  lemma TookUntwice(p': Pages, m: Pages, t: Tree, s: Tree, t': Tree, i: nat, k: nat, last: nat, last': nat, h: nat)
    requires Halved(m, t, s, i, k, last, h) && Took(p', last', t, t', k, last, h) && last < last'
    ensures Took(p', last', s, t', k, last + 1, h)
  {
    hide Flat, Represents, Shape, Tally, LowerHalf;
    forall x: nat
      ensures Uses(t', x) == Uses(s, x) + if last + 1 < x <= last' then 1 else 0
    {
      assert Uses(t', x) == Uses(t, x) + if last < x <= last' then 1 else 0;
      assert Uses(s, x) == Uses(t, x) + if last < x <= last + 1 then 1 else 0;
    }
  }

  /** A node that took in the key past a split was split harmlessly. */
  lemma SplitWasFit(p: Pages, m: Pages, p': Pages, t: Tree, t': Tree, i: nat, k: nat, last: nat, last': nat, h: nat,
                    blank: Page)
    requires Splits(p, t, i, k, last, h) && |t.keys| <= t.kids[i].id && m == Cut(p, t, i, last + 1, blank)
    requires Keeps(m, p', LowerHalf(t.kids[i]), last + 1, last', h - 1) && Took(p', last', t, t', k, last, h)
    ensures SplitFits(p, t, i)
    ensures t'.kids != [] && i < |t'.kids| && t'.kids[i].id == t.kids[i].id
    ensures t' == AfterFit(t, i, last + 1).(kids := AfterFit(t, i, last + 1).kids[i := t'.kids[i]])
  {
    hide LowerHalf, UpperHalf, Flat, NotHigh, Cut, Tally, Overwritten, Shape, OwnPages, RightAllSame;
    var n, c := |t.keys|, t.kids[i];
    assert CutThen(p, m, p', t, i, last, h, blank);
    CutNode(p, m, p', t, t', i, last, h, blank);
    CutKids(p, m, p', t, t', i, last, h, blank);
    var low := t'.kids[i];
    if i == n {
      LastIs(t, t', last + 1);
    } else {
      var dead, g := t'.keys[n], t'.kids[n + 1];
      OverwrittenKids(t, i, low, last + 1, dead, g);
      OverwrittenIs(t, t', i, last + 1);
      DeadChild(p, m, p', t, t', i, low, dead, g, k, last, last', h, blank);
      DeadKey(t, i, low, last + 1, dead, k, h);
      TurnedIs(t, t', i, last + 1);
    }
  }

  lemma LastIs(t: Tree, t': Tree, newId: nat)
    requires |t.kids| == |t.keys| + 1 && IsFull(t.kids[|t.keys|]) && t'.id == t.id
    requires |t'.keys| == |t.keys| + 1 && |t'.kids| == |t.kids| + 1
    requires t'.keys[|t.keys|] == t.kids[|t.keys|].keys[ORDER - 1]
    requires forall j :: 0 <= j < |t.keys| ==> t'.keys[j] == t.keys[j] && t'.kids[j] == t.kids[j]
    requires t'.kids[|t.keys| + 1] == UpperHalf(t.kids[|t.keys|], newId)
    ensures var i, s := |t.keys|, BTree.SplitChild(t, |t.keys|, newId); t' == s.(kids := s.kids[i := t'.kids[i]])
  {
    hide LowerHalf, UpperHalf;
    var i, s := |t.keys|, BTree.SplitChild(t, |t.keys|, newId);
    assert t'.keys == s.keys;
    assert t'.kids == s.kids[i := t'.kids[i]];
  }

  lemma OverwrittenIs(t: Tree, t': Tree, i: nat, newId: nat)
    requires i < |t.keys| && |t.kids| == |t.keys| + 1 && IsFull(t.kids[i]) && t'.id == t.id
    requires |t'.keys| == |t.keys| + 1 && |t'.kids| == |t.kids| + 1 && t'.keys[i] == t.kids[i].keys[ORDER - 1]
    requires forall j :: 0 <= j < |t.keys| && j != i ==> t'.keys[j] == t.keys[j]
    requires forall j :: 0 <= j < |t.kids| && j != i && j != i + 1 ==> t'.kids[j] == t.kids[j]
    requires t'.kids[i + 1] == UpperHalf(t.kids[i], newId)
    ensures t' == Overwritten(t, i, t'.kids[i], newId, t'.keys[|t.keys|], t'.kids[|t.kids|])
  {
    hide LowerHalf, UpperHalf, Overwritten;
    var o := Overwritten(t, i, t'.kids[i], newId, t'.keys[|t.keys|], t'.kids[|t.kids|]);
    OverwrittenKids(t, i, t'.kids[i], newId, t'.keys[|t.keys|], t'.kids[|t.kids|]);
    assert t'.keys == o.keys && t'.kids == o.kids;
  }

  lemma TurnedIs(t: Tree, t': Tree, i: nat, newId: nat)
    requires i < |t.keys| && |t.kids| == |t.keys| + 1 && IsFull(t.kids[i]) && i < |t'.kids|
    requires t' == Overwritten(t, i, t'.kids[i], newId, t.keys[i], t.kids[i + 1])
    ensures t' == Turned(t, i, newId).(kids := Turned(t, i, newId).kids[i := t'.kids[i]])
  {
    hide LowerHalf, UpperHalf;
    assert t'.kids == Turned(t, i, newId).kids[i := t'.kids[i]];
  }

  lemma {:induction false} TookFits(p: Pages, t: Tree, t': Tree, k: nat, last: nat, h: nat, blank: nat -> Page)
    requires Represents(p, t) && Shape(t, h) && Sorted(Flat(t)) && OwnPages(t, last) && !IsFull(t)
    requires var r := WrittenNonFull(p, t.id, k, last, h, blank);
             r.Ended? && Took(r.pages, r.last, t, t', k, last, h)
    ensures DescentFits(p, t, k, h)
    decreases h
  {
    hide Flat, WrittenNonFull, LowerHalf, UpperHalf, Cut, Took, OwnPages, SplitFits;
    var i := Position(t.keys, k);
    FirstStep(p, t, k, last, h, blank);
    NodeFacts(p, t, h);
    if t.kids == [] {
    } else if IsFull(t.kids[i]) {
      var l, m := LowerHalf(t.kids[i]), Cut(p, t, i, last + 1, blank(last + 1));
      var low := LowerTook(p, t, t', i, k, last, h, blank);
      LowerReady(p, t, i, k, last, h, blank(last + 1));
      TookFits(m, l, low, k, last + 1, h - 1, blank);
    } else {
      var c := PlainUntook(p, t, t', i, k, last, h, blank);
      KidSorted(t, i);
      KidOwns(t, i, last);
      TookFits(p, t.kids[i], c, k, last, h - 1, blank);
    }
  }

  lemma PlainUntook(p: Pages, t: Tree, t': Tree, i: nat, k: nat, last: nat, h: nat, blank: nat -> Page)
      returns (c: Tree)
    requires Represents(p, t) && Shape(t, h) && OwnPages(t, last)
    requires t.kids != [] && i == Position(t.keys, k) && |t.kids| == |t.keys| + 1 && !IsFull(t.kids[i])
    requires var r := WrittenNonFull(p, t.kids[i].id, k, last, h - 1, blank);
             r.Ended? && Took(r.pages, r.last, t, t', k, last, h)
    ensures var r := WrittenNonFull(p, t.kids[i].id, k, last, h - 1, blank);
            Took(r.pages, r.last, t.kids[i], c, k, last, h - 1)
  {
    hide Flat, WrittenNonFull, OwnPages;
    var r := WrittenNonFull(p, t.kids[i].id, k, last, h - 1, blank);
    KidOwns(t, i, last);
    WrittenKeeps(p, t.kids[i], k, last, h - 1, blank);
    SameNode(p, r.pages, t, t', i, last, h);
    c := t'.kids[i];
    KidUntook(r.pages, r.last, t, i, c, k, last, h);
  }

  lemma LowerTook(p: Pages, t: Tree, t': Tree, i: nat, k: nat, last: nat, h: nat, blank: nat -> Page)
      returns (low: Tree)
    requires Splits(p, t, i, k, last, h) && |t.keys| <= t.kids[i].id
    requires var m := Cut(p, t, i, last + 1, blank(last + 1));
             var r := WrittenNonFull(m, t.kids[i].id, k, last + 1, h - 1, blank);
             r.Ended? && Took(r.pages, r.last, t, t', k, last, h)
    ensures SplitFits(p, t, i) && k <= t.kids[i].keys[ORDER - 1]
    ensures var m := Cut(p, t, i, last + 1, blank(last + 1));
            var r := WrittenNonFull(m, t.kids[i].id, k, last + 1, h - 1, blank);
            Took(r.pages, r.last, LowerHalf(t.kids[i]), low, k, last + 1, h - 1)
  {
    hide Flat, WrittenNonFull, LowerHalf, UpperHalf, Cut, OwnPages, SplitFits, Overwritten, Tally;
    var b := blank(last + 1);
    var l, m := LowerHalf(t.kids[i]), Cut(p, t, i, last + 1, b);
    var r := WrittenNonFull(m, t.kids[i].id, k, last + 1, h - 1, blank);
    LowerId(t.kids[i]);
    NodeFacts(p, t, h);
    KidOwns(t, i, last);
    CutHolds(p, t, i, last, h, b);
    OwnsLater(l, last);
    WrittenKeeps(m, l, k, last + 1, h - 1, blank);
    SplitWasFit(p, m, r.pages, t, t', i, k, last, r.last, h, b);
    var s := AfterFit(t, i, last + 1);
    FitIsHalved(p, t, i, k, last, h, b);
    low := t'.kids[i];
    TookUntwice(r.pages, m, t, s, t', i, k, last, r.last, h);
    KidUntook(r.pages, r.last, s, i, low, k, last + 1, h);
    assert k in multiset(Flat(low));
    if k > s.keys[i] {
      MisplacedKey(s, i, low, k);
    }
  }

  lemma FitIsHalved(p: Pages, t: Tree, i: nat, k: nat, last: nat, h: nat, blank: Page)
    requires Splits(p, t, i, k, last, h) && SplitFits(p, t, i)
    ensures Halved(Cut(p, t, i, last + 1, blank), t, AfterFit(t, i, last + 1), i, k, last, h)
  {
    hide Halved, Flat, Represents, Shape, LowerHalf, UpperHalf, Cut, Overwritten;
    if i == |t.keys| {
      LastFits(p, t, k, last, h, blank);
    } else {
      TurnedFits(p, t, i, k, last, h, blank);
    }
  }

  /** A key above the separator to the right of its child is disorder. */
  lemma MisplacedKey(t: Tree, i: nat, c: Tree, k: nat)
    requires |t.kids| == |t.keys| + 1 && i < |t.keys| && k in Flat(c) && k > t.keys[i]
    ensures !Sorted(Flat(t.(kids := t.kids[i := c])))
  {
    ReplaceKid(t, i, c);
    SortedConcat3(Left(t, i), Flat(c), Right(t, i));
    assert Right(t, i)[0] == t.keys[i];
    var j :| 0 <= j < |Flat(c)| && Flat(c)[j] == k;
  }

  // ---------- Insertion at the root ----------

  /** The pages after a full root has been split; page 0 is the new root. */
  function SplitRoot(p: Pages, last: nat, blank: nat -> Page): Pages
    requires HasFull(p, 0) && HasFull(GrownPages(p, last, blank), last + 1) && HasRoom(GrownPages(p, last, blank), 0)
  {
    Cut(GrownPages(p, last, blank), Tree(0, [], [Tree(last + 1, [], [])]), 0, last + 2, blank(last + 2))
  }

  /** The condition on the pages before the call under which an insertion as written comes out right. */
  ghost predicate InsertFits(p: Pages, t: Tree, k: nat, last: nat, h: nat, blank: nat -> Page)
    requires Represents(p, t) && t.id == 0 && RootShape(t, h)
  {
    if IsFull(t) then
      RootReady(p, t, last, h, blank);
      DescentFits(SplitRoot(p, last, blank), BTree.SplitChild(GrownRoot(t, last), 0, last + 2), k, h + 1)
    else DescentFits(p, t, k, h)
  }

  /** Pages p' hold a B-tree with one key more, on the pages it had and those handed out. */
  ghost predicate IndexAfter(p': Pages, last': nat, t: Tree, t': Tree, k: nat, last: nat, h: nat) {
    && Represents(p', t') && t'.id == 0 && RootShape(t', NewHeight(t, h))
    && GrownBy(t, t', k) && UsesGrown(t, t', last, last')
  }

  lemma RootReady(p: Pages, t: Tree, last: nat, h: nat, blank: nat -> Page)
    requires Represents(p, t) && t.id == 0 && RootShape(t, h) && IsFull(t)
    ensures HasFull(p, 0) && HasFull(GrownPages(p, last, blank), last + 1) && HasRoom(GrownPages(p, last, blank), 0)
    ensures var s := BTree.SplitChild(GrownRoot(t, last), 0, last + 2); Shape(s, h + 1) && |s.keys| == 1 && !IsFull(s)
  {
    GrownSplitShape(t, last, h);
  }

  lemma GrownHeld(p: Pages, t: Tree, last: nat, h: nat, blank: nat -> Page)
    requires Represents(p, t) && t.id == 0 && RootShape(t, h) && IsFull(t) && OwnPages(t, last)
    ensures HasFull(p, 0) && Represents(GrownPages(p, last, blank), GrownRoot(t, last))
  {
    var p', moved := GrownPages(p, last, blank), t.(id := last + 1);
    NodeFacts(p, t, h);
    forall i | 0 <= i < |t.kids|
      ensures Represents(p', t.kids[i])
    {
      KidOwns(t, i, last);
      forall x: nat | Uses(t.kids[i], x) > 0
        ensures x in p && p'[x] == p[x]
      {
        assert Uses(t.kids[i], x) <= if x <= last then 1 else 0;
        UsedIsThere(p, t.kids[i], x);
      }
      Frame(p, p', t.kids[i]);
    }
    assert Represents(p', moved);
  }

  /** After a full root was split, the pages hold the same keys one level higher. */
  lemma RootCut(p: Pages, t: Tree, k: nat, last: nat, h: nat, blank: nat -> Page)
    requires Represents(p, t) && t.id == 0 && RootShape(t, h) && IsFull(t) && OwnPages(t, last) && Sorted(Flat(t))
    requires HasFull(p, 0) && HasFull(GrownPages(p, last, blank), last + 1) && HasRoom(GrownPages(p, last, blank), 0)
    ensures var s, m := BTree.SplitChild(GrownRoot(t, last), 0, last + 2), SplitRoot(p, last, blank);
            && Represents(m, s) && s.id == 0 && OwnPages(s, last + 2) && UsesGrown(t, s, last, last + 2)
            && Flat(s) == Flat(t) && s.kids != []
            && WrittenInsert(p, k, last, h, blank) == WrittenNonFull(m, 0, k, last + 2, h + 1, blank)
  {
    hide WrittenNonFull, UpperPage, LowerHalf, UpperHalf, Flat, Shape, Tally;
    var g := GrownRoot(t, last);
    var s, q := BTree.SplitChild(g, 0, last + 2), GrownPages(p, last, blank);
    GrownHeld(p, t, last, h, blank);
    GrownOwns(t, last, h);
    SplitStep(q, g, 0, last + 2, blank(last + 2));
    LastHeld(q, g, last + 1, h + 1, blank(last + 2));
    NodeFacts(p, t, h);
    RootFlat(t, last, h);
    RootUses(t, last, h);
  }

  lemma RootFlat(t: Tree, last: nat, h: nat)
    requires IsFull(t) && Shape(t, h)
    ensures Flat(BTree.SplitChild(GrownRoot(t, last), 0, last + 2)) == Flat(t)
  {
    var g := GrownRoot(t, last);
    SplitKeepsKeys(g, 0, last + 2);
    FlatAt(g, 0);
    assert Flat(g.kids[0]) == Flat(t);
  }

  lemma RootUses(t: Tree, last: nat, h: nat)
    requires IsFull(t) && Shape(t, h) && OwnPages(t, last) && t.id == 0
    ensures var s := BTree.SplitChild(GrownRoot(t, last), 0, last + 2);
            OwnPages(s, last + 2) && UsesGrown(t, s, last, last + 2)
  {
    hide LowerHalf, UpperHalf;
    var g := GrownRoot(t, last);
    var s := BTree.SplitChild(g, 0, last + 2);
    forall x: nat
      ensures Uses(s, x) == Uses(t, x) + if last < x <= last + 2 then 1 else 0
    {
      SplitTally(g, 0, last + 2, Only(x));
      TallyOne(g.kids[0], Only(x));
    }
    forall x: nat
      ensures Uses(s, x) <= if x <= last + 2 then 1 else 0
    {
      assert Uses(t, x) <= if x <= last then 1 else 0;
    }
  }

  lemma GrownTwice(a: Tree, b: Tree, c: Tree, x: nat, y: nat, z: nat)
    requires UsesGrown(a, b, x, y) && UsesGrown(b, c, y, z)
    ensures UsesGrown(a, c, x, z)
  {
    hide Tally;
    forall u: nat
      ensures Uses(c, u) == Uses(a, u) + if x < u <= z then 1 else 0
    {
      assert Uses(c, u) == Uses(b, u) + if y < u <= z then 1 else 0;
      assert Uses(b, u) == Uses(a, u) + if x < u <= y then 1 else 0;
    }
  }

  lemma GrownSince(a: Tree, b: Tree, c: Tree, x: nat, y: nat, z: nat)
    requires UsesGrown(a, b, x, y) && UsesGrown(a, c, x, z) && y <= z
    ensures UsesGrown(b, c, y, z)
  {
    hide Tally;
    forall u: nat
      ensures Uses(c, u) == Uses(b, u) + if y < u <= z then 1 else 0
    {
      assert Uses(c, u) == Uses(a, u) + if x < u <= z then 1 else 0;
      assert Uses(b, u) == Uses(a, u) + if x < u <= y then 1 else 0;
    }
  }

  lemma LastGrows(p: Pages, t: Tree, k: nat, last: nat, h: nat, blank: nat -> Page)
    requires Represents(p, t) && Shape(t, h) && OwnPages(t, last) && !IsFull(t)
    requires WrittenNonFull(p, t.id, k, last, h, blank).Ended?
    ensures WrittenNonFull(p, t.id, k, last, h, blank).last >= last
  {
    WrittenKeeps(p, t, k, last, h, blank);
  }

  /**
   For every index, every key and whatever the dead slots of the pages hold: an insertion as written ends with pages that
   hold a B-tree with exactly one key more, on exactly the pages it had and was handed, if and only if every split on
   the way down does no harm and leaves the key in the lower half.
   */
  lemma InsertAsWrittenIff(p: Pages, t: Tree, k: nat, last: nat, h: nat, blank: nat -> Page)
    requires Represents(p, t) && t.id == 0 && RootShape(t, h) && Sorted(Flat(t)) && OwnPages(t, last)
    ensures var r := WrittenInsert(p, k, last, h, blank);
            (r.Ended? && exists t' :: IndexAfter(r.pages, r.last, t, t', k, last, h)) <==> InsertFits(p, t, k, last, h, blank)
  {
    hide WrittenNonFull, DescentFits, Flat, Tally, Represents, Shape, SplitRoot, UsesGrown;
    NodeFacts(p, t, h);
    RootMatches(p[0], t);
    if IsFull(t) {
      var s, m := BTree.SplitChild(GrownRoot(t, last), 0, last + 2), SplitRoot(p, last, blank);
      RootReady(p, t, last, h, blank);
      RootCut(p, t, k, last, h, blank);
      RootIff(m, t, s, k, last, last + 2, h, h + 1, blank);
    } else {
      SameUses(t, last);
      RootIff(p, t, t, k, last, last, h, h, blank);
    }
  }

  lemma SameUses(t: Tree, last: nat)
    ensures UsesGrown(t, t, last, last)
  {
  }

  /** From the node that an insertion starts at to the index. */
  lemma RootIff(m: Pages, t: Tree, s: Tree, k: nat, last: nat, last1: nat, h: nat, h1: nat, blank: nat -> Page)
    requires Represents(m, s) && s.id == 0 && Shape(s, h1) && Sorted(Flat(s)) && OwnPages(s, last1) && !IsFull(s)
    requires Flat(s) == Flat(t) && last <= last1 && UsesGrown(t, s, last, last1) && h1 == NewHeight(t, h)
    requires |s.keys| <= MAX_KEYS && (s.kids != [] ==> s.keys != [])
    ensures var r := WrittenNonFull(m, 0, k, last1, h1, blank);
            (r.Ended? && exists t' :: IndexAfter(r.pages, r.last, t, t', k, last, h)) <==> DescentFits(m, s, k, h1)
  {
    hide WrittenNonFull, DescentFits, Flat, Tally, Represents, Shape, UsesGrown, OwnPages;
    var r := WrittenNonFull(m, 0, k, last1, h1, blank);
    if DescentFits(m, s, k, h1) {
      var t' := FittingTakes(m, s, k, last1, h1, blank);
      LastGrows(m, s, k, last1, h1, blank);
      GrownTwice(t, s, t', last, last1, r.last);
      assert IndexAfter(r.pages, r.last, t, t', k, last, h);
    } else if r.Ended? && exists t' :: IndexAfter(r.pages, r.last, t, t', k, last, h) {
      var t' :| IndexAfter(r.pages, r.last, t, t', k, last, h);
      LastGrows(m, s, k, last1, h1, blank);
      GrownSince(t, s, t', last, last1, r.last);
      TookFits(m, s, t', k, last1, h1, blank);
    }
  }

  // ---------- Where no key is lost ----------

  /** Every full node on the way down is the last child of its parent, so that no slot is overwritten. */
  ghost predicate LastOnly(t: Tree, k: nat, h: nat)
    requires Shape(t, h)
    decreases h
  {
    if t.kids == [] then true
    else
      var i := Position(t.keys, k);
      if IsFull(t.kids[i]) then
        i == |t.keys| && LastOnly(LowerOf(t, i, h), k, h - 1)
      else LastOnly(t.kids[i], k, h - 1)
  }

  /** Pages p' hold a tree with one key more, perhaps not in its place. */
  ghost predicate Added(p': Pages, t: Tree, t': Tree, k: nat, h: nat) {
    && Represents(p', t') && t'.id == t.id && Shape(t', h) && RoomTaken(t, t')
    && multiset(Flat(t')) == multiset(Flat(t)) + multiset{k}
  }

  lemma KidAdded(p: Pages, p': Pages, t: Tree, i: nat, c: Tree, k: nat, last: nat, h: nat)
    requires Represents(p, t) && Shape(t, h) && OwnPages(t, last) && i < |t.kids| && |t.kids| == |t.keys| + 1
    requires !IsFull(t.kids[i]) && Added(p', t.kids[i], c, k, h - 1) && Untouched(p, p', t.kids[i], last)
    ensures Added(p', t, t.(kids := t.kids[i := c]), k, h)
  {
    hide Flat;
    GraftKid(p, p', t, i, c, last);
    FlatAt(t, i);
    ReplaceKid(t, i, c);
  }

  /** Where no slot is overwritten, an insertion as written that ends loses no key; it may only put the new one wrong. */
  lemma {:induction false} WrittenAddsKey(p: Pages, t: Tree, k: nat, last: nat, h: nat, blank: nat -> Page)
      returns (t': Tree)
    requires Represents(p, t) && Shape(t, h) && Sorted(Flat(t)) && OwnPages(t, last) && !IsFull(t) && LastOnly(t, k, h)
    requires WrittenNonFull(p, t.id, k, last, h, blank).Ended?
    ensures Added(WrittenNonFull(p, t.id, k, last, h, blank).pages, t, t', k, h)
    decreases h
  {
    hide Flat, WrittenNonFull, LowerHalf, UpperHalf, Cut, SplitFits, OwnPages;
    var i := Position(t.keys, k);
    FirstStep(p, t, k, last, h, blank);
    NodeFacts(p, t, h);
    if t.kids == [] {
      t' := Tree(t.id, InsertAt(t.keys, i, k), []);
      LeafTook(p, t, k, last, h);
    } else if IsFull(t.kids[i]) {
      var l, m := LowerHalf(t.kids[i]), Cut(p, t, i, last + 1, blank(last + 1));
      LastFit(p, t, last, h);
      LowerReady(p, t, i, k, last, h, blank(last + 1));
      var s := AfterFit(t, i, last + 1);
      FitIsHalved(p, t, i, k, last, h, blank(last + 1));
      var c := WrittenAddsKey(m, l, k, last + 1, h - 1, blank);
      WrittenKeeps(m, l, k, last + 1, h - 1, blank);
      KidAdded(m, WrittenNonFull(m, l.id, k, last + 1, h - 1, blank).pages, s, i, c, k, last + 1, h);
      t' := s.(kids := s.kids[i := c]);
    } else {
      KidSorted(t, i);
      KidOwns(t, i, last);
      var c := WrittenAddsKey(p, t.kids[i], k, last, h - 1, blank);
      WrittenKeeps(p, t.kids[i], k, last, h - 1, blank);
      KidAdded(p, WrittenNonFull(p, t.kids[i].id, k, last, h - 1, blank).pages, t, i, c, k, last, h);
      t' := t.(kids := t.kids[i := c]);
    }
  }

  lemma LastFit(p: Pages, t: Tree, last: nat, h: nat)
    requires Represents(p, t) && Shape(t, h) && !IsFull(t) && t.kids != [] && |t.keys| <= t.kids[|t.keys|].id
    ensures SplitFits(p, t, |t.keys|)
  {
  }

  // ---------- Insertions that go wrong ----------

  function Leaf(id: nat, n: nat, key: nat): Tree {
    Tree(id, seq(n, i => key), [])
  }

  /** A root with one separator over two leaves of one key each. */
  function TwoLeaves(a: nat, lower: nat, b: nat, upper: nat): Tree {
    Tree(0, [1], [Leaf(1, a, lower), Leaf(2, b, upper)])
  }

  lemma TwoLeavesIsIndex(a: nat, lower: nat, b: nat, upper: nat)
    requires ORDER - 1 <= a <= MAX_KEYS && ORDER - 1 <= b <= MAX_KEYS && lower <= 1 <= upper
    ensures var t := TwoLeaves(a, lower, b, upper);
            && RootShape(t, 2) && !IsFull(t) && Sorted(Flat(t)) && OwnPages(t, 2)
            && Flat(t) == t.kids[0].keys + [1] + t.kids[1].keys
  {
    var t := TwoLeaves(a, lower, b, upper);
    var l, c := t.kids[0], t.kids[1];
    assert Shape(l, 1) && Shape(c, 1);
    assert Flat(t) == l.keys + [1] + c.keys by {
      FlatAt(t, 1);
      assert t.keys[..1] == [1] && t.kids[..1] == [l] && [1][1..] == [] && [l][1..] == [];
    }
    forall x: nat
      ensures Uses(t, x) <= if x <= 2 then 1 else 0
    {
      assert t.kids[1..] == [c] && [c][1..] == [];
      assert TallyAll(t.kids, Only(x)) == Tally(l, Only(x)) + (Tally(c, Only(x)) + 0);
    }
  }

  /** A larger key than any before, inserted beside the full last leaf, is stored where search never looks. */
  lemma LostKeyExample(p: Pages, blank: nat -> Page) returns (t': Tree)
    requires Represents(p, TwoLeaves(ORDER - 1, 0, MAX_KEYS, 2))
    ensures var t := TwoLeaves(ORDER - 1, 0, MAX_KEYS, 2); RootShape(t, 2) && Sorted(Flat(t)) && OwnPages(t, 2)
    ensures var r := WrittenInsert(p, 3, 2, 2, blank);
            r.Ended? && Represents(r.pages, t') && t'.id == 0 && Shape(t', 2) && 3 in Flat(t') && !Found(t', 3, 2)
  {
    hide Flat, Sorted, OwnPages, WrittenNonFull, UpperHalf, LowerHalf, Found, Cut, LastOnly, Represents;
    var t := TwoLeaves(ORDER - 1, 0, MAX_KEYS, 2);
    TwoLeavesIsIndex(ORDER - 1, 0, MAX_KEYS, 2);
    BesideLastOnly();
    NodeFacts(p, t, 2);
    FirstStep(p, t, 3, 2, 2, blank);
    var m, l := Cut(p, t, 1, 3, blank(3)), LowerHalf(t.kids[1]);
    CutHolds(p, t, 1, 2, 2, blank(3));
    LowerId(t.kids[1]);
    NoKids(t.kids[1]);
    FirstStep(m, l, 3, 3, 1, blank);
    t' := WrittenAddsKey(p, t, 3, 2, 2, blank);
    assert 3 in multiset(Flat(t'));
    LostBeside(p, WrittenInsert(p, 3, 2, 2, blank).pages, t, t', blank(3));
    NotInUpperHalf(t');
  }

  /** The root keeps its separators, and the upper half stays the last child. */
  lemma LostBeside(p: Pages, p': Pages, t: Tree, t': Tree, blank: Page)
    requires t == TwoLeaves(ORDER - 1, 0, MAX_KEYS, 2) && Represents(p, t) && Represents(p', t') && t'.id == 0
    requires HasRoom(p, 0) && 1 <= p[0].keysCount && HasFull(p, 2)
    requires var m := Cut(p, t, 1, 3, blank); 2 in m && 2 in p' && p' == m[2 := p'[2]]
    ensures t'.keys == [1, 2] && |t'.kids| == 3 && t'.kids[2] == UpperHalf(t.kids[1], 3)
  {
    hide Flat, Sorted, OwnPages, UpperHalf, LowerHalf, Cut, Represents;
    TwoLeavesIsIndex(ORDER - 1, 0, MAX_KEYS, 2);
    var m := Cut(p, t, 1, 3, blank);
    LowerId(t.kids[1]);
    UsesOwnPage(LowerHalf(t.kids[1]));
    assert CutThen(p, m, p', t, 1, 2, 2, blank);
    CutNode(p, m, p', t, t', 1, 2, 2, blank);
    CutKids(p, m, p', t, t', 1, 2, 2, blank);
  }

  lemma BesideLastOnly()
    ensures var t := TwoLeaves(ORDER - 1, 0, MAX_KEYS, 2); Shape(t, 2) && Position(t.keys, 3) == 1 && LastOnly(t, 3, 2)
  {
    TwoLeavesIsIndex(ORDER - 1, 0, MAX_KEYS, 2);
  }

  lemma NotInUpperHalf(t: Tree)
    requires t.keys == [1, 2] && |t.kids| == 3 && t.kids[2] == UpperHalf(Leaf(2, MAX_KEYS, 2), 3) && Shape(t, 2)
    ensures !Found(t, 3, 2)
  {
    assert FirstAtLeast([1, 2], 3) == 2 by { assert [1, 2][1..] == [2] && [2][1..] == []; }
    var u := t.kids[2];
    assert forall j :: 0 <= j < |u.keys| ==> u.keys[j] == 2;
  }

  /** A page whose dead slots hold zeros. */
  function ZeroPage(isLeaf: bool, keys: seq<nat>, children: seq<nat>): Page
    requires |keys| <= MAX_KEYS && |children| <= MAX_KEYS + 1
  {
    DiskNode(isLeaf, |keys|, keys + seq(MAX_KEYS - |keys|, i => 0), children + seq(MAX_KEYS + 1 - |children|, i => 0))
  }

  /** The pages of an index whose first leaf is full. */
  function FullFirst(): Pages {
    map[0 := ZeroPage(false, [1], [1, 2]),
        1 := ZeroPage(true, seq(MAX_KEYS, i => 0), []),
        2 := ZeroPage(true, seq(ORDER - 1, i => 1), [])]
  }

  /** Search from a page of the set never leaves it, and no page of it holds key k. */
  ghost predicate NeverFound(p: Pages, s: set<nat>, k: nat) {
    forall x <- s ::
      && x in p && p[x].keysCount <= |p[x].keys| && p[x].keysCount < |p[x].children|
      && (forall j :: 0 <= j < p[x].keysCount ==> p[x].keys[j] != k)
      && (!p[x].isLeaf ==> forall j :: 0 <= j <= p[x].keysCount ==> p[x].children[j] in s)
  }

  /**
   Key 0, inserted beside a full first leaf: the insertion ends, and separator 1 and the whole second leaf are gone from
   the index. No page that search can come to holds key 1, which was there before.
   */
  lemma LostLeafExample(blank: nat -> Page)
    ensures var t := TwoLeaves(MAX_KEYS, 0, ORDER - 1, 1);
            && Represents(FullFirst(), t) && RootShape(t, 2) && Sorted(Flat(t)) && OwnPages(t, 2) && 1 in Flat(t)
    ensures var r := WrittenInsert(FullFirst(), 0, 2, 2, blank);
            r.Ended? && r.pages[0].children[..3] == [1, 3, 0] && NeverFound(r.pages, {0, 1, 3}, 1)
  {
    hide Flat, Sorted, OwnPages, WrittenNonFull, Cut, FullFirst, LowerHalf, LeafPage, NeverFound, Represents;
    var p, t := FullFirst(), TwoLeaves(MAX_KEYS, 0, ORDER - 1, 1);
    TwoLeavesIsIndex(MAX_KEYS, 0, ORDER - 1, 1);
    FullFirstHolds();
    FirstOf(t);
    FirstStep(p, t, 0, 2, 2, blank);
    var m, l := Cut(p, t, 0, 3, blank(3)), LowerHalf(t.kids[0]);
    CutHolds(p, t, 0, 2, 2, blank(3));
    LowerId(t.kids[0]);
    FirstStep(m, l, 0, 3, 1, blank);
    NoKids(t.kids[0]);
    FullFirstCut(blank(3));
  }

  lemma FirstOf(t: Tree)
    requires t == TwoLeaves(MAX_KEYS, 0, ORDER - 1, 1)
    ensures Position(t.keys, 0) == 0 && 1 in t.kids[0].keys + [1] + t.kids[1].keys
  {
    assert [1][..0] == [];
    assert (t.kids[0].keys + [1] + t.kids[1].keys)[MAX_KEYS] == 1;
  }

  lemma NoKids(c: Tree)
    requires IsFull(c) && c.kids == []
    ensures LowerHalf(c).kids == [] && |LowerHalf(c).keys| == ORDER - 1
  {
  }

  /** The pages after key 0 went into the lower half of the first leaf. */
  lemma FullFirstCut(blank: Page)
    requires HasRoom(FullFirst(), 0) && HasFull(FullFirst(), 1)
    ensures var t := TwoLeaves(MAX_KEYS, 0, ORDER - 1, 1);
            var m, i := Cut(FullFirst(), t, 0, 3, blank), Position(LowerHalf(t.kids[0]).keys, 0);
            && 1 in m && HasRoom(m, 1) && i <= m[1].keysCount
            && var q := m[1 := LeafPage(m[1], i, 0)];
               q[0].children[..3] == [1, 3, 0] && NeverFound(q, {0, 1, 3}, 1)
  {
    var p, t := FullFirst(), TwoLeaves(MAX_KEYS, 0, ORDER - 1, 1);
    var m, i := Cut(p, t, 0, 3, blank), Position(LowerHalf(t.kids[0]).keys, 0);
    assert m[1].keysCount == ORDER - 1 && forall j :: 0 <= j < MAX_KEYS ==> m[1].keys[j] == 0;
    assert i <= |LowerHalf(t.kids[0]).keys| == ORDER - 1;
    var q := m[1 := LeafPage(m[1], i, 0)];
    assert q[0].children[..3] == [1, 3, 0];
    assert q[0].keysCount == 2 && q[0].keys[0] == 0 && q[0].keys[1] == 0;
    assert q[0].children[0] == 1 && q[0].children[1] == 3 && q[0].children[2] == 0;
    assert forall j :: 0 <= j < ORDER ==> q[1].keys[j] == 0;
    assert q[3].keysCount == ORDER - 1 && forall j :: 0 <= j < ORDER - 1 ==> q[3].keys[j] == 0;
  }

  lemma FullFirstHolds()
    ensures Represents(FullFirst(), TwoLeaves(MAX_KEYS, 0, ORDER - 1, 1))
    ensures HasRoom(FullFirst(), 0) && HasFull(FullFirst(), 1)
  {
    var p, t := FullFirst(), TwoLeaves(MAX_KEYS, 0, ORDER - 1, 1);
    assert p[1].keys[..MAX_KEYS] == t.kids[0].keys;
    assert p[2].keys[..ORDER - 1] == t.kids[1].keys;
    assert p[0].keys[..1] == t.keys;
    assert p[0].children[0] == 1 && p[0].children[1] == 2;
    assert Represents(p, t.kids[0]) && Represents(p, t.kids[1]);
  }

  /** A full first child of a root with two keys: the bounds check stops the program. */
  lemma TrappedExample(p: Pages, blank: nat -> Page)
    requires Represents(p, Tree(0, [1, 1], [Leaf(1, MAX_KEYS, 0), Leaf(2, ORDER - 1, 1), Leaf(3, ORDER - 1, 1)]))
    ensures RootShape(Tree(0, [1, 1], [Leaf(1, MAX_KEYS, 0), Leaf(2, ORDER - 1, 1), Leaf(3, ORDER - 1, 1)]), 2)
    ensures WrittenInsert(p, 0, 3, 2, blank) == Stopped
  {
    hide WrittenNonFull;
    var t := Tree(0, [1, 1], [Leaf(1, MAX_KEYS, 0), Leaf(2, ORDER - 1, 1), Leaf(3, ORDER - 1, 1)]);
    assert Position([1, 1], 0) == 0 by { assert [1, 1][..1] == [1] && [1][..0] == []; }
    assert Shape(Leaf(1, MAX_KEYS, 0), 1) && Shape(Leaf(2, ORDER - 1, 1), 1) && Shape(Leaf(3, ORDER - 1, 1), 1);
    FirstStep(p, t, 0, 3, 2, blank);
  }
}
