/**
 Statements of `src/Core/BTreeIndex.cpp` that do not do what the index is for, exactly as they stand, and for each of
 them the exact condition under which it agrees with BTreeIndex.dfy: the shift loops of a split, and the id counter
 after a reload. What whole insertions make of the shift loops is in module BTreeInsertAsWritten.
 */
module BTreeAsWritten {
  import opened BTree
  import opened BTreeIndex
  import opened SeqFacts
  import opened Wrappers

  // ---------- The shift loops of split_child ----------

  /** The loop `for (i = start; i > bound; --i) s[i + 1] = s[i]` on a slice of `live` elements; None is a trap. */
  function Shift(s: seq<nat>, start: int, bound: int, live: nat): (r: Option<seq<nat>>)
    requires live <= |s| && bound >= -1
    ensures r.Some? ==> |r.value| == |s|
    decreases start - bound
  {
    if start <= bound then Some(s)
    else if start + 1 >= live then None
    else Shift(s[start + 1 := s[start]], start - 1, bound, live)
  }

  method ShiftLoop(a: array<nat>, start: int, bound: int, live: nat) returns (trapped: bool)
    requires live <= a.Length && bound >= -1
    modifies a
    ensures var r := Shift(old(a[..]), start, bound, live); trapped == r.None? && (!trapped ==> a[..] == r.value)
  {
    var i := start;
    while i > bound
      invariant Shift(a[..], i, bound, live) == Shift(old(a[..]), start, bound, live)
    {
      if i + 1 >= live {
        return true;
      }
      ghost var before := a[..];
      a[i + 1] := a[i];
      assert a[..] == before[i + 1 := before[i]];
      i := i - 1;
    }
    trapped := false;
  }

  /** What the loops and the stores after them leave in the parent's page; None when a bounds check traps. */
  function ParentAsWritten(d: DiskNode, childId: nat, i: nat, median: nat, newId: nat): Option<DiskNode>
    requires i <= d.keysCount < |d.keys| && d.keysCount + 1 < |d.children|
  {
    var children := Shift(d.children, d.keysCount, childId, d.keysCount + 1);
    var keys := Shift(d.keys, d.keysCount - 1, childId - 1, d.keysCount);
    if children.None? || keys.None? then None
    else Some(d.(keysCount := d.keysCount + 1,
                 keys := keys.value[i := median],
                 children := children.value[i + 1 := newId]))
  }

  method TakeSplitAsWritten(parent: Node, childId: nat, i: nat, median: nat, newId: nat) returns (trapped: bool)
    requires parent.Valid() && i <= parent.keysCount < MAX_KEYS
    modifies parent`keysCount, parent.keys, parent.children
    ensures var r := ParentAsWritten(old(parent.Disk()), childId, i, median, newId);
            trapped == r.None? && (!trapped ==> parent.Disk() == r.value)
  {
    trapped := ShiftLoop(parent.children, parent.keysCount, childId, parent.keysCount + 1);
    if trapped { return; }
    trapped := ShiftLoop(parent.keys, parent.keysCount - 1, childId - 1, parent.keysCount);
    if trapped { return; }
    parent.keysCount := parent.keysCount + 1;
    parent.children[i + 1] := newId;
    parent.keys[i] := median;
  }

  /** The loops never shift anything: they trap on their first step or take none. */
  lemma ParentAsWrittenIs(d: DiskNode, childId: nat, i: nat, median: nat, newId: nat)
    requires i <= d.keysCount < |d.keys| && d.keysCount + 1 < |d.children|
    ensures ParentAsWritten(d, childId, i, median, newId) ==
            if d.keysCount > childId then None
            else Some(d.(keysCount := d.keysCount + 1,
                         keys := d.keys[i := median],
                         children := d.children[i + 1 := newId]))
  {
  }

  /** The dead slots that the widened slices take in happen to repeat the parent's last key and child. */
  predicate DeadSlotsRepeatLast(d: DiskNode)
    requires d.keysCount < |d.keys| && d.keysCount + 1 < |d.children|
  {
    var n := d.keysCount;
    n > 0 && d.keys[n] == d.keys[n - 1] && d.children[n + 1] == d.children[n]
  }

  /** When the loops as written do what a split needs. */
  predicate ShiftFits(d: DiskNode, childId: nat, i: nat)
    requires d.keysCount < |d.keys| && d.keysCount + 1 < |d.children|
  {
    d.keysCount <= childId && (i == d.keysCount || (i + 1 == d.keysCount && DeadSlotsRepeatLast(d)))
  }

  /**
   For a page of any tree with distinct page ids, the loops as written produce the split parent exactly when the child's
   page id is at least the parent's key count and the child is the last one, or the last but one beside dead slots that
   repeat the last key and child.
   */
  lemma ParentAsWrittenAgrees(d: DiskNode, t: Tree, i: nat, newId: nat, last: nat)
    requires Matches(d, t) && !IsFull(t) && OwnPages(t, last) && i < |t.kids| && IsFull(t.kids[i])
    ensures var r := ParentAsWritten(d, t.kids[i].id, i, t.kids[i].keys[ORDER - 1], newId);
            (r.Some? && Matches(r.value, BTree.SplitChild(t, i, newId))) <==> ShiftFits(d, t.kids[i].id, i)
  {
    var n, m := d.keysCount, t.kids[i].keys[ORDER - 1];
    var s := BTree.SplitChild(t, i, newId);
    ParentAsWrittenIs(d, t.kids[i].id, i, m, newId);
    if n <= t.kids[i].id {
      var d' := ParentAsWritten(d, t.kids[i].id, i, m, newId).value;
      if ShiftFits(d, t.kids[i].id, i) {
        FittingShiftAgrees(d, d', t, i, newId);
      } else if Matches(d', s) {
        AgreeingShiftFits(d, d', t, i, newId, last);
      }
    }
  }

  lemma FittingShiftAgrees(d: DiskNode, d': DiskNode, t: Tree, i: nat, newId: nat)
    requires Matches(d, t) && !IsFull(t) && i < |t.kids| && IsFull(t.kids[i]) && ShiftFits(d, t.kids[i].id, i)
    requires d' == d.(keysCount := d.keysCount + 1, keys := d.keys[i := t.kids[i].keys[ORDER - 1]],
                      children := d.children[i + 1 := newId])
    ensures Matches(d', BTree.SplitChild(t, i, newId))
  {
    var n := d.keysCount;
    assert d'.keys[..n + 1] == InsertAt(d.keys[..n], i, t.kids[i].keys[ORDER - 1]);
    assert d.children[n] == t.kids[n].id;
    assert d'.children[..n + 2] == d.children[..i + 1] + [newId] + d.children[i + 1..n + 1];
    ParentMatches(d, d', t, i, newId);
  }

  lemma UsesOwnPage(t: Tree)
    ensures Uses(t, t.id) >= 1
  {
  }

  lemma DistinctKids(t: Tree, last: nat, a: nat, b: nat)
    requires OwnPages(t, last) && a < b < |t.kids|
    ensures t.kids[a].id != t.kids[b].id
  {
    UsesOwnPage(t.kids[a]);
    UsesOwnPage(t.kids[b]);
    assert Uses(t, t.kids[a].id) <= 1;
    KidUses(t.kids, a, t.kids[a].id);
  }

  lemma AgreeingShiftFits(d: DiskNode, d': DiskNode, t: Tree, i: nat, newId: nat, last: nat)
    requires Matches(d, t) && !IsFull(t) && OwnPages(t, last) && i < |t.kids| && IsFull(t.kids[i])
    requires d' == d.(keysCount := d.keysCount + 1, keys := d.keys[i := t.kids[i].keys[ORDER - 1]],
                      children := d.children[i + 1 := newId])
    requires Matches(d', BTree.SplitChild(t, i, newId)) && i < d.keysCount
    ensures i + 1 == d.keysCount && DeadSlotsRepeatLast(d)
  {
    var n, s := d.keysCount, BTree.SplitChild(t, i, newId);
    if i + 1 < n {
      assert s.kids[i + 2] == t.kids[i + 1];
      assert d.children[i + 2] == t.kids[i + 2].id;
      DistinctKids(t, last, i + 1, i + 2);
    }
    assert s.kids[n + 1] == t.kids[n];
    assert d'.keys[..n + 1][n] == s.keys[n] == t.keys[n - 1];
  }

  // ---------- The id counter after a reload ----------

  /**
   As written, a reloaded index starts handing out ids from a zeroed counter. That is safe exactly while the tree is
   the single page 0; from height 2 on, the very next id belongs to a page in use.
   */
  lemma ReloadedCounterIff(t: Tree, last: nat, h: nat)
    requires RootShape(t, h) && t.id == 0 && OwnPages(t, last)
    ensures OwnPages(t, 0) <==> h == 1
  {
    if h == 1 {
      forall x: nat
        ensures Uses(t, x) <= if x <= 0 then 1 else 0
      {
        assert TallyAll(t.kids, Only(x)) == 0;
      }
    } else {
      var x := t.kids[0].id;
      KidUses(t.kids, 0, x);
      KidOwns(t, 0, last);
      assert Uses(t.kids[0], x) >= 1 && Uses(t, x) >= 1;
    }
  }
}
