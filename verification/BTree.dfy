/**
 The B-tree as a value: what `src/Core/BTreeIndex.cpp` keeps in its page file, with the page id of every node.
 Search, split and insertion are functions here; the class in BTreeIndex.dfy performs them on pages.
 */
module BTree {
  import opened SeqFacts

  type Order = n: nat | n >= 2 witness 2

  /** Any order of at least two; the source fixes 128 and rejects smaller values than two. */
  const ORDER: Order
  const MAX_KEYS: nat := 2 * ORDER - 1

  /** A node; `kids` is empty exactly for a leaf. */
  datatype Tree = Tree(id: nat, keys: seq<nat>, kids: seq<Tree>)

  predicate IsFull(t: Tree) {
    |t.keys| == MAX_KEYS
  }

  // ---------- What a tree holds ----------

  /** All keys of the tree, from left to right. */
  function Flat(t: Tree): seq<nat>
    decreases t, 1
  {
    if |t.kids| == |t.keys| + 1 then Flat(t.kids[0]) + After(t.keys, t.kids[1..]) else t.keys
  }

  /** Separators, each followed by the child to its right. */
  function After(keys: seq<nat>, kids: seq<Tree>): seq<nat>
    requires |kids| == |keys|
    decreases kids, 0
  {
    if keys == [] then [] else [keys[0]] + Flat(kids[0]) + After(keys[1..], kids[1..])
  }

  /** Separators, each preceded by the child to its left. */
  function Before(keys: seq<nat>, kids: seq<Tree>): seq<nat>
    requires |kids| == |keys|
  {
    if keys == [] then [] else Flat(kids[0]) + [keys[0]] + Before(keys[1..], kids[1..])
  }

  /** Everything left of child i. */
  function Left(t: Tree, i: nat): seq<nat>
    requires |t.kids| == |t.keys| + 1 && i <= |t.keys|
  {
    Before(t.keys[..i], t.kids[..i])
  }

  /** Everything right of child i. */
  function Right(t: Tree, i: nat): seq<nat>
    requires |t.kids| == |t.keys| + 1 && i <= |t.keys|
  {
    After(t.keys[i..], t.kids[i + 1..])
  }

  // ---------- Shape ----------

  predicate Filled(t: Tree) {
    ORDER - 1 <= |t.keys| <= MAX_KEYS
  }

  /** Every leaf of t lies h levels down, every node below t is filled. */
  ghost predicate Shape(t: Tree, h: nat)
    decreases h
  {
    if t.kids == [] then h == 1
    else
      && h > 1
      && |t.kids| == |t.keys| + 1
      && forall i :: 0 <= i < |t.kids| ==> Filled(t.kids[i]) && Shape(t.kids[i], h - 1)
  }

  ghost predicate RootShape(t: Tree, h: nat) {
    && Shape(t, h)
    && |t.keys| <= MAX_KEYS
    && (t.kids != [] ==> t.keys != [])
  }

  // ---------- Pages in use ----------

  /** The weights of the page ids of t, summed over its nodes. */
  ghost function Tally(t: Tree, w: nat -> nat): nat
    decreases t, 1
  {
    w(t.id) + TallyAll(t.kids, w)
  }

  ghost function TallyAll(kids: seq<Tree>, w: nat -> nat): nat
    decreases kids, 0
  {
    if kids == [] then 0 else Tally(kids[0], w) + TallyAll(kids[1..], w)
  }

  ghost function One(): nat -> nat {
    x => 1
  }

  ghost function Only(id: nat): nat -> nat {
    x => if x == id then 1 else 0
  }

  /** The number of nodes. */
  ghost function Nodes(t: Tree): nat {
    Tally(t, One())
  }

  /** How many nodes lie on page x. */
  ghost function Uses(t: Tree, x: nat): nat {
    Tally(t, Only(x))
  }

  /** Every node has its own page and no page id above `last` is in use. */
  ghost predicate OwnPages(t: Tree, last: nat) {
    forall x: nat :: Uses(t, x) <= (if x <= last then 1 else 0)
  }

  // ---------- Operations ----------

  /** Where key k goes among sorted keys: after every key that is not larger. */
  function Position(keys: seq<nat>, k: nat): (p: nat)
    ensures p <= |keys|
    ensures p > 0 ==> keys[p - 1] <= k
    ensures p < |keys| ==> k < keys[p]
  {
    if keys == [] || k >= keys[|keys| - 1] then |keys| else Position(keys[..|keys| - 1], k)
  }

  function LowerHalf(c: Tree): Tree
    requires IsFull(c)
  {
    Tree(c.id, c.keys[..ORDER - 1], if |c.kids| < ORDER then [] else c.kids[..ORDER])
  }

  function UpperHalf(c: Tree, newId: nat): Tree
    requires IsFull(c)
  {
    Tree(newId, c.keys[ORDER..], if |c.kids| < ORDER then [] else c.kids[ORDER..])
  }

  /** Child i of t cut at its median key, which moves up into t. */
  function SplitChild(t: Tree, i: nat, newId: nat): Tree
    requires i < |t.kids| && i <= |t.keys| && IsFull(t.kids[i])
  {
    var c := t.kids[i];
    Tree(t.id,
         InsertAt(t.keys, i, c.keys[ORDER - 1]),
         t.kids[..i] + [LowerHalf(c), UpperHalf(c, newId)] + t.kids[i + 1..])
  }

  /** The kid of a split node that takes key k. */
  function SideAfterSplit(t: Tree, i: nat, k: nat): (j: nat)
    requires i < |t.keys|
  {
    if k > t.keys[i] then i + 1 else i
  }

  /** Insertion below a node that is not full; `last` is the page id handed out last. */
  function InsertNonFull(t: Tree, k: nat, last: nat, ghost h: nat): (r: (Tree, nat))
    requires Shape(t, h)
    decreases h
  {
    var i := Position(t.keys, k);
    if t.kids == [] then
      (Tree(t.id, InsertAt(t.keys, i, k), []), last)
    else if IsFull(t.kids[i]) then
      SplitShape(t, i, last + 1, h);
      var s := SplitChild(t, i, last + 1);
      var j := SideAfterSplit(s, i, k);
      var (c, last') := InsertNonFull(s.kids[j], k, last + 1, h - 1);
      (s.(kids := s.kids[j := c]), last')
    else
      var (c, last') := InsertNonFull(t.kids[i], k, last, h - 1);
      (t.(kids := t.kids[i := c]), last')
  }

  lemma InsertNonFullSplits(t: Tree, k: nat, last: nat, h: nat, i: nat, s: Tree, j: nat)
    requires Shape(t, h) && t.kids != [] && i == Position(t.keys, k) && IsFull(t.kids[i])
    requires s == SplitChild(t, i, last + 1) && j == SideAfterSplit(s, i, k) && Shape(s, h)
    ensures var (c, last') := InsertNonFull(s.kids[j], k, last + 1, h - 1);
            InsertNonFull(t, k, last, h) == (s.(kids := s.kids[j := c]), last')
  {
  }

  /** The one-child root that takes the place of a full root; page 0 stays the root's page. */
  function GrownRoot(t: Tree, last: nat): Tree {
    Tree(0, [], [t.(id := last + 1)])
  }

  /** Insertion at the root. */
  function Insert(t: Tree, k: nat, last: nat, ghost h: nat): (r: (Tree, nat))
    requires RootShape(t, h)
  {
    if IsFull(t) then
      SplitShape(GrownRoot(t, last), 0, last + 2, h + 1);
      InsertNonFull(SplitChild(GrownRoot(t, last), 0, last + 2), k, last + 2, h + 1)
    else InsertNonFull(t, k, last, h)
  }

  function NewHeight(t: Tree, h: nat): nat {
    if IsFull(t) then h + 1 else h
  }

  // ---------- Shape is kept ----------

  lemma SplitShape(t: Tree, i: nat, newId: nat, h: nat)
    requires i < |t.kids| && |t.kids| == |t.keys| + 1 && h > 1
    requires forall j :: 0 <= j < |t.kids| ==> Filled(t.kids[j]) && Shape(t.kids[j], h - 1)
    requires IsFull(t.kids[i])
    ensures Shape(SplitChild(t, i, newId), h)
    ensures |SplitChild(t, i, newId).keys| == |t.keys| + 1
    ensures !IsFull(LowerHalf(t.kids[i])) && !IsFull(UpperHalf(t.kids[i], newId))
    ensures !IsFull(SplitChild(t, i, newId).kids[i]) && !IsFull(SplitChild(t, i, newId).kids[i + 1])
  {
    var c := t.kids[i];
    var s := SplitChild(t, i, newId);
    assert Shape(c, h - 1);
    var l, r := LowerHalf(c), UpperHalf(c, newId);
    assert Shape(l, h - 1) && Filled(l);
    assert Shape(r, h - 1) && Filled(r);
    forall j | 0 <= j < |s.kids|
      ensures Filled(s.kids[j]) && Shape(s.kids[j], h - 1)
    {
      if j < i { assert s.kids[j] == t.kids[j]; }
      else if j == i { assert s.kids[j] == l; }
      else if j == i + 1 { assert s.kids[j] == r; }
      else { assert s.kids[j] == t.kids[j - 1]; }
    }
  }

  lemma {:induction false} InsertNonFullShape(t: Tree, k: nat, last: nat, h: nat)
    requires Shape(t, h) && !IsFull(t) && |t.keys| < MAX_KEYS
    ensures var t' := InsertNonFull(t, k, last, h).0;
            && Shape(t', h)
            && t'.id == t.id
            && |t.keys| <= |t'.keys| <= |t.keys| + 1
            && (t.kids == [] <==> t'.kids == [])
    decreases h
  {
    hide LowerHalf, UpperHalf;
    var i := Position(t.keys, k);
    if t.kids == [] {
    } else if IsFull(t.kids[i]) {
      SplitShape(t, i, last + 1, h);
      var s := SplitChild(t, i, last + 1);
      var j := SideAfterSplit(s, i, k);
      InsertNonFullShape(s.kids[j], k, last + 1, h - 1);
    } else {
      InsertNonFullShape(t.kids[i], k, last, h - 1);
    }
  }

  /** One insertion keeps the B-tree shape: equal leaf depth, fill limits, one child more than keys. */
  lemma InsertShape(t: Tree, k: nat, last: nat, h: nat)
    requires RootShape(t, h)
    ensures RootShape(Insert(t, k, last, h).0, NewHeight(t, h))
    ensures t.id == 0 ==> Insert(t, k, last, h).0.id == 0
  {
    if IsFull(t) {
      SplitShape(GrownRoot(t, last), 0, last + 2, h + 1);
      InsertNonFullShape(SplitChild(GrownRoot(t, last), 0, last + 2), k, last + 2, h + 1);
    } else {
      InsertNonFullShape(t, k, last, h);
    }
  }

  // ---------- Keys are kept ----------

  lemma {:induction false} WeaveAround(k1: seq<nat>, c1: seq<Tree>, c: Tree, k2: seq<nat>, c2: seq<Tree>)
    requires |c1| == |k1| && |c2| == |k2|
    ensures var kids := c1 + [c] + c2;
            Flat(kids[0]) + After(k1 + k2, kids[1..]) == Before(k1, c1) + Flat(c) + After(k2, c2)
  {
    var kids := c1 + [c] + c2;
    if k1 == [] {
      assert k1 + k2 == k2 && kids[1..] == c2;
    } else {
      WeaveAround(k1[1..], c1[1..], c, k2, c2);
      assert (k1 + k2)[1..] == k1[1..] + k2;
      var rest := c1[1..] + [c] + c2;
      assert kids[1..] == rest;
      assert After(k1 + k2, rest) == [k1[0]] + Flat(rest[0]) + After(k1[1..] + k2, rest[1..]);
      Reassociate(Flat(c1[0]), [k1[0]], Flat(rest[0]), After(k1[1..] + k2, rest[1..]));
      Reassociate3(Flat(c1[0]) + [k1[0]], Before(k1[1..], c1[1..]), Flat(c), After(k2, c2));
    }
  }

  lemma Reassociate(a: seq<nat>, b: seq<nat>, c: seq<nat>, d: seq<nat>)
    ensures a + (b + c + d) == a + b + (c + d)
  {
  }

  lemma Reassociate3(a: seq<nat>, b: seq<nat>, c: seq<nat>, d: seq<nat>)
    ensures a + (b + c + d) == (a + b) + c + d
  {
  }

  /** A node's keys around its child i. */
  lemma FlatAt(t: Tree, i: nat)
    requires |t.kids| == |t.keys| + 1 && i <= |t.keys|
    ensures Flat(t) == Left(t, i) + Flat(t.kids[i]) + Right(t, i)
  {
    WeaveAround(t.keys[..i], t.kids[..i], t.kids[i], t.keys[i..], t.kids[i + 1..]);
    assert t.keys[..i] + t.keys[i..] == t.keys;
    assert t.kids[..i] + [t.kids[i]] + t.kids[i + 1..] == t.kids;
  }

  lemma ReplaceKid(t: Tree, i: nat, c: Tree)
    requires |t.kids| == |t.keys| + 1 && i <= |t.keys|
    ensures Flat(t.(kids := t.kids[i := c])) == Left(t, i) + Flat(c) + Right(t, i)
  {
    var t' := t.(kids := t.kids[i := c]);
    FlatAt(t', i);
    assert t'.kids[..i] == t.kids[..i];
    assert t'.kids[i + 1..] == t.kids[i + 1..];
  }

  lemma LowerFlat(c: Tree)
    requires IsFull(c) && |c.kids| == MAX_KEYS + 1
    ensures Flat(LowerHalf(c)) == Left(c, ORDER - 1) + Flat(c.kids[ORDER - 1])
  {
    var i, l := ORDER - 1, LowerHalf(c);
    FlatAt(l, i);
    assert l.keys[..i] == c.keys[..i] && l.kids[..i] == c.kids[..i];
    assert Right(l, i) == [];
  }

  lemma UpperFlat(c: Tree, newId: nat)
    requires IsFull(c) && |c.kids| == MAX_KEYS + 1
    ensures Right(c, ORDER - 1) == [c.keys[ORDER - 1]] + Flat(UpperHalf(c, newId))
  {
    var i, u := ORDER - 1, UpperHalf(c, newId);
    assert c.keys[i..][1..] == u.keys && c.kids[i + 1..][1..] == u.kids[1..];
  }

  lemma HalvesKeepKeys(c: Tree, newId: nat)
    requires IsFull(c)
    requires c.kids == [] || |c.kids| == MAX_KEYS + 1
    ensures Flat(c) == Flat(LowerHalf(c)) + [c.keys[ORDER - 1]] + Flat(UpperHalf(c, newId))
  {
    hide Left, Right, After, Before;
    if c.kids == [] {
      assert c.keys == c.keys[..ORDER - 1] + [c.keys[ORDER - 1]] + c.keys[ORDER..];
    } else {
      LowerFlat(c);
      UpperFlat(c, newId);
      FlatAt(c, ORDER - 1);
    }
  }

  /** Splitting a child changes the left-to-right keys of the tree not at all. */
  lemma SplitKeepsKeys(t: Tree, i: nat, newId: nat)
    requires |t.kids| == |t.keys| + 1 && i <= |t.keys| && IsFull(t.kids[i])
    requires t.kids[i].kids == [] || |t.kids[i].kids| == MAX_KEYS + 1
    ensures Flat(SplitChild(t, i, newId)) == Flat(t)
  {
    var c, s := t.kids[i], SplitChild(t, i, newId);
    var l, m, r := LowerHalf(c), c.keys[ORDER - 1], UpperHalf(c, newId);
    FlatAt(t, i);
    FlatAt(s, i);
    assert Left(s, i) == Left(t, i) by { assert s.keys[..i] == t.keys[..i] && s.kids[..i] == t.kids[..i]; }
    assert Right(s, i) == [m] + Flat(r) + Right(t, i) by {
      assert s.keys[i..][1..] == t.keys[i..] && s.kids[i + 1..][1..] == t.kids[i + 1..];
    }
    HalvesKeepKeys(c, newId);
    Regroup(Left(t, i), Flat(l), m, Flat(r), Right(t, i));
  }

  lemma Regroup(a: seq<nat>, l: seq<nat>, m: nat, r: seq<nat>, d: seq<nat>)
    ensures a + l + ([m] + r + d) == a + (l + [m] + r) + d
  {
  }

  lemma LastBefore(keys: seq<nat>, kids: seq<Tree>)
    requires |kids| == |keys| && keys != []
    ensures var b := Before(keys, kids); b != [] && b[|b| - 1] == keys[|keys| - 1]
  {
  }

  /** In a sorted node the separators next to child i bound everything beyond them. */
  lemma Separates(t: Tree, i: nat)
    requires |t.kids| == |t.keys| + 1 && i <= |t.keys|
    requires Sorted(Flat(t))
    ensures i == 0 ==> Left(t, i) == []
    ensures i == |t.keys| ==> Right(t, i) == []
    ensures i > 0 ==> t.keys[i - 1] in Left(t, i)
    ensures i < |t.keys| ==> t.keys[i] in Right(t, i)
    ensures i > 0 ==> forall j :: 0 <= j < |Left(t, i)| ==> Left(t, i)[j] <= t.keys[i - 1]
    ensures i < |t.keys| ==> forall j :: 0 <= j < |Right(t, i)| ==> t.keys[i] <= Right(t, i)[j]
  {
    var a, b, c := Left(t, i), Flat(t.kids[i]), Right(t, i);
    FlatAt(t, i);
    SortedConcat3(a, b, c);
    if i > 0 { LastBefore(t.keys[..i], t.kids[..i]); }
    if i < |t.keys| { assert c[0] == t.keys[i]; }
  }

  ghost predicate GrownBy(t: Tree, t': Tree, k: nat) {
    Sorted(Flat(t')) && multiset(Flat(t')) == multiset(Flat(t)) + multiset{k}
  }

  /** Growing the child that key k belongs to grows the node. */
  lemma GrowKid(t: Tree, i: nat, c: Tree, k: nat)
    requires |t.kids| == |t.keys| + 1 && i <= |t.keys|
    requires Sorted(Flat(t))
    requires i > 0 ==> t.keys[i - 1] <= k
    requires i < |t.keys| ==> k <= t.keys[i]
    requires GrownBy(t.kids[i], c, k)
    ensures GrownBy(t, t.(kids := t.kids[i := c]), k)
  {
    FlatAt(t, i);
    ReplaceKid(t, i, c);
    Separates(t, i);
    SortedAround(Left(t, i), Flat(t.kids[i]), Flat(c), Right(t, i), k);
  }

  lemma KidSorted(t: Tree, i: nat)
    requires |t.kids| == |t.keys| + 1 && i <= |t.keys|
    requires Sorted(Flat(t))
    ensures Sorted(Flat(t.kids[i]))
  {
    FlatAt(t, i);
    SortedConcat3(Left(t, i), Flat(t.kids[i]), Right(t, i));
  }

  lemma {:induction false} InsertNonFullGrows(t: Tree, k: nat, last: nat, h: nat)
    requires Shape(t, h) && Sorted(Flat(t))
    ensures GrownBy(t, InsertNonFull(t, k, last, h).0, k)
    decreases h
  {
    var i := Position(t.keys, k);
    if t.kids == [] {
      SortedInsert(t.keys, i, k);
      InsertAtAdds(t.keys, i, k);
    } else if IsFull(t.kids[i]) {
      SplitShape(t, i, last + 1, h);
      assert Shape(t.kids[i], h - 1);
      SplitKeepsKeys(t, i, last + 1);
      var s := SplitChild(t, i, last + 1);
      SplitPlaces(t, i, k);
      InsertInKid(s, SideAfterSplit(s, i, k), k, last + 1, h);
    } else {
      InsertInKid(t, i, k, last, h);
    }
  }

  /** The side chosen after a split is the one key k belongs to. */
  lemma SplitPlaces(t: Tree, i: nat, k: nat)
    requires i < |t.kids| && |t.kids| == |t.keys| + 1 && IsFull(t.kids[i])
    requires i == Position(t.keys, k)
    ensures forall newId ::
              var s := SplitChild(t, i, newId);
              var j := SideAfterSplit(s, i, k);
              (j > 0 ==> s.keys[j - 1] <= k) && (j < |s.keys| ==> k <= s.keys[j])
  {
  }

  lemma {:induction false} InsertInKid(t: Tree, i: nat, k: nat, last: nat, h: nat)
    requires Shape(t, h) && Sorted(Flat(t)) && i < |t.kids|
    requires i > 0 ==> t.keys[i - 1] <= k
    requires i < |t.keys| ==> k <= t.keys[i]
    ensures GrownBy(t, t.(kids := t.kids[i := InsertNonFull(t.kids[i], k, last, h - 1).0]), k)
    decreases h, 0
  {
    KidSorted(t, i);
    InsertNonFullGrows(t.kids[i], k, last, h - 1);
    GrowKid(t, i, InsertNonFull(t.kids[i], k, last, h - 1).0, k);
  }

  /** One insertion keeps the keys in order and adds exactly one occurrence of k. */
  lemma InsertGrows(t: Tree, k: nat, last: nat, h: nat)
    requires RootShape(t, h) && Sorted(Flat(t))
    ensures GrownBy(t, Insert(t, k, last, h).0, k)
  {
    if IsFull(t) {
      var g := GrownRoot(t, last);
      SplitShape(g, 0, last + 2, h + 1);
      SplitKeepsKeys(g, 0, last + 2);
      assert Flat(g) == Flat(g.kids[0]) == Flat(t);
      InsertNonFullGrows(SplitChild(g, 0, last + 2), k, last + 2, h + 1);
    } else {
      InsertNonFullGrows(t, k, last, h);
    }
  }

  // ---------- Order, seen node by node ----------

  /** The order condition as it is usually stated: keys of a node sorted, separators bound the subtrees. */
  ghost predicate SeparatorsHold(t: Tree)
    decreases t
  {
    && Sorted(t.keys)
    && forall i :: 0 <= i < |t.kids| ==> SeparatorsHold(t.kids[i]) && Between(t, i)
  }

  ghost predicate Between(t: Tree, i: nat)
    requires i < |t.kids|
  {
    && (0 < i <= |t.keys| ==> forall x :: x in Flat(t.kids[i]) ==> t.keys[i - 1] <= x)
    && (i < |t.keys| ==> forall x :: x in Flat(t.kids[i]) ==> x <= t.keys[i])
  }

  /** Left-to-right order and the separator condition are the same thing. */
  lemma {:induction false} SortedIffSeparated(t: Tree, h: nat)
    requires Shape(t, h)
    ensures Sorted(Flat(t)) <==> SeparatorsHold(t)
    decreases h
  {
    if t.kids != [] {
      forall i | 0 <= i < |t.kids|
        ensures Sorted(Flat(t.kids[i])) <==> SeparatorsHold(t.kids[i])
      {
        SortedIffSeparated(t.kids[i], h - 1);
      }
      if Sorted(Flat(t)) {
        SeparatedIfSorted(t);
      } else if SeparatorsHold(t) {
        var i := |t.keys|;
        SortedIfSeparated(t, i);
        KidAbove(t, i, Left(t, i));
        SortedConcat(Left(t, i), Flat(t.kids[i]));
        FlatAt(t, i);
      }
    }
  }

  lemma SeparatedIfSorted(t: Tree)
    requires |t.kids| == |t.keys| + 1 && Sorted(Flat(t))
    ensures Sorted(t.keys)
    ensures forall i :: 0 <= i < |t.kids| ==> Between(t, i) && Sorted(Flat(t.kids[i]))
  {
    forall i, j | 0 <= i < j < |t.keys|
      ensures t.keys[i] <= t.keys[j]
    {
      Separates(t, j);
      var a := Before(t.keys[..j], t.kids[..j]);
      InBefore(t.keys[..j], t.kids[..j], i);
      FlatAt(t, j);
      SortedConcat3(Left(t, j), Flat(t.kids[j]), Right(t, j));
      assert t.keys[..j][i] in a && t.keys[j] in Right(t, j);
    }
    forall i | 0 <= i < |t.kids|
      ensures Between(t, i) && Sorted(Flat(t.kids[i]))
    {
      var a, b, c := Left(t, i), Flat(t.kids[i]), Right(t, i);
      FlatAt(t, i);
      SortedConcat3(a, b, c);
      Separates(t, i);
    }
  }

  lemma InBefore(keys: seq<nat>, kids: seq<Tree>, i: nat)
    requires |kids| == |keys| && i < |keys|
    ensures keys[i] in Before(keys, kids)
  {
    if i > 0 {
      InBefore(keys[1..], kids[1..], i - 1);
    }
  }

  lemma {:induction false} BeforeGrows(keys: seq<nat>, kids: seq<Tree>)
    requires |kids| == |keys| && keys != []
    ensures var n := |keys| - 1;
            Before(keys, kids) == Before(keys[..n], kids[..n]) + Flat(kids[n]) + [keys[n]]
  {
    var n := |keys| - 1;
    if n > 0 {
      BeforeGrows(keys[1..], kids[1..]);
      assert keys[1..][..n - 1] == keys[..n][1..] && kids[1..][..n - 1] == kids[..n][1..];
    }
  }

  lemma LeftGrows(t: Tree, i: nat)
    requires |t.kids| == |t.keys| + 1 && 0 < i <= |t.keys|
    ensures Left(t, i) == Left(t, i - 1) + Flat(t.kids[i - 1]) + [t.keys[i - 1]]
  {
    hide Flat;
    BeforeGrows(t.keys[..i], t.kids[..i]);
    assert t.keys[..i][..i - 1] == t.keys[..i - 1] && t.kids[..i][..i - 1] == t.kids[..i - 1];
  }

  lemma {:induction false} SortedIfSeparated(t: Tree, i: nat)
    requires |t.kids| == |t.keys| + 1 && i <= |t.keys| && Sorted(t.keys)
    requires forall j :: 0 <= j < |t.kids| ==> Between(t, j) && Sorted(Flat(t.kids[j]))
    ensures Sorted(Left(t, i))
    ensures i > 0 ==> forall j :: 0 <= j < |Left(t, i)| ==> Left(t, i)[j] <= t.keys[i - 1]
  {
    hide Flat, After, Between;
    if i > 0 {
      SortedIfSeparated(t, i - 1);
      var a, b, m := Left(t, i - 1), Flat(t.kids[i - 1]), t.keys[i - 1];
      LeftGrows(t, i);
      KidAbove(t, i - 1, a);
      KidBelow(t, i - 1, b);
      if i > 1 { assert t.keys[i - 2] <= m; }
      SortedConcat3(a, b, [m]);
    }
  }

  lemma KidAbove(t: Tree, i: nat, a: seq<nat>)
    requires i < |t.kids| && i <= |t.keys| && Between(t, i)
    requires if i == 0 then a == [] else forall j :: 0 <= j < |a| ==> a[j] <= t.keys[i - 1]
    ensures AllLeq(a, Flat(t.kids[i]))
  {
    forall p, q | 0 <= p < |a| && 0 <= q < |Flat(t.kids[i])|
      ensures a[p] <= Flat(t.kids[i])[q]
    {
      assert Flat(t.kids[i])[q] in Flat(t.kids[i]);
    }
  }

  lemma KidBelow(t: Tree, i: nat, b: seq<nat>)
    requires i < |t.kids| && i < |t.keys| && Between(t, i) && b == Flat(t.kids[i])
    ensures AllLeq(b, [t.keys[i]])
    ensures forall q :: 0 <= q < |b| ==> b[q] <= t.keys[i]
  {
    forall q | 0 <= q < |b|
      ensures b[q] <= t.keys[i]
    {
      assert b[q] in b;
    }
  }

  // ---------- Search ----------

  /** The first key that is not below q. */
  function FirstAtLeast(keys: seq<nat>, q: nat): (i: nat)
    ensures i <= |keys|
    ensures forall j :: 0 <= j < i ==> keys[j] < q
    ensures i < |keys| ==> q <= keys[i]
  {
    if keys == [] || q <= keys[0] then 0 else 1 + FirstAtLeast(keys[1..], q)
  }

  predicate Found(t: Tree, q: nat, ghost h: nat)
    requires Shape(t, h)
    decreases h
  {
    var i := FirstAtLeast(t.keys, q);
    if i < |t.keys| && t.keys[i] == q then true
    else if t.kids == [] then false
    else Found(t.kids[i], q, h - 1)
  }

  /** Search answers yes exactly for the keys of the tree. */
  lemma {:induction false} FoundIff(t: Tree, q: nat, h: nat)
    requires Shape(t, h) && Sorted(Flat(t))
    ensures Found(t, q, h) <==> q in Flat(t)
    decreases h
  {
    var i := FirstAtLeast(t.keys, q);
    if t.kids != [] {
      FlatAt(t, i);
      Separates(t, i);
      if !(i < |t.keys| && t.keys[i] == q) {
        KidSorted(t, i);
        FoundIff(t.kids[i], q, h - 1);
      }
    }
  }

  // ---------- Pages in use after an insertion ----------

  /** The weights of the page ids after `last`, up to `last'`. */
  ghost function RangeTally(w: nat -> nat, last: nat, last': nat): nat
    requires last <= last'
    decreases last' - last
  {
    if last == last' then 0 else w(last + 1) + RangeTally(w, last + 1, last')
  }

  lemma {:induction false} RangeTallyOnly(x: nat, last: nat, last': nat)
    requires last <= last'
    ensures RangeTally(Only(x), last, last') == if last < x <= last' then 1 else 0
    decreases last' - last
  {
    if last < last' {
      RangeTallyOnly(x, last + 1, last');
    }
  }

  lemma {:induction false} RangeTallyOne(last: nat, last': nat)
    requires last <= last'
    ensures RangeTally(One(), last, last') == last' - last
    decreases last' - last
  {
    if last < last' {
      RangeTallyOne(last + 1, last');
    }
  }

  lemma {:induction false} TallyConcat(a: seq<Tree>, b: seq<Tree>, w: nat -> nat)
    ensures TallyAll(a + b, w) == TallyAll(a, w) + TallyAll(b, w)
  {
    if a == [] {
      assert a + b == b;
    } else {
      TallyConcat(a[1..], b, w);
      assert (a + b)[1..] == a[1..] + b;
    }
  }

  lemma TallyAround(a: seq<Tree>, c: Tree, b: seq<Tree>, w: nat -> nat)
    ensures TallyAll(a + [c] + b, w) == TallyAll(a, w) + Tally(c, w) + TallyAll(b, w)
  {
    TallyConcat(a + [c], b, w);
    TallyConcat(a, [c], w);
    assert TallyAll([c], w) == Tally(c, w) + TallyAll([], w);
  }

  lemma TallyReplace(kids: seq<Tree>, i: nat, c: Tree, w: nat -> nat)
    requires i < |kids|
    ensures TallyAll(kids[i := c], w) + Tally(kids[i], w) == TallyAll(kids, w) + Tally(c, w)
    ensures Tally(kids[i], w) <= TallyAll(kids, w)
  {
    TallyAround(kids[..i], kids[i], kids[i + 1..], w);
    TallyAround(kids[..i], c, kids[i + 1..], w);
    assert kids == kids[..i] + [kids[i]] + kids[i + 1..];
    assert kids[i := c] == kids[..i] + [c] + kids[i + 1..];
  }

  lemma HalvesTally(c: Tree, newId: nat, w: nat -> nat)
    requires IsFull(c)
    requires c.kids == [] || |c.kids| == MAX_KEYS + 1
    ensures Tally(LowerHalf(c), w) + Tally(UpperHalf(c, newId), w) == Tally(c, w) + w(newId)
  {
    if c.kids != [] {
      TallyConcat(c.kids[..ORDER], c.kids[ORDER..], w);
      assert c.kids[..ORDER] + c.kids[ORDER..] == c.kids;
    }
  }

  /** A split uses one more page, the new one. */
  lemma SplitTally(t: Tree, i: nat, newId: nat, w: nat -> nat)
    requires i < |t.kids| && i <= |t.keys| && IsFull(t.kids[i])
    requires t.kids[i].kids == [] || |t.kids[i].kids| == MAX_KEYS + 1
    ensures Tally(SplitChild(t, i, newId), w) == Tally(t, w) + w(newId)
  {
    hide LowerHalf, UpperHalf, TallyAll;
    var c, a, b := t.kids[i], t.kids[..i], t.kids[i + 1..];
    var l, r := LowerHalf(c), UpperHalf(c, newId);
    HalvesTally(c, newId, w);
    TallyAround(a, c, b, w);
    assert t.kids == a + [c] + b;
    TallyConcat(a + [l, r], b, w);
    TallyConcat(a, [l, r], w);
    PairTally(l, r, w);
    assert SplitChild(t, i, newId).kids == a + [l, r] + b;
  }

  lemma PairTally(l: Tree, r: Tree, w: nat -> nat)
    ensures TallyAll([l, r], w) == Tally(l, w) + Tally(r, w)
  {
    assert [l, r][1..] == [r] && [r][1..] == [];
    assert TallyAll([r], w) == Tally(r, w);
  }

  lemma {:induction false} InsertNonFullTally(t: Tree, k: nat, last: nat, h: nat, w: nat -> nat)
    requires Shape(t, h)
    ensures var (t', last') := InsertNonFull(t, k, last, h);
            last <= last' && Tally(t', w) == Tally(t, w) + RangeTally(w, last, last')
    decreases h
  {
    var i := Position(t.keys, k);
    if t.kids == [] {
    } else if IsFull(t.kids[i]) {
      SplitShape(t, i, last + 1, h);
      assert Shape(t.kids[i], h - 1);
      SplitTally(t, i, last + 1, w);
      var s := SplitChild(t, i, last + 1);
      var j := SideAfterSplit(s, i, k);
      InsertInKidTally(s, j, k, last + 1, h, w);
    } else {
      InsertInKidTally(t, i, k, last, h, w);
    }
  }

  lemma {:induction false} InsertInKidTally(t: Tree, i: nat, k: nat, last: nat, h: nat, w: nat -> nat)
    requires Shape(t, h) && i < |t.kids|
    ensures var (c, last') := InsertNonFull(t.kids[i], k, last, h - 1);
            last <= last' && Tally(t.(kids := t.kids[i := c]), w) == Tally(t, w) + RangeTally(w, last, last')
    decreases h, 0
  {
    InsertNonFullTally(t.kids[i], k, last, h - 1, w);
    TallyReplace(t.kids, i, InsertNonFull(t.kids[i], k, last, h - 1).0, w);
  }

  lemma InsertTally(t: Tree, k: nat, last: nat, h: nat, w: nat -> nat)
    requires RootShape(t, h) && t.id == 0
    ensures var (t', last') := Insert(t, k, last, h);
            last <= last' && Tally(t', w) == Tally(t, w) + RangeTally(w, last, last')
  {
    if IsFull(t) {
      var g := GrownRoot(t, last);
      SplitShape(g, 0, last + 2, h + 1);
      SplitTally(g, 0, last + 2, w);
      assert Tally(g, w) == w(0) + Tally(g.kids[0], w) + TallyAll([], w);
      InsertNonFullTally(SplitChild(g, 0, last + 2), k, last + 2, h + 1, w);
    } else {
      InsertNonFullTally(t, k, last, h, w);
    }
  }

  /** One insertion uses every page once and adds exactly the pages it handed out. */
  lemma InsertPages(t: Tree, k: nat, last: nat, h: nat)
    requires RootShape(t, h) && t.id == 0 && OwnPages(t, last)
    ensures var (t', last') := Insert(t, k, last, h);
            && last <= last'
            && OwnPages(t', last')
            && Nodes(t') == Nodes(t) + last' - last
            && forall x: nat :: Uses(t', x) == Uses(t, x) + if last < x <= last' then 1 else 0
  {
    var (t', last') := Insert(t, k, last, h);
    InsertTally(t, k, last, h, One());
    RangeTallyOne(last, last');
    forall x: nat
      ensures Uses(t', x) == Uses(t, x) + if last < x <= last' then 1 else 0
    {
      InsertTally(t, k, last, h, Only(x));
      RangeTallyOnly(x, last, last');
    }
  }

  // ---------- Whole runs ----------

  datatype Index = Index(tree: Tree, last: nat, height: nat)

  ghost predicate Reachable(x: Index) {
    RootShape(x.tree, x.height) && x.tree.id == 0
  }

  /** A fresh index after inserting the given keys in order. */
  ghost function Run(keys: seq<nat>): (x: Index)
    ensures Reachable(x)
  {
    if keys == [] then Index(Tree(0, [], []), 0, 1)
    else
      var n := |keys| - 1;
      var x := Run(keys[..n]);
      InsertShape(x.tree, keys[n], x.last, x.height);
      var (t, last) := Insert(x.tree, keys[n], x.last, x.height);
      Index(t, last, NewHeight(x.tree, x.height))
  }

  ghost predicate Holds(x: Index, keys: seq<nat>) {
    Sorted(Flat(x.tree)) && multiset(Flat(x.tree)) == multiset(keys)
  }

  ghost predicate Dense(x: Index) {
    OwnPages(x.tree, x.last) && Nodes(x.tree) == x.last + 1
  }

  lemma {:induction false} RunHolds(keys: seq<nat>)
    ensures Holds(Run(keys), keys)
  {
    hide Shape, InsertNonFull, SplitChild;
    if keys != [] {
      var n := |keys| - 1;
      RunHolds(keys[..n]);
      var y := Run(keys[..n]);
      assert keys == keys[..n] + [keys[n]];
      InsertGrows(y.tree, keys[n], y.last, y.height);
    }
  }

  lemma {:induction false} RunDense(keys: seq<nat>)
    ensures Dense(Run(keys))
  {
    hide Shape, InsertNonFull, SplitChild;
    if keys != [] {
      var n := |keys| - 1;
      RunDense(keys[..n]);
      var y := Run(keys[..n]);
      InsertPages(y.tree, keys[n], y.last, y.height);
    } else {
      assert forall u: nat :: Uses(Run(keys).tree, u) == if u == 0 then 1 else 0;
    }
  }

  /**
   Every run of insertions from a fresh index: the tree is a B-tree of the height the header says, holds exactly the
   inserted keys in order, uses the pages 0, 1, ..., last once each, and search answers for exactly the inserted keys.
   */
  lemma RunIsIndex(keys: seq<nat>)
    ensures var x := Run(keys);
            && RootShape(x.tree, x.height)
            && Sorted(Flat(x.tree)) && multiset(Flat(x.tree)) == multiset(keys)
            && OwnPages(x.tree, x.last) && Nodes(x.tree) == x.last + 1
            && forall q :: Found(x.tree, q, x.height) <==> q in keys
  {
    var x := Run(keys);
    RunHolds(keys);
    RunDense(keys);
    forall q
      ensures Found(x.tree, q, x.height) <==> q in keys
    {
      FoundIff(x.tree, q, x.height);
      assert q in Flat(x.tree) <==> q in multiset(Flat(x.tree));
    }
  }
}
