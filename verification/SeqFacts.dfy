/** Facts about ordered sequences that the index proofs share. */
module SeqFacts {

  ghost predicate Sorted(s: seq<nat>) {
    forall i, j :: 0 <= i < j < |s| ==> s[i] <= s[j]
  }

  ghost predicate AllLeq(a: seq<nat>, b: seq<nat>) {
    forall i, j :: 0 <= i < |a| && 0 <= j < |b| ==> a[i] <= b[j]
  }

  /** A concatenation is sorted exactly when both parts are and the first part lies below the second. */
  lemma SortedConcat(a: seq<nat>, b: seq<nat>)
    ensures Sorted(a + b) <==> Sorted(a) && Sorted(b) && AllLeq(a, b)
  {
    var s := a + b;
    if Sorted(s) {
      assert forall i :: 0 <= i < |a| ==> s[i] == a[i];
      assert forall j :: 0 <= j < |b| ==> s[|a| + j] == b[j];
      forall i, j | 0 <= i < |a| && 0 <= j < |b|
        ensures a[i] <= b[j]
      {
        assert s[i] <= s[|a| + j];
      }
      forall i, j | 0 <= i < j < |b|
        ensures b[i] <= b[j]
      {
        assert s[|a| + i] <= s[|a| + j];
      }
    }
  }

  /** Three-part form of `SortedConcat`, around a part that is about to be replaced. */
  lemma SortedConcat3(a: seq<nat>, b: seq<nat>, c: seq<nat>)
    ensures Sorted(a + b + c) <==>
            Sorted(a) && Sorted(b) && Sorted(c) && AllLeq(a, b) && AllLeq(b, c) && AllLeq(a, c)
  {
    SortedConcat(a + b, c);
    SortedConcat(a, b);
    var s := a + b;
    assert forall i :: 0 <= i < |a| ==> s[i] == a[i];
    assert forall j :: 0 <= j < |b| ==> s[|a| + j] == b[j];
    assert AllLeq(s, c) <==> AllLeq(a, c) && AllLeq(b, c);
  }

  /** Bounds of a sequence carry over to any sequence with one more, equally bounded, element. */
  lemma AllLeqGrow(a: seq<nat>, b: seq<nat>, b': seq<nat>, k: nat)
    requires multiset(b') == multiset(b) + multiset{k}
    requires AllLeq(a, b) && forall i :: 0 <= i < |a| ==> a[i] <= k
    ensures AllLeq(a, b')
  {
    forall i, j | 0 <= i < |a| && 0 <= j < |b'|
      ensures a[i] <= b'[j]
    {
      assert b'[j] in multiset(b');
      assert b'[j] == k || b'[j] in b;
    }
  }

  lemma AllGeqGrow(b: seq<nat>, b': seq<nat>, c: seq<nat>, k: nat)
    requires multiset(b') == multiset(b) + multiset{k}
    requires AllLeq(b, c) && forall i :: 0 <= i < |c| ==> k <= c[i]
    ensures AllLeq(b', c)
  {
    forall i, j | 0 <= i < |b'| && 0 <= j < |c|
      ensures b'[i] <= c[j]
    {
      assert b'[i] in multiset(b');
      assert b'[i] == k || b'[i] in b;
    }
  }

  /** Growing the middle part by an element that belongs there grows the whole by that element. */
  lemma SortedAround(a: seq<nat>, b: seq<nat>, b': seq<nat>, c: seq<nat>, k: nat)
    requires Sorted(a + b + c) && Sorted(b')
    requires multiset(b') == multiset(b) + multiset{k}
    requires forall i :: 0 <= i < |a| ==> a[i] <= k
    requires forall i :: 0 <= i < |c| ==> k <= c[i]
    ensures Sorted(a + b' + c)
    ensures multiset(a + b' + c) == multiset(a + b + c) + multiset{k}
  {
    SortedConcat3(a, b, c);
    AllLeqGrow(a, b, b', k);
    AllGeqGrow(b, b', c, k);
    SortedConcat3(a, b', c);
  }

  function InsertAt(s: seq<nat>, p: nat, k: nat): (r: seq<nat>)
    requires p <= |s|
    ensures |r| == |s| + 1 && r[p] == k
    ensures forall i :: 0 <= i < p ==> r[i] == s[i]
    ensures forall i :: p < i < |r| ==> r[i] == s[i - 1]
  {
    s[..p] + [k] + s[p..]
  }

  lemma InsertAtAdds(s: seq<nat>, p: nat, k: nat)
    requires p <= |s|
    ensures multiset(InsertAt(s, p, k)) == multiset(s) + multiset{k}
  {
    assert s == s[..p] + s[p..];
  }

  lemma GrownLength(s: seq<nat>, s': seq<nat>, k: nat)
    requires multiset(s') == multiset(s) + multiset{k}
    ensures |s'| == |s| + 1
  {
    assert |s'| == |multiset(s')| && |s| == |multiset(s)|;
  }

  /** Inserting k between the smaller and the larger elements keeps a sequence sorted. */
  lemma SortedInsert(s: seq<nat>, p: nat, k: nat)
    requires Sorted(s) && p <= |s|
    requires p > 0 ==> s[p - 1] <= k
    requires p < |s| ==> k <= s[p]
    ensures Sorted(InsertAt(s, p, k))
  {
    var r := InsertAt(s, p, k);
    forall i, j | 0 <= i < j < |r|
      ensures r[i] <= r[j]
    {
      if i == p {
        assert r[j] == s[j - 1] && s[p] <= s[j - 1];
      } else if j == p {
        assert r[i] == s[i] && s[i] <= s[p - 1];
      } else {
        var i', j' := if i < p then i else i - 1, if j < p then j else j - 1;
        assert r[i] == s[i'] && r[j] == s[j'] && i' < j';
      }
    }
  }
}
