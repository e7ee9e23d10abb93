/**
 The open-addressing hash table `ok::Table` of `src/Core/ok.hpp`: linear probing, growth at 70 percent load.
 `Table::remove` is not modelled: it frees a slot in the middle of a probe run.
 */
module HashTable {
  import opened Arithmetic
  import opened Wrappers

  // ---------- Probing a ring of slots ----------

  function Home<K>(hash: K -> nat, k: K, capacity: nat): (h: nat)
    requires capacity > 0
    ensures h < capacity
  {
    hash(k) % capacity
  }

  function Next(i: nat, capacity: nat): (j: nat)
    requires i < capacity
    ensures j == if i + 1 == capacity then 0 else i + 1
  {
    (i + 1) % capacity
  }

  /** Steps from slot h forward to slot j. */
  function Steps(h: nat, j: nat, capacity: nat): (d: nat)
    requires h < capacity && j < capacity
    ensures d < capacity
  {
    if j >= h then j - h else j + capacity - h
  }

  function CountUsed(used: seq<bool>): (n: nat)
    ensures n <= |used|
  {
    if used == [] then 0 else (if used[0] then 1 else 0) + CountUsed(used[1..])
  }

  lemma {:induction false} CountSet(used: seq<bool>, i: nat)
    requires i < |used| && !used[i]
    ensures CountUsed(used[i := true]) == CountUsed(used) + 1
  {
    if i > 0 {
      CountSet(used[1..], i - 1);
      assert used[i := true][1..] == used[1..][i - 1 := true];
    } else {
      assert used[0 := true][1..] == used[1..];
    }
  }

  lemma {:induction false} AllUsed(used: seq<bool>)
    requires forall i :: 0 <= i < |used| ==> used[i]
    ensures CountUsed(used) == |used|
  {
    if used != [] {
      AllUsed(used[1..]);
    }
  }

  lemma {:induction false} NoneUsed(used: seq<bool>)
    requires forall i :: 0 <= i < |used| ==> !used[i]
    ensures CountUsed(used) == 0
  {
    if used != [] {
      NoneUsed(used[1..]);
    }
  }

  // ---------- What a table holds ----------

  /** The three parallel arrays. */
  datatype Slots<K, V> = Slots(keys: seq<K>, values: seq<V>, used: seq<bool>) {
    ghost predicate Shaped() {
      |keys| == |values| == |used| > 0
    }
  }

  /** No key lies in two slots. */
  ghost predicate Unique<K, V>(s: Slots<K, V>)
    requires s.Shaped()
  {
    forall i, j :: 0 <= i < j < |s.keys| && s.used[i] && s.used[j] ==> s.keys[i] != s.keys[j]
  }

  /** Every slot from the home slot of a key to the slot it lies in is used. */
  ghost predicate Probed<K, V>(s: Slots<K, V>, hash: K -> nat)
    requires s.Shaped()
  {
    forall j: nat, x: nat {:trigger s.used[j], s.used[x]} :: j < |s.keys| && x < |s.keys| && s.used[j]
      && Steps(Home(hash, s.keys[j], |s.keys|), x, |s.keys|) < Steps(Home(hash, s.keys[j], |s.keys|), j, |s.keys|)
      ==> s.used[x]
  }

  /** The used slots hold exactly the bindings of m. */
  ghost predicate Bindings<K, V>(s: Slots<K, V>, m: map<K, V>)
    requires s.Shaped()
  {
    && (forall i :: 0 <= i < |s.keys| && s.used[i] ==> s.keys[i] in m && m[s.keys[i]] == s.values[i])
    && (forall k :: k in m ==> exists i :: 0 <= i < |s.keys| && s.used[i] && s.keys[i] == k)
  }

  ghost predicate Represents<K, V>(s: Slots<K, V>, hash: K -> nat, m: map<K, V>)
    requires s.Shaped()
  {
    Unique(s) && Probed(s, hash) && Bindings(s, m)
  }

  /** A probe for k that has passed `d` slots, all used by other keys. */
  ghost predicate Passed<K, V>(s: Slots<K, V>, h: nat, k: K, d: nat)
    requires s.Shaped() && h < |s.keys|
  {
    forall x: nat {:trigger s.used[x]} {:trigger s.keys[x]} ::
      x < |s.keys| && Steps(h, x, |s.keys|) < d ==> s.used[x] && s.keys[x] != k
  }

  /** A probe for k that stands at a free slot proves that k is in no slot. */
  lemma AbsentAtFree<K, V>(s: Slots<K, V>, hash: K -> nat, idx: nat, k: K)
    requires s.Shaped() && Probed(s, hash) && idx < |s.keys| && !s.used[idx]
    requires var h := Home(hash, k, |s.keys|); Passed(s, h, k, Steps(h, idx, |s.keys|))
    ensures forall j :: 0 <= j < |s.keys| && s.used[j] ==> s.keys[j] != k
  {
    var h, n := Home(hash, k, |s.keys|), |s.keys|;
    forall j: nat | j < n && s.used[j]
      ensures s.keys[j] != k
    {
      assert j != idx;
    }
  }

  function Stored<K, V>(s: Slots<K, V>, idx: nat, k: K, v: V): Slots<K, V>
    requires s.Shaped() && idx < |s.keys|
  {
    Slots(s.keys[idx := k], s.values[idx := v], s.used[idx := true])
  }

  lemma StoreKeepsProbed<K, V>(s: Slots<K, V>, hash: K -> nat, idx: nat, k: K, v: V)
    requires s.Shaped() && Probed(s, hash) && idx < |s.keys| && (s.used[idx] ==> s.keys[idx] == k)
    requires var h := Home(hash, k, |s.keys|); Passed(s, h, k, Steps(h, idx, |s.keys|))
    ensures Probed(Stored(s, idx, k, v), hash)
  {
  }

  lemma StoreBinds<K, V>(s: Slots<K, V>, m: map<K, V>, idx: nat, k: K, v: V)
    requires s.Shaped() && Unique(s) && Bindings(s, m) && idx < |s.keys|
    requires s.used[idx] ==> s.keys[idx] == k
    requires forall j :: 0 <= j < |s.keys| && j != idx && s.used[j] ==> s.keys[j] != k
    ensures Unique(Stored(s, idx, k, v)) && Bindings(Stored(s, idx, k, v), m[k := v])
  {
    var s' := Stored(s, idx, k, v);
    assert forall i :: 0 <= i < |s.keys| && i != idx ==>
             s'.keys[i] == s.keys[i] && s'.used[i] == s.used[i] && s'.values[i] == s.values[i];
    assert s'.keys[idx] == k && s'.used[idx] && s'.values[idx] == v;
    forall i | 0 <= i < |s.keys| && s'.used[i]
      ensures s'.keys[i] in m[k := v] && m[k := v][s'.keys[i]] == s'.values[i]
    {
      if i != idx {
        assert s.used[i] && s.keys[i] != k && s.keys[i] in m;
      }
    }
    forall q | q in m || q == k
      ensures exists i :: 0 <= i < |s.keys| && s'.used[i] && s'.keys[i] == q
    {
      if q == k {
        assert s'.used[idx] && s'.keys[idx] == q;
      } else {
        var i :| 0 <= i < |s.keys| && s.used[i] && s.keys[i] == q;
        assert s'.used[i] && s'.keys[i] == q;
      }
    }
  }

  /** Storing k where its probe stopped, at a free slot or at k itself, binds k and keeps the table in order. */
  lemma StoreRepresents<K, V>(s: Slots<K, V>, hash: K -> nat, m: map<K, V>, idx: nat, k: K, v: V)
    requires s.Shaped() && Represents(s, hash, m) && idx < |s.keys| && (s.used[idx] ==> s.keys[idx] == k)
    requires var h := Home(hash, k, |s.keys|); Passed(s, h, k, Steps(h, idx, |s.keys|))
    ensures Represents(Stored(s, idx, k, v), hash, m[k := v])
  {
    hide Probed, Bindings, Passed;
    if !s.used[idx] {
      AbsentAtFree(s, hash, idx, k);
    }
    StoreKeepsProbed(s, hash, idx, k, v);
    StoreBinds(s, m, idx, k, v);
  }

  lemma EmptyRepresents<K, V>(s: Slots<K, V>, hash: K -> nat)
    requires s.Shaped() && forall i :: 0 <= i < |s.used| ==> !s.used[i]
    ensures Represents(s, hash, map[]) && CountUsed(s.used) == 0
  {
    NoneUsed(s.used);
  }

  /** A probe never passes every slot of a table that is not full. */
  lemma NotAllPassed<K, V>(s: Slots<K, V>, h: nat, k: K)
    requires s.Shaped() && h < |s.keys| && Passed(s, h, k, |s.keys|)
    ensures CountUsed(s.used) == |s.keys|
  {
    forall i | 0 <= i < |s.used|
      ensures s.used[i]
    {
      assert Steps(h, i, |s.keys|) < |s.keys|;
    }
    AllUsed(s.used);
  }

  /** What a lookup answers: the value of any slot that holds k. */
  lemma LookupHit<K, V>(s: Slots<K, V>, hash: K -> nat, m: map<K, V>, idx: nat, k: K)
    requires s.Shaped() && Represents(s, hash, m) && idx < |s.keys| && s.used[idx] && s.keys[idx] == k
    ensures k in m && m[k] == s.values[idx]
  {
  }

  lemma LookupMiss<K, V>(s: Slots<K, V>, hash: K -> nat, m: map<K, V>, k: K)
    requires s.Shaped() && Represents(s, hash, m)
    requires forall x: nat :: x < |s.keys| && s.used[x] ==> s.keys[x] != k
    ensures k !in m
  {
  }

  function LoadPercentageOf(count: nat, capacity: nat): nat {
    if capacity == 0 then 0 else count * 100 / capacity
  }

  lemma LoadBelow(count: nat, capacity: nat)
    requires capacity > 0
    ensures LoadPercentageOf(count, capacity) < 70 ==> count < capacity
    ensures count * 2 < capacity ==> LoadPercentageOf(count, capacity) < 70
  {
    DivIs(count * 100, capacity);
    QuotientBelow(count * 100 / capacity, count, capacity);
  }

  lemma QuotientBelow(q: nat, count: nat, capacity: nat)
    requires q * capacity <= count * 100 < q * capacity + capacity
    ensures q < 70 ==> count < capacity
    ensures count * 2 < capacity ==> q < 70
  {
    if q < 70 {
      MulLe(q, 69, capacity);
    } else {
      MulLe(70, q, capacity);
    }
  }

  /** The percentage is below 70 exactly if less than 70 of 100 slots are used. */
  lemma LoadIff(count: nat, capacity: nat)
    requires capacity > 0
    ensures LoadPercentageOf(count, capacity) < 70 <==> 100 * count < 70 * capacity
  {
    DivIs(count * 100, capacity);
    var q := count * 100 / capacity;
    if q < 70 {
      MulLe(q + 1, 70, capacity);
    } else {
      MulLe(70, q, capacity);
    }
  }

  class Table<K(0, ==), V(0)> {
    const hash: K -> nat
    var keys: array<K>
    var values: array<V>
    var used: array<bool>
    var count: nat

    /** The finite map the table stands for. */
    ghost var contents: map<K, V>

    ghost function Snapshot(): Slots<K, V>
      reads this, keys, values, used
    {
      Slots(keys[..], values[..], used[..])
    }

    ghost predicate Valid()
      reads this, keys, values, used
    {
      && keys.Length == values.Length == used.Length > 0
      && (keys as object) != values && (keys as object) != used && (values as object) != used
      && count == CountUsed(used[..])
      && Represents(Snapshot(), hash, contents)
    }

    constructor (hash: K -> nat, capacity: nat)
      requires capacity > 0
      ensures Valid() && fresh(keys) && fresh(values) && fresh(used)
      ensures contents == map[] && this.hash == hash && keys.Length == capacity && count == 0
    {
      this.hash := hash;
      keys := new K[capacity];
      values := new V[capacity];
      used := new bool[capacity](i => false);
      count := 0;
      contents := map[];
      new;
      hide Represents;
      EmptyRepresents(Snapshot(), hash);
    }

    /** Percentage of used slots, rounded down. */
    function LoadPercentage(): nat
      reads this
    {
      LoadPercentageOf(count, keys.Length)
    }

    method Clear()
      requires Valid()
      modifies this`count, this`contents, used
      ensures Valid() && contents == map[]
    {
      hide Represents;
      count := 0;
      for i := 0 to used.Length
        invariant count == 0
        invariant forall j :: 0 <= j < i ==> !used[j]
      {
        used[i] := false;
      }
      contents := map[];
      EmptyRepresents(Snapshot(), hash);
    }

    method Get(key: K) returns (value: Option<V>)
      requires Valid()
      ensures value == if key in contents then Some(contents[key]) else None
    {
      hide Represents;
      var home := Home(hash, key, keys.Length);
      var idx: nat, first := home, true;
      ghost var d: nat := 0;
      while first || idx != home
        invariant d <= keys.Length && (first <==> d == 0)
        invariant idx < keys.Length && (if d == keys.Length then idx == home else Steps(home, idx, keys.Length) == d)
        invariant forall x: nat {:trigger used[x]} ::
                    x < keys.Length && used[x] && Steps(home, x, keys.Length) < d ==> keys[x] != key
        decreases keys.Length - d
      {
        if used[idx] && keys[idx] == key {
          LookupHit(Snapshot(), hash, contents, idx, key);
          return Some(values[idx]);
        }
        idx := Next(idx, keys.Length);
        first, d := false, d + 1;
      }
      value := None;
      forall x: nat | x < keys.Length && used[x]
        ensures keys[x] != key
      {
        assert Steps(home, x, keys.Length) < d;
      }
      LookupMiss(Snapshot(), hash, contents, key);
    }

    /** Binds key to value, growing first when the table is 70 percent full. */
    method Put(key: K, value: V)
      requires Valid()
      modifies this, keys, values, used
      ensures Valid() && contents == old(contents)[key := value]
      ensures 100 * old(count) < 70 * old(keys.Length) ==> keys == old(keys) && values == old(values) && used == old(used)
      ensures 100 * old(count) >= 70 * old(keys.Length) ==>
                fresh(keys) && fresh(values) && fresh(used) && keys.Length == (old(keys.Length) + 1) * 3
      ensures count <= old(count) + 1
      decreases if LoadPercentage() >= 70 then 2 else 0
    {
      hide Represents;
      LoadBelow(count, keys.Length);
      LoadIff(count, keys.Length);
      if LoadPercentage() >= 70 {
        var copied := Copy();
        keys, values, used, count := copied.keys, copied.values, copied.used, copied.count;
        LoadBelow(count, keys.Length);
      }
      PutInFree(key, value);
    }

    /** A table three times as large, plus three, with the same bindings; filling it never grows it again. */
    method Copy() returns (copied: Table<K, V>)
      requires Valid()
      ensures fresh(copied) && fresh(copied.keys) && fresh(copied.values) && fresh(copied.used)
      ensures copied.Valid() && copied.contents == contents && copied.hash == hash
      ensures copied.keys.Length == (keys.Length + 1) * 3 && copied.LoadPercentage() < 70
      ensures copied.count <= count
      decreases 1
    {
      hide Represents, Copied;
      copied := new Table(hash, (keys.Length + 1) * 3);
      CopiedNothing(Snapshot());
      for i := 0 to keys.Length
        invariant fresh(copied) && fresh(copied.keys) && fresh(copied.values) && fresh(copied.used)
        invariant copied.Valid() && copied.hash == hash
        invariant copied.keys.Length == (keys.Length + 1) * 3 && copied.count <= i
        invariant copied.count <= CountUsed(used[..i])
        invariant Copied(Snapshot(), i, copied.contents)
      {
        LoadBelow(copied.count, copied.keys.Length);
        CountStep(used[..], i);
        CopiedStep(Snapshot(), hash, contents, i, copied.contents);
        if used[i] {
          copied.Put(keys[i], values[i]);
        }
      }
      assert used[..keys.Length] == used[..];
      LoadBelow(copied.count, copied.keys.Length);
      CopiedAll(Snapshot(), hash, contents, copied.contents);
    }

    method PutInFree(key: K, value: V)
      requires Valid() && count < keys.Length
      modifies this`count, this`contents, keys, values, used
      ensures Valid() && contents == old(contents)[key := value]
      ensures count <= old(count) + 1
    {
      hide Represents, Passed;
      ghost var s := Snapshot();
      var idx := FindSlot(key);
      StoreRepresents(s, hash, contents, idx, key, value);
      if !used[idx] {
        used[idx] := true;
        count := count + 1;
        CountSet(s.used, idx);
      }
      assert used[..] == s.used[idx := true];
      values[idx] := value;
      keys[idx] := key;
      assert Snapshot() == Stored(s, idx, key, value);
      contents := contents[key := value];
    }

    /** The probe loop of `put` on a table that is not full: it ends at a free slot or at the key. */
    method FindSlot(key: K) returns (idx: nat)
      requires Valid() && count < keys.Length
      ensures idx < keys.Length && (used[idx] ==> keys[idx] == key)
      ensures var h := Home(hash, key, keys.Length); Passed(Snapshot(), h, key, Steps(h, idx, keys.Length))
    {
      hide Represents;
      idx := Home(hash, key, keys.Length);
      ghost var home: nat, d: nat, s := idx, 0, Snapshot();
      while used[idx] && keys[idx] != key
        invariant idx < keys.Length && Steps(home, idx, keys.Length) == d && Passed(s, home, key, d)
        decreases keys.Length - d
      {
        assert Passed(s, home, key, d + 1);
        if d + 1 == keys.Length {
          NotAllPassed(s, home, key);
        }
        idx := Next(idx, keys.Length);
        d := d + 1;
      }
    }
  }

  // ---------- Copying ----------

  /** m holds the bindings of the first i slots. */
  ghost predicate Copied<K, V>(s: Slots<K, V>, i: nat, m: map<K, V>)
    requires s.Shaped() && i <= |s.keys|
  {
    && (forall j :: 0 <= j < i && s.used[j] ==> s.keys[j] in m)
    && (forall k :: k in m ==> exists j :: 0 <= j < i && s.used[j] && s.keys[j] == k && s.values[j] == m[k])
  }

  lemma CopiedNothing<K, V>(s: Slots<K, V>)
    requires s.Shaped()
    ensures Copied(s, 0, map[])
  {
  }

  lemma CopiedStep<K, V>(s: Slots<K, V>, hash: K -> nat, m: map<K, V>, i: nat, m': map<K, V>)
    requires s.Shaped() && Represents(s, hash, m) && i < |s.keys| && Copied(s, i, m')
    ensures Copied(s, i + 1, if s.used[i] then m'[s.keys[i] := s.values[i]] else m')
  {
    hide Represents;
    var next := if s.used[i] then m'[s.keys[i] := s.values[i]] else m';
    forall k | k in next
      ensures exists j :: 0 <= j < i + 1 && s.used[j] && s.keys[j] == k && s.values[j] == next[k]
    {
      if s.used[i] && k == s.keys[i] {
        assert s.values[i] == next[k];
      } else {
        var j :| 0 <= j < i && s.used[j] && s.keys[j] == k && s.values[j] == m'[k];
        assert s.values[j] == next[k];
      }
    }
  }

  lemma CopiedAll<K, V>(s: Slots<K, V>, hash: K -> nat, m: map<K, V>, m': map<K, V>)
    requires s.Shaped() && Represents(s, hash, m) && Copied(s, |s.keys|, m')
    ensures m' == m
  {
    assert m'.Keys == m.Keys;
  }

  lemma {:induction false} CountStep(used: seq<bool>, i: nat)
    requires i < |used|
    ensures CountUsed(used[..i + 1]) == CountUsed(used[..i]) + if used[i] then 1 else 0
  {
    if i > 0 {
      CountStep(used[1..], i - 1);
      assert used[..i + 1][1..] == used[1..][..i] && used[..i][1..] == used[1..][..i - 1];
    } else {
      assert used[..1][1..] == [];
    }
  }
}
