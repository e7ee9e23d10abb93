/**
 The catalog file in bytes: for every file, whether loading it succeeds, fails or stops the server, and what it gives.
 Places in the file are computed here from the sizes of the entries and the counts in them.
 */
module CatalogFile {
  import opened Bytes
  import opened Catalog
  import opened Wrappers

  // ---------- Places ----------

  /** Byte p of a file, and zero behind its end. */
  function ByteAt(data: seq<byte>, p: nat): byte {
    if p < |data| then data[p] else 0
  }

  /** The number in the eight bytes from p on, the lowest first. */
  function Count(data: seq<byte>, p: nat): nat {
    Weighted(ByteAt(data, p), ByteAt(data, p + 1), ByteAt(data, p + 2), ByteAt(data, p + 3),
             ByteAt(data, p + 4), ByteAt(data, p + 5), ByteAt(data, p + 6), ByteAt(data, p + 7))
  }

  /** The place behind n tables from p on: a table has 74 bytes and 65 for each of its columns. */
  function TablesEnd(data: seq<byte>, p: nat, n: nat): (q: nat)
    ensures q >= p
    decreases n
  {
    if n == 0 then p else TablesEnd(data, p + 74 + 65 * Count(data, p + 66), n - 1)
  }

  /** The tables of the database at p stand behind its 80 bytes and 97 for each of its users. */
  function TablesStart(data: seq<byte>, p: nat): (q: nat)
    ensures q >= p + 80
  {
    p + 80 + 97 * Count(data, p + 64)
  }

  /** The place behind n databases from p on. */
  function DatabasesEnd(data: seq<byte>, p: nat, n: nat): (q: nat)
    ensures q >= p
    decreases n
  {
    if n == 0 then p
    else DatabasesEnd(data, TablesEnd(data, TablesStart(data, p), Count(data, p + 72)), n - 1)
  }

  /** The table at p is neither a proxy nor ephemeral: bits 2 and 3 of the byte behind its name are clear. */
  predicate ClearAt(data: seq<byte>, p: nat) {
    ByteAt(data, p + 64) / 4 % 2 == 0 && ByteAt(data, p + 64) / 8 % 2 == 0
  }

  predicate TablesClear(data: seq<byte>, p: nat, n: nat) {
    forall j :: 0 <= j < n ==> ClearAt(data, TablesEnd(data, p, j))
  }

  predicate DatabaseClear(data: seq<byte>, p: nat) {
    TablesClear(data, TablesStart(data, p), Count(data, p + 72))
  }

  predicate DatabasesClear(data: seq<byte>, p: nat, n: nat) {
    forall i :: 0 <= i < n ==> DatabaseClear(data, DatabasesEnd(data, p, i))
  }

  // ---------- What stands there ----------

  /** A name: its length, and its bytes behind that. */
  predicate NameRead(data: seq<byte>, p: nat, name: Name) {
    && |name| == (if ByteAt(data, p) <= 63 then ByteAt(data, p) else 63)
    && forall i :: 0 <= i < |name| ==> name[i] == ByteAt(data, p + 1 + i)
  }

  predicate ColumnRead(data: seq<byte>, p: nat, c: Column) {
    NameRead(data, p, c.name) && c.kind == ByteAt(data, p + 64)
  }

  predicate UserRead(data: seq<byte>, p: nat, u: User) {
    && NameRead(data, p, u.name) && u.perm == ByteAt(data, p + 96)
    && forall i :: 0 <= i < 32 ==> u.digest[i] == ByteAt(data, p + 64 + i)
  }

  predicate TableRead(data: seq<byte>, p: nat, t: Table) {
    && NameRead(data, p, t.name)
    && t.flags == ByteAt(data, p + 64) as nat + 256 * ByteAt(data, p + 65) as nat
    && |t.columns| == Count(data, p + 66)
    && forall k :: 0 <= k < |t.columns| ==> ColumnRead(data, p + 74 + 65 * k, t.columns[k])
  }

  /** Users come in the opposite order, tables in the order of the file. */
  predicate DatabaseRead(data: seq<byte>, p: nat, db: Database) {
    && NameRead(data, p, db.name)
    && |db.users| == Count(data, p + 64)
    && (forall i :: 0 <= i < |db.users| ==> UserRead(data, p + 80 + 97 * i, db.users[|db.users| - 1 - i]))
    && TablesRead(data, TablesStart(data, p), Count(data, p + 72), db.tables)
  }

  predicate TablesRead(data: seq<byte>, p: nat, n: nat, ts: seq<Table>) {
    |ts| == n && forall j :: 0 <= j < n ==> TableRead(data, TablesEnd(data, p, j), ts[j])
  }

  predicate DatabasesRead(data: seq<byte>, p: nat, n: nat, dbs: Pool) {
    |dbs| == n && forall i :: 0 <= i < n ==> DatabaseRead(data, DatabasesEnd(data, p, i), dbs[i])
  }

  // ---------- Loading ----------

  lemma CountIs(data: seq<byte>, p: nat)
    requires p + 8 <= |data|
    ensures FromLittleEndian(data[p..p + 8]) == Count(data, p)
  {
    hide FromLittleEndian;
    EightFromLittleEndian(data[p..p + 8]);
  }

  lemma NameIs(data: seq<byte>, p: nat)
    requires p + 64 <= |data|
    ensures NameRead(data, p, NameIn(data[p..p + 64]))
  {
    var s := data[p..p + 64];
    assert s[0] == data[p];
    assert forall i :: 0 <= i < |NameIn(s)| ==> NameIn(s)[i] == s[1 + i] == data[p + 1 + i];
  }

  lemma {:induction false} ColumnsLoad(data: seq<byte>, p: nat, n: nat)
    requires p <= |data|
    ensures var r := LoadColumns(data, p, n);
            if p + 65 * n <= |data| then
              && r.Done? && r.value.1 == p + 65 * n && |r.value.0| == n
              && forall k :: 0 <= k < n ==> ColumnRead(data, p + 65 * k, r.value.0[k])
            else r == Trapped
    decreases n
  {
    hide NameRead, NameIn;
    if n > 0 && p + 65 <= |data| {
      ColumnsLoad(data, p + 65, n - 1);
      NameIs(data, p);
      var r, rest := LoadColumns(data, p, n), LoadColumns(data, p + 65, n - 1);
      if rest.Done? {
        forall k | 0 <= k < n
          ensures ColumnRead(data, p + 65 * k, r.value.0[k])
        {
          if k > 0 {
            assert ColumnRead(data, p + 65 + 65 * (k - 1), rest.value.0[k - 1]);
          }
        }
      }
    }
  }

  lemma {:induction false} UsersLoad(data: seq<byte>, p: nat, n: nat)
    requires p <= |data|
    ensures var r := LoadUsers(data, p, n);
            if p + 97 * n <= |data| then
              && r.Done? && r.value.1 == p + 97 * n && |r.value.0| == n
              && forall k :: 0 <= k < n ==> UserRead(data, p + 97 * k, r.value.0[k])
            else r == Trapped
    decreases n
  {
    hide NameRead, NameIn;
    if n > 0 && p + 97 <= |data| {
      UsersLoad(data, p + 97, n - 1);
      NameIs(data, p);
      var r, rest := LoadUsers(data, p, n), LoadUsers(data, p + 97, n - 1);
      if rest.Done? {
        forall k | 0 <= k < n
          ensures UserRead(data, p + 97 * k, r.value.0[k])
        {
          if k > 0 {
            assert UserRead(data, p + 97 + 97 * (k - 1), rest.value.0[k - 1]);
          }
        }
      }
    }
  }

  /** One table, if its entry and its columns lie in the file. */
  lemma TableLoads(data: seq<byte>, p: nat)
    requires p + 74 <= |data|
    ensures var n, name, flags := Count(data, p + 66), NameIn(data[p..p + 64]), FlagsAt(data, p + 64);
            && FromLittleEndian(data[p + 66..p + 74]) == n
            && (Loadable(flags) <==> ClearAt(data, p))
            && var r := LoadColumns(data, p + 74, n);
            && (r.Done? <==> p + 74 + 65 * n <= |data|) && (!r.Done? ==> r == Trapped)
            && (r.Done? ==> r.value.1 == p + 74 + 65 * n && TableRead(data, p, Table(name, flags, r.value.0)))
  {
    hide NameRead, NameIn, ColumnRead, LoadColumns, FromLittleEndian, Loadable;
    CountIs(data, p + 66);
    NameIs(data, p);
    var flags := FlagsAt(data, p + 64);
    FlagBits(flags, data[p + 64], data[p + 65]);
    ColumnsLoad(data, p + 74, Count(data, p + 66));
  }

  lemma FlagBits(flags: U16, low: byte, high: byte)
    requires flags == low as nat + 256 * high as nat
    ensures Loadable(flags) <==> low / 4 % 2 == 0 && low / 8 % 2 == 0
  {
    LoadableIff(flags);
    assert flags / 4 == low / 4 + 64 * high as nat && flags / 8 == low / 8 + 32 * high as nat;
    assert flags / 4 % 2 == low / 4 % 2 && flags / 8 % 2 == low / 8 % 2;
  }

  lemma {:induction false} TablesLoad(data: seq<byte>, p: nat, n: nat)
    requires p <= |data|
    ensures var r, end := LoadTables(data, p, n), TablesEnd(data, p, n);
            if end <= |data| && TablesClear(data, p, n) then
              r.Done? && r.value.1 == end && TablesRead(data, p, n, r.value.0)
            else r == Trapped
    decreases n
  {
    hide ClearAt, TableRead, NameIn, LoadColumns, FromLittleEndian, FlagsAt, Loadable, Count;
    if n > 0 {
      var q := p + 74 + 65 * Count(data, p + 66);
      assert TablesEnd(data, p, 0) == p && TablesEnd(data, p, n) == TablesEnd(data, q, n - 1);
      TablesClearSplit(data, p, n);
      if p + 74 <= |data| {
        TableLoads(data, p);
        if q <= |data| {
          TablesLoad(data, q, n - 1);
          var rest := LoadTables(data, q, n - 1);
          if rest.Done? && ClearAt(data, p) {
            var ts := LoadTables(data, p, n).value.0;
            forall j | 0 <= j < n
              ensures TableRead(data, TablesEnd(data, p, j), ts[j])
            {
              if j > 0 {
                assert TableRead(data, TablesEnd(data, q, j - 1), rest.value.0[j - 1]);
              }
            }
          }
        }
      }
    }
  }

  lemma TablesClearSplit(data: seq<byte>, p: nat, n: nat)
    requires n > 0
    ensures TablesClear(data, p, n) <==>
            ClearAt(data, p) && TablesClear(data, p + 74 + 65 * Count(data, p + 66), n - 1)
  {
    hide ClearAt, Count;
    var q := p + 74 + 65 * Count(data, p + 66);
    assert TablesEnd(data, p, 0) == p;
    assert forall j :: 0 <= j < n - 1 ==> TablesEnd(data, p, j + 1) == TablesEnd(data, q, j);
    if ClearAt(data, p) && TablesClear(data, q, n - 1) {
      forall j | 0 <= j < n
        ensures ClearAt(data, TablesEnd(data, p, j))
      {
        if j > 0 {
          assert ClearAt(data, TablesEnd(data, q, j - 1));
        }
      }
    }
    if TablesClear(data, p, n) {
      forall j | 0 <= j < n - 1
        ensures ClearAt(data, TablesEnd(data, q, j))
      {
        assert ClearAt(data, TablesEnd(data, p, j + 1));
      }
    }
  }

  /** The bytes of one database, as `LoadDatabases` goes over them. */
  lemma DatabaseLoads(data: seq<byte>, p: nat)
    requires p + 80 <= |data|
    ensures var users := LoadUsers(data, p + 80, FromLittleEndian(data[p + 64..p + 72]));
            var q, m := TablesStart(data, p), Count(data, p + 72);
            && FromLittleEndian(data[p + 72..p + 80]) == m
            && (users.Done? <==> q <= |data|) && (!users.Done? ==> users == Trapped)
            && (users.Done? ==>
                  var tables := LoadTables(data, q, m);
                  && users.value.1 == q
                  && (tables.Done? <==> TablesEnd(data, q, m) <= |data| && DatabaseClear(data, p))
                  && (!tables.Done? ==> tables == Trapped)
                  && (tables.Done? ==>
                        && tables.value.1 == TablesEnd(data, q, m)
                        && var db := Database(NameIn(data[p..p + 64]), Reverse(users.value.0), tables.value.0);
                        DatabaseRead(data, p, db)))
  {
    hide NameRead, NameIn, UserRead, LoadUsers, LoadTables, FromLittleEndian, TablesClear, TablesRead, Reverse, Count;
    CountIs(data, p + 64);
    CountIs(data, p + 72);
    NameIs(data, p);
    var n, q, m := Count(data, p + 64), TablesStart(data, p), Count(data, p + 72);
    UsersLoad(data, p + 80, n);
    var users := LoadUsers(data, p + 80, n);
    if users.Done? {
      TablesLoad(data, q, m);
      UsersTurned(data, p + 80, users.value.0);
    }
  }

  lemma UsersTurned(data: seq<byte>, p: nat, us: seq<User>)
    requires forall i :: 0 <= i < |us| ==> UserRead(data, p + 97 * i, us[i])
    ensures |Reverse(us)| == |us|
    ensures forall i :: 0 <= i < |us| ==> UserRead(data, p + 97 * i, Reverse(us)[|us| - 1 - i])
  {
    hide UserRead, Reverse;
    forall i | 0 <= i < |us|
      ensures UserRead(data, p + 97 * i, Reverse(us)[|us| - 1 - i])
    {
      ReverseAt(us, |us| - 1 - i);
    }
  }

  lemma {:induction false} DatabasesLoad(data: seq<byte>, p: nat, n: nat)
    requires p <= |data|
    ensures var r, end := LoadDatabases(data, p, n), DatabasesEnd(data, p, n);
            if end <= |data| && DatabasesClear(data, p, n) then
              r.Done? && r.value.1 == end && DatabasesRead(data, p, n, r.value.0)
            else r == Trapped
    decreases n
  {
    hide DatabaseClear, DatabaseRead, NameIn, LoadUsers, LoadTables, FromLittleEndian, Count, TablesStart, Reverse;
    if n > 0 {
      var t, m := TablesStart(data, p), Count(data, p + 72);
      var q := TablesEnd(data, t, m);
      assert DatabasesEnd(data, p, 0) == p && DatabasesEnd(data, p, n) == DatabasesEnd(data, q, n - 1);
      DatabasesClearSplit(data, p, n);
      if p + 80 <= |data| {
        DatabaseLoads(data, p);
        if q <= |data| {
          DatabasesLoad(data, q, n - 1);
          var rest := LoadDatabases(data, q, n - 1);
          if rest.Done? && DatabaseClear(data, p) {
            var dbs := LoadDatabases(data, p, n).value.0;
            forall i | 0 <= i < n
              ensures DatabaseRead(data, DatabasesEnd(data, p, i), dbs[i])
            {
              if i > 0 {
                assert DatabaseRead(data, DatabasesEnd(data, q, i - 1), rest.value.0[i - 1]);
              }
            }
          }
        }
      }
    }
  }

  lemma DatabasesClearSplit(data: seq<byte>, p: nat, n: nat)
    requires n > 0
    ensures DatabasesClear(data, p, n) <==>
            DatabaseClear(data, p) &&
            DatabasesClear(data, TablesEnd(data, TablesStart(data, p), Count(data, p + 72)), n - 1)
  {
    hide DatabaseClear, Count, TablesStart;
    var q := TablesEnd(data, TablesStart(data, p), Count(data, p + 72));
    assert DatabasesEnd(data, p, 0) == p;
    assert forall i :: 0 <= i < n - 1 ==> DatabasesEnd(data, p, i + 1) == DatabasesEnd(data, q, i);
    if DatabaseClear(data, p) && DatabasesClear(data, q, n - 1) {
      forall i | 0 <= i < n
        ensures DatabaseClear(data, DatabasesEnd(data, p, i))
      {
        if i > 0 {
          assert DatabaseClear(data, DatabasesEnd(data, q, i - 1));
        }
      }
    }
    if DatabasesClear(data, p, n) {
      forall i | 0 <= i < n - 1
        ensures DatabaseClear(data, DatabasesEnd(data, q, i))
      {
        assert DatabaseClear(data, DatabasesEnd(data, p, i + 1));
      }
    }
  }

  // ---------- The whole file ----------

  lemma MagicIs(s: seq<byte>)
    requires |s| == 8
    ensures FromLittleEndian(s) == CATALOG_MAGIC <==> s == [0, 0, 0, 0x62, 0x64, 0x6d, 0x78, 0x63]
  {
    hide FromLittleEndian;
    var magic: seq<byte> := [0, 0, 0, 0x62, 0x64, 0x6d, 0x78, 0x63];
    EightFromLittleEndian(magic);
    if FromLittleEndian(s) == CATALOG_MAGIC {
      SameLittleEndian(s, magic);
    }
  }

  lemma VersionIs(s: seq<byte>)
    requires |s| == 8
    ensures FromLittleEndian(s) == CATALOG_VERSION <==> s == [1, 0, 0, 0, 0, 0, 0, 0]
  {
    hide FromLittleEndian;
    var version: seq<byte> := [1, 0, 0, 0, 0, 0, 0, 0];
    EightFromLittleEndian(version);
    if FromLittleEndian(s) == CATALOG_VERSION {
      SameLittleEndian(s, version);
    }
  }

  /** The pool has the databases of the file in the opposite order. */
  predicate PoolRead(data: seq<byte>, dbs: Pool) {
    && |dbs| == Count(data, 16)
    && forall i :: 0 <= i < |dbs| ==> DatabaseRead(data, DatabasesEnd(data, 24, i), dbs[|dbs| - 1 - i])
  }

  /**
   Loading any file: it stops the server at less than 24 bytes, fails at another magic number or version, and then gives
   the pool in the file if the last entry ends inside the file and no table is a proxy or ephemeral, and stops otherwise.
   */
  lemma LoadingIs(data: seq<byte>)
    ensures var r := LoadedPool(data);
            if |data| < 24 then r == Trapped
            else if data[..8] != [0, 0, 0, 0x62, 0x64, 0x6d, 0x78, 0x63] || data[8..16] != [1, 0, 0, 0, 0, 0, 0, 0] then
              r == Failed
            else if DatabasesEnd(data, 24, Count(data, 16)) <= |data| && DatabasesClear(data, 24, Count(data, 16)) then
              r.Done? && PoolRead(data, r.value)
            else r == Trapped
  {
    hide FromLittleEndian, LoadDatabases, Reverse, Count, DatabasesEnd, DatabasesClear, DatabaseRead;
    if |data| >= 24 {
      MagicIs(data[..8]);
      VersionIs(data[8..16]);
      CountIs(data, 16);
      var n := Count(data, 16);
      DatabasesLoad(data, 24, n);
      var loaded := LoadDatabases(data, 24, n);
      if loaded.Done? {
        var dbs := loaded.value.0;
        forall i | 0 <= i < n
          ensures Reverse(dbs)[n - 1 - i] == dbs[i]
        {
          ReverseAt(dbs, n - 1 - i);
        }
      }
    }
  }
}
