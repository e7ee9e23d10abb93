/**
 The catalog file with all databases, users, tables and columns: `src/Core/catalog.cpp`. Loading prepends databases
 (`src/Core/DBPool.cpp`) and users (`src/Core/DBDescriptor.hpp`), and appends tables.
 */
module Catalog {
  import opened Bytes
  import opened Wrappers

  /** Names fit a fixed string; saving a longer one stops the server. */
  type Name = s: seq<byte> | |s| <= 63
  type Digest = s: seq<byte> | |s| == 32 witness seq(32, i => 0)
  type U16 = u: nat | u < 0x1_0000

  datatype User = User(name: Name, digest: Digest, perm: byte)
  datatype Column = Column(name: Name, kind: byte)
  datatype Table = Table(name: Name, flags: U16, columns: seq<Column>)
  datatype Database = Database(name: Name, users: seq<User>, tables: seq<Table>)

  type Pool = seq<Database>

  const CATALOG_MAGIC: U64 := 0x63786D6462000000
  const CATALOG_VERSION: U64 := 1

  // ---------- Saving ----------

  function Fixed(name: Name): (s: seq<byte>)
    ensures |s| == 64
  {
    [|name|] + name + seq(63 - |name|, i => 0)
  }

  function SaveUser(u: User): seq<byte> {
    Fixed(u.name) + u.digest + [u.perm]
  }

  function SaveUsers(us: seq<User>): seq<byte> {
    if us == [] then [] else SaveUser(us[0]) + SaveUsers(us[1..])
  }

  function SaveColumn(c: Column): seq<byte> {
    Fixed(c.name) + [c.kind]
  }

  function SaveColumns(cs: seq<Column>): seq<byte> {
    if cs == [] then [] else SaveColumn(cs[0]) + SaveColumns(cs[1..])
  }

  function TableEntry(t: Table): seq<byte> {
    Fixed(t.name) + LittleEndian(t.flags, 2) + LittleEndian(|t.columns|, 8)
  }

  function SaveTables(ts: seq<Table>): seq<byte> {
    if ts == [] then [] else TableEntry(ts[0]) + SaveColumns(ts[0].columns) + SaveTables(ts[1..])
  }

  function DatabaseEntry(db: Database): seq<byte> {
    Fixed(db.name) + LittleEndian(|db.users|, 8) + LittleEndian(|db.tables|, 8)
  }

  function SaveDatabases(dbs: Pool): seq<byte> {
    if dbs == [] then []
    else DatabaseEntry(dbs[0]) + SaveUsers(dbs[0].users) + SaveTables(dbs[0].tables) + SaveDatabases(dbs[1..])
  }

  function HeaderOf(dbs: Pool): seq<byte> {
    LittleEndian(CATALOG_MAGIC, 8) + LittleEndian(CATALOG_VERSION, 8) + LittleEndian(|dbs|, 8)
  }

  function Saved(dbs: Pool): seq<byte> {
    HeaderOf(dbs) + SaveDatabases(dbs)
  }

  // ---------- Loading ----------

  /** What was read, and the position behind it; a short read stops the server. */
  type Loaded<T> = Outcome<(T, nat)>

  function Taken(data: seq<byte>, p: nat, n: nat): Loaded<seq<byte>> {
    if p + n <= |data| then Done((data[p..p + n], p + n)) else Trapped
  }

  /** The view of a fixed string; a length above 63 cannot be written by saving, and is read as 63. */
  function NameIn(s: seq<byte>): Name
    requires |s| == 64
  {
    s[1..if s[0] <= 63 then 1 + s[0] else 64]
  }

  function LoadUser(data: seq<byte>, p: nat): (r: Loaded<User>)
  {
    if p + 97 <= |data| then
      Done((User(NameIn(data[p..p + 64]), data[p + 64..p + 96], data[p + 96]), p + 97))
    else Trapped
  }

  /** The first n users, in the order of the file. */
  function LoadUsers(data: seq<byte>, p: nat, n: nat): Loaded<seq<User>>
    decreases n
  {
    if n == 0 then Done(([], p))
    else match LoadUser(data, p)
      case Failed => Failed
      case Trapped => Trapped
      case Done((u, q)) => (
        match LoadUsers(data, q, n - 1)
        case Failed => Failed
        case Trapped => Trapped
        case Done((us, s)) => Done(([u] + us, s))
      )
  }

  function LoadColumns(data: seq<byte>, p: nat, n: nat): Loaded<seq<Column>>
    decreases n
  {
    if n == 0 then Done(([], p))
    else if p + 65 > |data| then Trapped
    else match LoadColumns(data, p + 65, n - 1)
      case Failed => Failed
      case Trapped => Trapped
      case Done((cs, s)) => Done(([Column(NameIn(data[p..p + 64]), data[p + 64])] + cs, s))
  }

  /** Proxy and ephemeral tables are never loaded. */
  predicate Loadable(flags: U16) {
    flags / 4 % 4 == 0
  }

  function LoadTables(data: seq<byte>, p: nat, n: nat): Loaded<seq<Table>>
    decreases n
  {
    if n == 0 then Done(([], p))
    else if p + 74 > |data| then Trapped
    else
      var name, flags := NameIn(data[p..p + 64]), FlagsAt(data, p + 64);
      match LoadColumns(data, p + 74, FromLittleEndian(data[p + 66..p + 74]))
      case Failed => Failed
      case Trapped => Trapped
      case Done((columns, q)) =>
        if !Loadable(flags) then Trapped
        else match LoadTables(data, q, n - 1)
          case Failed => Failed
          case Trapped => Trapped
          case Done((ts, s)) => Done(([Table(name, flags, columns)] + ts, s))
  }

  function FlagsAt(data: seq<byte>, p: nat): U16
    requires p + 2 <= |data|
  {
    (data[p] as int) + 256 * (data[p + 1] as int)
  }

  function Reverse<T>(xs: seq<T>): (r: seq<T>)
    ensures |r| == |xs|
  {
    if xs == [] then [] else Reverse(xs[1..]) + [xs[0]]
  }

  function LoadDatabases(data: seq<byte>, p: nat, n: nat): Loaded<Pool>
    decreases n
  {
    if n == 0 then Done(([], p))
    else if p + 80 > |data| then Trapped
    else
      match LoadUsers(data, p + 80, FromLittleEndian(data[p + 64..p + 72]))
      case Failed => Failed
      case Trapped => Trapped
      case Done((users, q)) => (
        match LoadTables(data, q, FromLittleEndian(data[p + 72..p + 80]))
        case Failed => Failed
        case Trapped => Trapped
        case Done((tables, s)) => (
          match LoadDatabases(data, s, n - 1)
          case Failed => Failed
          case Trapped => Trapped
          case Done((dbs, end)) => Done(([Database(NameIn(data[p..p + 64]), Reverse(users), tables)] + dbs, end))
        )
      )
  }

  /** `catalog_load`: the databases in the order the pool then has them. */
  function LoadedPool(data: seq<byte>): Outcome<Pool> {
    if |data| < 24 then Trapped
    else if FromLittleEndian(data[..8]) != CATALOG_MAGIC then Failed
    else if FromLittleEndian(data[8..16]) != CATALOG_VERSION then Failed
    else match LoadDatabases(data, 24, FromLittleEndian(data[16..24]))
      case Failed => Failed
      case Trapped => Trapped
      case Done((dbs, _)) => Done(Reverse(dbs))
  }

  // ---------- Loading undoes saving, up to the order of databases and users ----------

  /** The counts fit their fields of 64 bits. */
  predicate CountsFit(dbs: Pool) {
    |dbs| < TWO_64 && forall i :: 0 <= i < |dbs| ==> DatabaseFits(dbs[i])
  }

  predicate DatabaseFits(db: Database) {
    |db.users| < TWO_64 && |db.tables| < TWO_64 && forall i :: 0 <= i < |db.tables| ==> |db.tables[i].columns| < TWO_64
  }

  /** Bits 2 and 3, F_PROXY and F_EPHEMERAL, are both clear. */
  predicate BitsClear(flags: U16) {
    flags / 4 % 2 == 0 && flags / 8 % 2 == 0
  }

  lemma LoadableIff(flags: U16)
    ensures Loadable(flags) <==> BitsClear(flags)
  {
    var q := flags / 4;
    assert flags / 8 == q / 2 && q == 2 * (q / 2) + q % 2;
    assert q % 4 == 2 * (q / 2 % 2) + q % 2;
  }

  predicate AllClear(ts: seq<Table>) {
    forall i :: 0 <= i < |ts| ==> BitsClear(ts[i].flags)
  }

  /** No table in any database is a proxy or ephemeral. */
  predicate PoolClear(dbs: Pool) {
    forall i :: 0 <= i < |dbs| ==> AllClear(dbs[i].tables)
  }

  lemma ClearSplit(ts: seq<Table>)
    requires ts != []
    ensures AllClear(ts) <==> BitsClear(ts[0].flags) && AllClear(ts[1..])
  {
    hide BitsClear;
    if BitsClear(ts[0].flags) && AllClear(ts[1..]) {
      assert forall i :: 0 < i < |ts| ==> ts[i] == ts[1..][i - 1];
    }
  }

  lemma PoolClearSplit(dbs: Pool)
    requires dbs != []
    ensures PoolClear(dbs) <==> AllClear(dbs[0].tables) && PoolClear(dbs[1..])
  {
    hide AllClear;
    if AllClear(dbs[0].tables) && PoolClear(dbs[1..]) {
      assert forall i :: 0 < i < |dbs| ==> dbs[i] == dbs[1..][i - 1];
    }
  }

  /** The bytes bs stand at position p. */
  predicate HasAt(data: seq<byte>, p: nat, bs: seq<byte>) {
    p + |bs| <= |data| && data[p..p + |bs|] == bs
  }

  lemma HasSplit(data: seq<byte>, p: nat, a: seq<byte>, b: seq<byte>)
    requires HasAt(data, p, a + b)
    ensures HasAt(data, p, a) && HasAt(data, p + |a|, b)
  {
    var all := data[p..p + |a + b|];
    assert data[p..p + |a|] == all[..|a|] && data[p + |a|..p + |a| + |b|] == all[|a|..];
  }

  lemma HasLength(data: seq<byte>, p: nat, a: seq<byte>)
    requires HasAt(data, p, a)
    ensures p + |a| <= |data| && data[p..p + |a|] == a
  {
  }

  lemma FixedUndo(name: Name)
    ensures NameIn(Fixed(name)) == name
  {
    var s := Fixed(name);
    assert s[0] == |name| && s[1..1 + |name|] == name;
  }

  lemma FlagsUndo(data: seq<byte>, p: nat, flags: U16)
    requires HasAt(data, p, LittleEndian(flags, 2))
    ensures p + 2 <= |data| && FlagsAt(data, p) == flags
  {
    assert LittleEndian(flags, 2) == [flags % 256, flags / 256 % 256];
    assert data[p..p + 2][0] == data[p] && data[p..p + 2][1] == data[p + 1];
  }

  lemma CountUndo(data: seq<byte>, p: nat, n: nat)
    requires HasAt(data, p, LittleEndian(n, 8)) && n < TWO_64
    ensures p + 8 <= |data| && FromLittleEndian(data[p..p + 8]) == n
  {
    hide LittleEndian, FromLittleEndian;
    LittleEndianUndo8(n);
  }

  lemma UserUndo(u: User, data: seq<byte>, p: nat)
    requires HasAt(data, p, SaveUser(u))
    ensures LoadUser(data, p) == Done((u, p + 97)) && |SaveUser(u)| == 97
  {
    hide HasAt, Fixed, NameIn;
    HasSplit(data, p, Fixed(u.name) + u.digest, [u.perm]);
    HasSplit(data, p, Fixed(u.name), u.digest);
    HasLength(data, p, Fixed(u.name));
    HasLength(data, p + 64, u.digest);
    HasLength(data, p + 96, [u.perm]);
    assert data[p + 96..p + 97][0] == u.perm;
    FixedUndo(u.name);
  }

  lemma {:induction false} UsersUndo(us: seq<User>, data: seq<byte>, p: nat)
    requires HasAt(data, p, SaveUsers(us))
    ensures LoadUsers(data, p, |us|) == Done((us, p + |SaveUsers(us)|))
  {
    hide HasAt, LoadUser, SaveUser;
    if us != [] {
      HasSplit(data, p, SaveUser(us[0]), SaveUsers(us[1..]));
      UserUndo(us[0], data, p);
      UsersUndo(us[1..], data, p + 97);
      assert us == [us[0]] + us[1..];
    }
  }

  lemma ColumnUndo(c: Column, data: seq<byte>, p: nat)
    requires HasAt(data, p, SaveColumn(c))
    ensures |SaveColumn(c)| == 65 && p + 65 <= |data| && Column(NameIn(data[p..p + 64]), data[p + 64]) == c
  {
    hide HasAt, Fixed, NameIn;
    HasSplit(data, p, Fixed(c.name), [c.kind]);
    HasLength(data, p, Fixed(c.name));
    HasLength(data, p + 64, [c.kind]);
    assert data[p + 64..p + 65][0] == c.kind;
    FixedUndo(c.name);
  }

  lemma {:induction false} ColumnsUndo(cs: seq<Column>, data: seq<byte>, p: nat)
    requires HasAt(data, p, SaveColumns(cs))
    ensures LoadColumns(data, p, |cs|) == Done((cs, p + |SaveColumns(cs)|))
  {
    hide HasAt, NameIn, SaveColumn;
    if cs != [] {
      HasSplit(data, p, SaveColumn(cs[0]), SaveColumns(cs[1..]));
      ColumnUndo(cs[0], data, p);
      ColumnsUndo(cs[1..], data, p + 65);
      assert cs == [cs[0]] + cs[1..];
    }
  }

  lemma EntryUndo(t: Table, data: seq<byte>, p: nat)
    requires HasAt(data, p, TableEntry(t)) && |t.columns| < TWO_64
    ensures |TableEntry(t)| == 74 && p + 74 <= |data| && NameIn(data[p..p + 64]) == t.name
    ensures FlagsAt(data, p + 64) == t.flags && FromLittleEndian(data[p + 66..p + 74]) == |t.columns|
  {
    hide HasAt, Fixed, NameIn, LittleEndian, FromLittleEndian, FlagsAt;
    HasSplit(data, p, Fixed(t.name) + LittleEndian(t.flags, 2), LittleEndian(|t.columns|, 8));
    HasSplit(data, p, Fixed(t.name), LittleEndian(t.flags, 2));
    HasLength(data, p, Fixed(t.name));
    FlagsUndo(data, p + 64, t.flags);
    CountUndo(data, p + 66, |t.columns|);
    FixedUndo(t.name);
  }

  lemma {:induction false} TablesUndo(ts: seq<Table>, data: seq<byte>, p: nat)
    requires HasAt(data, p, SaveTables(ts)) && forall i :: 0 <= i < |ts| ==> |ts[i].columns| < TWO_64
    ensures LoadTables(data, p, |ts|) == if AllClear(ts) then Done((ts, p + |SaveTables(ts)|)) else Trapped
  {
    hide HasAt, NameIn, TableEntry, SaveColumns, LoadColumns, FromLittleEndian, FlagsAt, Loadable, BitsClear;
    if ts != [] {
      var t, columns, rest := ts[0], SaveColumns(ts[0].columns), SaveTables(ts[1..]);
      LoadableIff(t.flags);
      ClearSplit(ts);
      HasSplit(data, p, TableEntry(t) + columns, rest);
      HasSplit(data, p, TableEntry(t), columns);
      EntryUndo(t, data, p);
      ColumnsUndo(t.columns, data, p + 74);
      TablesUndo(ts[1..], data, p + 74 + |columns|);
      assert ts == [t] + ts[1..];
    }
  }

  lemma DatabaseEntryUndo(db: Database, data: seq<byte>, p: nat)
    requires HasAt(data, p, DatabaseEntry(db)) && |db.users| < TWO_64 && |db.tables| < TWO_64
    ensures |DatabaseEntry(db)| == 80 && p + 80 <= |data| && NameIn(data[p..p + 64]) == db.name
    ensures FromLittleEndian(data[p + 64..p + 72]) == |db.users| && FromLittleEndian(data[p + 72..p + 80]) == |db.tables|
  {
    hide HasAt, Fixed, NameIn, LittleEndian, FromLittleEndian;
    HasSplit(data, p, Fixed(db.name) + LittleEndian(|db.users|, 8), LittleEndian(|db.tables|, 8));
    HasSplit(data, p, Fixed(db.name), LittleEndian(|db.users|, 8));
    HasLength(data, p, Fixed(db.name));
    CountUndo(data, p + 64, |db.users|);
    CountUndo(data, p + 72, |db.tables|);
    FixedUndo(db.name);
  }

  /** The pool as loading makes it before it turns the list of databases round. */
  function UsersReversed(dbs: Pool): (r: Pool)
    ensures |r| == |dbs|
  {
    seq(|dbs|, i requires 0 <= i < |dbs| => dbs[i].(users := Reverse(dbs[i].users)))
  }

  lemma {:induction false} DatabasesUndo(dbs: Pool, data: seq<byte>, p: nat)
    requires HasAt(data, p, SaveDatabases(dbs)) && forall i :: 0 <= i < |dbs| ==> DatabaseFits(dbs[i])
    ensures LoadDatabases(data, p, |dbs|) ==
            if PoolClear(dbs) then Done((UsersReversed(dbs), p + |SaveDatabases(dbs)|)) else Trapped
  {
    hide HasAt, NameIn, DatabaseEntry, SaveUsers, SaveTables, LoadUsers, LoadTables, FromLittleEndian, Reverse, AllClear;
    if dbs == [] {
      assert UsersReversed(dbs) == [];
    } else {
      var db, users, tables, rest := dbs[0], SaveUsers(dbs[0].users), SaveTables(dbs[0].tables), SaveDatabases(dbs[1..]);
      assert DatabaseFits(db);
      PoolClearSplit(dbs);
      HasSplit(data, p, DatabaseEntry(db) + users + tables, rest);
      HasSplit(data, p, DatabaseEntry(db) + users, tables);
      HasSplit(data, p, DatabaseEntry(db), users);
      DatabaseEntryUndo(db, data, p);
      UsersUndo(db.users, data, p + 80);
      TablesUndo(db.tables, data, p + 80 + |users|);
      DatabasesUndo(dbs[1..], data, p + 80 + |users| + |tables|);
      assert UsersReversed(dbs) == [db.(users := Reverse(db.users))] + UsersReversed(dbs[1..]);
    }
  }

  /** What one cycle of saving and loading makes of a pool. */
  function Turned(dbs: Pool): Pool {
    Reverse(UsersReversed(dbs))
  }

  /**
   Loading a saved catalog, whatever bytes an older and longer catalog left behind it: the pool comes back turned round if
   no table is a proxy or ephemeral, whatever its other flags are, and the server stops otherwise.
   */
  lemma SavedUndo(dbs: Pool, junk: seq<byte>)
    requires CountsFit(dbs)
    ensures LoadedPool(Saved(dbs) + junk) == if PoolClear(dbs) then Done(Turned(dbs)) else Trapped
  {
    hide PoolClear, HasAt, LittleEndian, FromLittleEndian, SaveDatabases, LoadDatabases, Reverse;
    var data := Saved(dbs) + junk;
    var magic, version, count := LittleEndian(CATALOG_MAGIC, 8), LittleEndian(CATALOG_VERSION, 8), LittleEndian(|dbs|, 8);
    WholeHas(HeaderOf(dbs) + SaveDatabases(dbs), junk);
    HasSplit(data, 0, HeaderOf(dbs), SaveDatabases(dbs));
    HasSplit(data, 0, magic + version, count);
    HasSplit(data, 0, magic, version);
    CountUndo(data, 0, CATALOG_MAGIC);
    CountUndo(data, 8, CATALOG_VERSION);
    CountUndo(data, 16, |dbs|);
    DatabasesUndo(dbs, data, 24);
    assert data[0..8] == data[..8];
  }

  lemma WholeHas(a: seq<byte>, junk: seq<byte>)
    ensures HasAt(a + junk, 0, a)
  {
  }

  lemma {:induction false} ReverseAt<T>(xs: seq<T>, k: nat)
    requires k < |xs|
    ensures Reverse(xs)[k] == xs[|xs| - 1 - k]
  {
    if k < |xs| - 1 {
      ReverseAt(xs[1..], k);
    }
  }

  lemma ReverseTwice<T>(xs: seq<T>)
    ensures Reverse(Reverse(xs)) == xs
  {
    hide Reverse;
    forall k | 0 <= k < |xs|
      ensures Reverse(Reverse(xs))[k] == xs[k]
    {
      ReverseAt(Reverse(xs), k);
      ReverseAt(xs, |xs| - 1 - k);
    }
  }

  /** Two cycles of saving and loading restore the pool exactly. */
  lemma TwoCyclesRestore(dbs: Pool, junk: seq<byte>, junk': seq<byte>)
    requires CountsFit(dbs) && PoolClear(dbs)
    ensures LoadedPool(Saved(dbs) + junk) == Done(Turned(dbs)) && LoadedPool(Saved(Turned(dbs)) + junk') == Done(dbs)
  {
    hide LoadedPool, Saved, Reverse, AllClear;
    var once := Turned(dbs);
    SavedUndo(dbs, junk);
    forall k | 0 <= k < |once|
      ensures DatabaseFits(once[k]) && AllClear(once[k].tables)
    {
      ReverseAt(UsersReversed(dbs), k);
    }
    SavedUndo(once, junk');
    forall k | 0 <= k < |dbs|
      ensures Turned(once)[k] == dbs[k]
    {
      ReverseAt(UsersReversed(once), k);
      ReverseAt(UsersReversed(dbs), |dbs| - 1 - k);
      ReverseTwice(dbs[k].users);
    }
    assert Turned(once) == dbs;
  }

  // ---------- The file ----------

  /** So far exactly `bytes` were written, from the start of a file that held `before`. */
  ghost predicate Wrote(file: File, before: seq<byte>, bytes: seq<byte>)
    reads file
  {
    file.data == WriteAt(before, 0, bytes) && file.pos == |bytes| && file.offset == 0
  }

  lemma WriteNext(before: seq<byte>, a: seq<byte>, b: seq<byte>)
    ensures WriteAt(WriteAt(before, 0, a), |a|, b) == WriteAt(before, 0, a + b)
  {
    var l, r := WriteAt(WriteAt(before, 0, a), |a|, b), WriteAt(before, 0, a + b);
    assert forall i :: 0 <= i < |l| ==> l[i] == r[i] by {
      assert r[..|a + b|] == a + b && l[|a|..|a| + |b|] == b;
      assert WriteAt(before, 0, a)[..|a|] == a;
    }
  }

  method Append(file: File, bytes: seq<byte>, ghost before: seq<byte>, ghost written: seq<byte>)
    requires Wrote(file, before, written)
    modifies file
    ensures Wrote(file, before, written + bytes)
  {
    WriteNext(before, written, bytes);
    file.Write(bytes);
  }

  method WriteUsers(file: File, us: seq<User>, ghost before: seq<byte>, ghost written: seq<byte>)
    requires Wrote(file, before, written)
    modifies file
    ensures Wrote(file, before, written + SaveUsers(us))
  {
    hide Wrote, SaveUser;
    assert us[0..] == us;
    ghost var done := [];
    assert written + [] == written;
    for i := 0 to |us|
      invariant Wrote(file, before, written + done) && SaveUsers(us) == done + SaveUsers(us[i..])
    {
      assert us[i..][1..] == us[i + 1..];
      Append(file, SaveUser(us[i]), before, written + done);
      Regroup(written, done, SaveUser(us[i]), SaveUsers(us[i + 1..]));
      done := done + SaveUser(us[i]);
    }
    assert us[|us|..] == [] && done + [] == done;
  }

  lemma Regroup(a: seq<byte>, b: seq<byte>, c: seq<byte>, d: seq<byte>)
    ensures (a + b) + c == a + (b + c) && b + (c + d) == (b + c) + d
  {
  }

  method WriteColumns(file: File, cs: seq<Column>, ghost before: seq<byte>, ghost written: seq<byte>)
    requires Wrote(file, before, written)
    modifies file
    ensures Wrote(file, before, written + SaveColumns(cs))
  {
    hide Wrote, Fixed;
    assert cs[0..] == cs;
    ghost var done := [];
    assert written + [] == written;
    for i := 0 to |cs|
      invariant Wrote(file, before, written + done) && SaveColumns(cs) == done + SaveColumns(cs[i..])
    {
      assert cs[i..][1..] == cs[i + 1..];
      Append(file, Fixed(cs[i].name), before, written + done);
      Append(file, [cs[i].kind], before, written + done + Fixed(cs[i].name));
      Regroup(written + done, Fixed(cs[i].name), [cs[i].kind], []);
      Regroup(written, done, SaveColumn(cs[i]), SaveColumns(cs[i + 1..]));
      done := done + SaveColumn(cs[i]);
    }
    assert cs[|cs|..] == [] && done + [] == done;
  }

  method WriteTables(file: File, ts: seq<Table>, ghost before: seq<byte>, ghost written: seq<byte>)
    requires Wrote(file, before, written)
    modifies file
    ensures Wrote(file, before, written + SaveTables(ts))
  {
    hide Wrote, TableEntry, SaveColumns;
    assert ts[0..] == ts;
    ghost var done := [];
    assert written + [] == written;
    for i := 0 to |ts|
      invariant Wrote(file, before, written + done) && SaveTables(ts) == done + SaveTables(ts[i..])
    {
      assert ts[i..][1..] == ts[i + 1..];
      ghost var entry, columns := TableEntry(ts[i]), SaveColumns(ts[i].columns);
      Append(file, TableEntry(ts[i]), before, written + done);
      WriteColumns(file, ts[i].columns, before, written + done + entry);
      Regroup(written + done, entry, columns, []);
      Regroup(written, done, entry + columns, SaveTables(ts[i + 1..]));
      done := done + (entry + columns);
    }
    assert ts[|ts|..] == [] && done + [] == done;
  }

  /**
   `catalog_save`: everything is written from the start of the file, which keeps what it held behind that. The size that
   it returns is the `offset` of the file, which writing leaves at the start.
   */
  method Save(dbs: Pool, file: File) returns (size: nat)
    modifies file
    ensures file.data == WriteAt(old(file.data), 0, Saved(dbs)) && size == 0
  {
    hide Wrote, HeaderOf, DatabaseEntry, SaveUsers, SaveTables;
    ghost var before := file.data;
    file.SeekTo(0);
    StartsWriting(file, before);
    Append(file, HeaderOf(dbs), before, []);
    assert [] + HeaderOf(dbs) == HeaderOf(dbs) && dbs[0..] == dbs;
    ghost var done := [];
    assert HeaderOf(dbs) + [] == HeaderOf(dbs);
    for i := 0 to |dbs|
      invariant Wrote(file, before, HeaderOf(dbs) + done) && SaveDatabases(dbs) == done + SaveDatabases(dbs[i..])
    {
      assert dbs[i..][1..] == dbs[i + 1..];
      ghost var written := HeaderOf(dbs) + done;
      ghost var entry, users, tables := DatabaseEntry(dbs[i]), SaveUsers(dbs[i].users), SaveTables(dbs[i].tables);
      Append(file, DatabaseEntry(dbs[i]), before, written);
      WriteUsers(file, dbs[i].users, before, written + entry);
      WriteTables(file, dbs[i].tables, before, written + entry + users);
      Regroup(written, entry, users, []);
      Regroup(written, entry + users, tables, []);
      Regroup(HeaderOf(dbs), done, entry + users + tables, SaveDatabases(dbs[i + 1..]));
      done := done + (entry + users + tables);
    }
    assert dbs[|dbs|..] == [] && done + [] == done;
    size := Finish(file, before, Saved(dbs));
  }

  method Finish(file: File, ghost before: seq<byte>, ghost bytes: seq<byte>) returns (size: nat)
    requires Wrote(file, before, bytes)
    ensures size == 0 && file.data == WriteAt(before, 0, bytes)
  {
    size := file.offset;
  }

  lemma StartsWriting(file: File, before: seq<byte>)
    requires file.data == before && file.pos == 0 && file.offset == 0
    ensures Wrote(file, before, [])
  {
    assert WriteAt(before, 0, []) == before;
  }

  /** The same for a saved catalog in a file that held something else before. */
  lemma SavedFileLoads(dbs: Pool, before: seq<byte>)
    requires CountsFit(dbs)
    ensures LoadedPool(WriteAt(before, 0, Saved(dbs))) == if PoolClear(dbs) then Done(Turned(dbs)) else Trapped
  {
    hide Saved, LoadedPool, PoolClear;
    var bytes := Saved(dbs);
    var data := WriteAt(before, 0, bytes);
    assert data == bytes + data[|bytes|..] by {
      assert data[0..|bytes|] == bytes;
    }
    SavedUndo(dbs, data[|bytes|..]);
  }

  // ---------- Loading with lists that grow at the front ----------

  function After<T>(xs: seq<T>, r: Loaded<seq<T>>): Loaded<seq<T>> {
    match r
    case Done((ys, p)) => Done((xs + ys, p))
    case Failed => Failed
    case Trapped => Trapped
  }

  lemma AfterNone<T>(r: Loaded<seq<T>>)
    ensures After([], r) == r
  {
    if r.Done? {
      assert [] + r.value.0 == r.value.0;
    }
  }

  lemma AfterOne<T>(xs: seq<T>, x: T, ys: seq<T>, p: nat)
    ensures After(xs, Done(([x] + ys, p))) == After(xs + [x], Done((ys, p)))
  {
    assert xs + ([x] + ys) == xs + [x] + ys;
  }

  lemma {:induction false} ReverseLast<T>(xs: seq<T>, x: T)
    ensures Reverse(xs + [x]) == [x] + Reverse(xs)
  {
    if xs == [] {
      assert [x][1..] == [];
    } else {
      assert (xs + [x])[1..] == xs[1..] + [x];
      ReverseLast(xs[1..], x);
    }
  }

  /** `read`: the next n bytes, or the server stops. */
  method ReadBytes(file: File, n: nat) returns (r: Outcome<seq<byte>>)
    modifies file`pos
    ensures old(file.pos) + n <= |file.data| ==>
              r == Done(file.data[old(file.pos)..old(file.pos) + n]) && file.pos == old(file.pos) + n
    ensures old(file.pos) + n > |file.data| ==> r == Trapped
  {
    if n == 0 && file.pos > |file.data| {
      return Trapped;
    }
    var bytes := file.Read(n);
    r := if |bytes| == n then Done(bytes) else Trapped;
  }

  /** Reads n users; each goes to the front of the list. */
  method ReadUsers(file: File, n: nat) returns (r: Outcome<seq<User>>)
    modifies file`pos
    ensures match LoadUsers(file.data, old(file.pos), n)
            case Done((us, q)) => r == Done(Reverse(us)) && file.pos == q
            case Failed => r == Failed
            case Trapped => r == Trapped
  {
    hide NameIn, Reverse;
    ghost var read: seq<User> := [];
    var users: seq<User> := [];
    ReverseNone<User>();
    AfterNone(LoadUsers(file.data, file.pos, n));
    for i := 0 to n
      invariant users == Reverse(read)
      invariant LoadUsers(file.data, old(file.pos), n) == After(read, LoadUsers(file.data, file.pos, n - i))
    {
      ghost var p := file.pos;
      var entry := ReadBytes(file, 97);
      if !entry.Done? {
        return Trapped;
      }
      var u := User(NameIn(entry.value[..64]), entry.value[64..96], entry.value[96]);
      UserParts(file.data, p, entry.value);
      ReverseLast(read, u);
      if LoadUsers(file.data, file.pos, n - i - 1).Done? {
        var (us, q) := LoadUsers(file.data, file.pos, n - i - 1).value;
        AfterOne(read, u, us, q);
      }
      read, users := read + [u], [u] + users;
    }
    assert read + [] == read;
    r := Done(users);
  }

  lemma ReverseNone<T>()
    ensures Reverse<T>([]) == []
  {
  }

  lemma UserParts(data: seq<byte>, p: nat, entry: seq<byte>)
    requires p + 97 <= |data| && entry == data[p..p + 97]
    ensures entry[..64] == data[p..p + 64] && entry[64..96] == data[p + 64..p + 96] && entry[96] == data[p + 96]
  {
    InnerSlice(data, p, 97, 0, 64);
    InnerSlice(data, p, 97, 64, 96);
  }

  lemma InnerSlice(data: seq<byte>, p: nat, n: nat, a: nat, b: nat)
    requires a <= b <= n && p + n <= |data|
    ensures data[p..p + n][a..b] == data[p + a..p + b]
  {
    var l, r := data[p..p + n][a..b], data[p + a..p + b];
    assert forall i :: 0 <= i < b - a ==> l[i] == r[i];
  }

  method ReadColumns(file: File, n: nat) returns (r: Outcome<seq<Column>>)
    modifies file`pos
    ensures match LoadColumns(file.data, old(file.pos), n)
            case Done((cs, q)) => r == Done(cs) && file.pos == q
            case Failed => r == Failed
            case Trapped => r == Trapped
  {
    hide NameIn;
    var columns: seq<Column> := [];
    AfterNone(LoadColumns(file.data, file.pos, n));
    for i := 0 to n
      invariant LoadColumns(file.data, old(file.pos), n) == After(columns, LoadColumns(file.data, file.pos, n - i))
    {
      var name := ReadBytes(file, 64);
      if !name.Done? {
        return Trapped;
      }
      var kind := ReadBytes(file, 1);
      if !kind.Done? {
        return Trapped;
      }
      var c := Column(NameIn(name.value), kind.value[0]);
      if LoadColumns(file.data, file.pos, n - i - 1).Done? {
        var (cs, q) := LoadColumns(file.data, file.pos, n - i - 1).value;
        AfterOne(columns, c, cs, q);
      }
      columns := columns + [c];
    }
    assert columns + [] == columns;
    r := Done(columns);
  }

  method ReadTables(file: File, n: nat) returns (r: Outcome<seq<Table>>)
    modifies file`pos
    ensures match LoadTables(file.data, old(file.pos), n)
            case Done((ts, q)) => r == Done(ts) && file.pos == q
            case Failed => r == Failed
            case Trapped => r == Trapped
  {
    hide NameIn, LoadColumns, FromLittleEndian, Loadable;
    var tables: seq<Table> := [];
    AfterNone(LoadTables(file.data, file.pos, n));
    for i := 0 to n
      invariant LoadTables(file.data, old(file.pos), n) == After(tables, LoadTables(file.data, file.pos, n - i))
    {
      ghost var p := file.pos;
      var entry := ReadBytes(file, 74);
      if !entry.Done? {
        return Trapped;
      }
      EntryParts(file.data, p, entry.value);
      var columns := ReadColumns(file, FromLittleEndian(entry.value[66..74]));
      if !columns.Done? {
        return if columns.Failed? then Failed else Trapped;
      }
      var t := Table(NameIn(entry.value[..64]), FlagsAt(entry.value, 64), columns.value);
      if !Loadable(t.flags) {
        return Trapped;
      }
      if LoadTables(file.data, file.pos, n - i - 1).Done? {
        var (ts, q) := LoadTables(file.data, file.pos, n - i - 1).value;
        AfterOne(tables, t, ts, q);
      }
      tables := tables + [t];
    }
    assert tables + [] == tables;
    r := Done(tables);
  }

  lemma EntryParts(data: seq<byte>, p: nat, entry: seq<byte>)
    requires p + 74 <= |data| && entry == data[p..p + 74]
    ensures entry[..64] == data[p..p + 64] && entry[66..74] == data[p + 66..p + 74]
    ensures FlagsAt(entry, 64) == FlagsAt(data, p + 64)
  {
    InnerSlice(data, p, 74, 0, 64);
    InnerSlice(data, p, 74, 66, 74);
  }

  lemma DatabaseParts(data: seq<byte>, p: nat, entry: seq<byte>)
    requires p + 80 <= |data| && entry == data[p..p + 80]
    ensures entry[..64] == data[p..p + 64] && entry[64..72] == data[p + 64..p + 72] && entry[72..80] == data[p + 72..p + 80]
  {
    InnerSlice(data, p, 80, 0, 64);
    InnerSlice(data, p, 80, 64, 72);
    InnerSlice(data, p, 80, 72, 80);
  }

  class DBPool {
    var databases: Pool

    /** `catalog_load` */
    method Load(file: File) returns (r: Outcome<()>)
      modifies this, file`pos, file`offset
      ensures match LoadedPool(file.data)
              case Done(dbs) => r.Done? && databases == dbs
              case Failed => r == Failed
              case Trapped => r == Trapped
    {
      hide FromLittleEndian, LoadDatabases;
      file.SeekTo(0);
      var header := ReadBytes(file, 24);
      if !header.Done? {
        return Trapped;
      }
      HeaderParts(file.data, header.value);
      if FromLittleEndian(header.value[..8]) != CATALOG_MAGIC || FromLittleEndian(header.value[8..16]) != CATALOG_VERSION {
        return Failed;
      }
      databases := [];
      r := ReadDatabases(file, FromLittleEndian(header.value[16..24]));
    }

    /** Reads n databases; `create_db` puts each at the front. */
    method ReadDatabases(file: File, n: nat) returns (r: Outcome<()>)
      requires databases == []
      modifies this, file`pos
      ensures match LoadDatabases(file.data, old(file.pos), n)
              case Done((dbs, _)) => r.Done? && databases == Reverse(dbs)
              case Failed => r == Failed
              case Trapped => r == Trapped
    {
      hide NameIn, LoadUsers, LoadTables, FromLittleEndian, Reverse;
      ghost var read: Pool := [];
      ReverseNone<Database>();
      AfterNone(LoadDatabases(file.data, file.pos, n));
      for i := 0 to n
        invariant databases == Reverse(read)
        invariant LoadDatabases(file.data, old(file.pos), n) == After(read, LoadDatabases(file.data, file.pos, n - i))
      {
        ghost var p := file.pos;
        var entry := ReadBytes(file, 80);
        if !entry.Done? {
          return Trapped;
        }
        DatabaseParts(file.data, p, entry.value);
        var users := ReadUsers(file, FromLittleEndian(entry.value[64..72]));
        if !users.Done? {
          return if users.Failed? then Failed else Trapped;
        }
        var tables := ReadTables(file, FromLittleEndian(entry.value[72..80]));
        if !tables.Done? {
          return if tables.Failed? then Failed else Trapped;
        }
        var db := Database(NameIn(entry.value[..64]), users.value, tables.value);
        ReverseLast(read, db);
        if LoadDatabases(file.data, file.pos, n - i - 1).Done? {
          var (dbs, q) := LoadDatabases(file.data, file.pos, n - i - 1).value;
          AfterOne(read, db, dbs, q);
        }
        read := read + [db];
        databases := [db] + databases;
      }
      assert read + [] == read;
      r := Done(());
    }
  }

  lemma HeaderParts(data: seq<byte>, header: seq<byte>)
    requires 24 <= |data| && header == data[0..24]
    ensures header[..8] == data[..8] && header[8..16] == data[8..16] && header[16..24] == data[16..24]
  {
  }
}
