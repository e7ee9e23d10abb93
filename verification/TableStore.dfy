/**
 A stored table: record file and index together, under INSERT, UPDATE and DELETE. Models the INSERT, WRITE_COLUMN and
 DELETE_TABLE nodes of `src/Core/DBConnection.cpp`, the column streams of `src/Core/DBTable.cpp` and the file header
 of `src/Core/state.cpp`.
 */
module TableStore {
  import BTree
  import BTreeIndex
  import opened Bytes
  import opened RecordLayout
  import opened RecordStore
  import opened Wrappers

  // ---------- What the statements mean ----------

  /** The index keys of the rows. */
  function Keys(rows: seq<Row>, pk: nat): (keys: seq<nat>)
    ensures |keys| == |rows|
  {
    seq(|rows|, r requires 0 <= r < |rows| => KeyOf(rows[r], pk))
  }

  /** Where the values of an UPDATE come from: a constant, or a column of the same table. */
  datatype Source = Constant(value: Value) | Column(index: nat)

  function SourceValue(source: Source, row: Row): Value
    requires source.Column? ==> source.index < |row|
  {
    match source
    case Constant(v) => v
    case Column(c) => row[c]
  }

  predicate SourceFits(source: Source, types: seq<ColumnType>, i: nat) {
    && i < |types|
    && match source
       case Constant(v) => Fits(v, types[i])
       case Column(c) => c < |types| && types[c] == types[i]
  }

  predicate AllFit(rows: seq<Row>, types: seq<ColumnType>) {
    forall r :: 0 <= r < |rows| ==> RowFits(rows[r], types)
  }

  function UpdatedRow(row: Row, i: nat, source: Source): Row
    requires i < |row| && (source.Column? ==> source.index < |row|)
  {
    row[i := SourceValue(source, row)]
  }

  /** The rows after an UPDATE of column i. */
  function Updated(rows: seq<Row>, types: seq<ColumnType>, i: nat, source: Source): (r: seq<Row>)
    requires AllFit(rows, types) && SourceFits(source, types, i)
    ensures |r| == |rows|
  {
    seq(|rows|, r requires 0 <= r < |rows| => UpdatedRow(rows[r], i, source))
  }

  /** Rows of an INSERT that its record buffer keeps: the row that finds the buffer full is not put anywhere. */
  function Kept(rows: seq<Row>, buffered: nat): seq<Row> {
    if rows == [] then []
    else if buffered >= BUFFER_CAPACITY then Kept(rows[1..], 0)
    else [rows[0]] + Kept(rows[1..], buffered + 1)
  }

  lemma CycleStep(m: nat, buffered: nat)
    requires buffered <= 32
    ensures (m + 1 + buffered) / 33 ==
            if buffered == 32 then m / 33 + 1
            else (m + (buffered + 1)) / 33
    ensures (m + 1 + buffered) % 33 ==
            if buffered == 32 then m % 33
            else (m + (buffered + 1)) % 33
  {
  }

  lemma {:induction false} KeptCount(rows: seq<Row>, buffered: nat)
    requires buffered <= 32
    ensures |Kept(rows, buffered)| == |rows| - (|rows| + buffered) / 33
  {
    if rows != [] {
      CycleStep(|rows| - 1, buffered);
      KeptCount(rows[1..], if buffered == 32 then 0 else buffered + 1);
    }
  }

  /** What INSERT keeps: every row except those that come 33rd, 66th, ... in the statement. */
  lemma {:induction false} KeptRows(rows: seq<Row>, buffered: nat, k: nat)
    requires buffered <= 32 && k < |rows|
    requires (k + buffered) % 33 != 32
    ensures var at := k - (k + buffered) / 33;
            0 <= at < |Kept(rows, buffered)| && Kept(rows, buffered)[at] == rows[k]
  {
    if k > 0 {
      CycleStep(k - 1, buffered);
      KeptRows(rows[1..], if buffered == 32 then 0 else buffered + 1, k - 1);
    }
  }

  /** The INSERT of the executor stores every row exactly when there are at most 32 of them. */
  lemma InsertIsCompleteIff(rows: seq<Row>)
    ensures Kept(rows, 0) == rows <==> |rows| <= 32
  {
    hide Kept;
    KeptCount(rows, 0);
    if |rows| <= 32 {
      forall k | 0 <= k < |rows|
        ensures Kept(rows, 0)[k] == rows[k]
      {
        KeptRows(rows, 0, k);
      }
    }
  }

  // ---------- Values by position ----------

  /** Where a column is named in the column list of an INSERT. */
  function IndexIn(names: seq<string>, name: string): (i: nat)
    requires name in names
    ensures i < |names| && names[i] == name
  {
    if names[0] == name then 0 else 1 + IndexIn(names[1..], name)
  }

  /** The row an INSERT names: column j gets the value listed for its name. */
  function NamedRow(columns: seq<string>, names: seq<string>, values: seq<Value>): (row: Row)
    requires |values| == |names| && forall j :: 0 <= j < |columns| ==> columns[j] in names
    ensures |row| == |columns|
  {
    seq(|columns|, j requires 0 <= j < |columns| => values[IndexIn(names, columns[j])])
  }

  predicate NoRepeats(names: seq<string>) {
    forall i, j :: 0 <= i < j < |names| ==> names[i] != names[j]
  }

  /** Cells are filled by position, which gives the named row for all values exactly when the names are in table order. */
  lemma PositionsMeanNamesIff(columns: seq<string>, names: seq<string>)
    requires NoRepeats(names) && |names| == |columns|
    requires forall j :: 0 <= j < |columns| ==> columns[j] in names
    ensures (forall values: seq<Value> :: |values| == |names| ==> NamedRow(columns, names, values) == values) <==>
            names == columns
  {
    if names == columns {
      forall values: seq<Value> | |values| == |names|
        ensures NamedRow(columns, names, values) == values
      {
        assert forall j :: 0 <= j < |columns| ==> IndexIn(names, columns[j]) == j;
      }
    } else {
      var j :| 0 <= j < |names| && names[j] != columns[j];
      var k := IndexIn(names, columns[j]);
      var values := seq(|names|, i => Int(if i == k then 1 else 0));
      assert NamedRow(columns, names, values)[j] != values[j];
    }
  }

  // ---------- Whole runs ----------

  datatype Statement = InsertRows(input: seq<Row>) | UpdateColumn(column: nat, source: Source) | DeleteRows

  predicate Legal(s: Statement, types: seq<ColumnType>) {
    match s
    case InsertRows(input) => AllFit(input, types)
    case UpdateColumn(i, source) => SourceFits(source, types, i)
    case DeleteRows => true
  }

  /** The rows of a table and the keys of its index. */
  datatype Contents = Contents(rows: seq<Row>, keys: multiset<nat>)

  ghost function Step(c: Contents, s: Statement, types: seq<ColumnType>, pk: nat): (c': Contents)
    requires AllFit(c.rows, types) && Legal(s, types)
    ensures AllFit(c'.rows, types)
  {
    match s
    case InsertRows(input) => Contents(c.rows + input, c.keys + multiset(Keys(input, pk)))
    case UpdateColumn(i, source) => UpdatedFits(c.rows, types, i, source); Contents(Updated(c.rows, types, i, source), c.keys)
    case DeleteRows => Contents([], multiset{})
  }

  ghost function RunStatements(c: Contents, run: seq<Statement>, types: seq<ColumnType>, pk: nat): (c': Contents)
    requires AllFit(c.rows, types) && forall i :: 0 <= i < |run| ==> Legal(run[i], types)
    ensures AllFit(c'.rows, types)
  {
    if run == [] then c
    else Step(RunStatements(c, run[..|run| - 1], types, pk), run[|run| - 1], types, pk)
  }

  lemma UpdatedFits(rows: seq<Row>, types: seq<ColumnType>, i: nat, source: Source)
    requires AllFit(rows, types) && SourceFits(source, types, i)
    ensures AllFit(Updated(rows, types, i, source), types)
  {
    forall r | 0 <= r < |rows|
      ensures RowFits(UpdatedRow(rows[r], i, source), types)
    {
      SourceValueFits(source, rows[r], types, i);
    }
  }

  ghost predicate InStep(c: Contents, pk: nat) {
    c.keys == multiset(Keys(c.rows, pk))
  }

  /** Record file and index hold equally many entries after any run of statements on a new table. */
  lemma {:induction false} RunKeepsCounts(run: seq<Statement>, types: seq<ColumnType>, pk: nat)
    requires forall i :: 0 <= i < |run| ==> Legal(run[i], types)
    ensures var c := RunStatements(Contents([], multiset{}), run, types, pk); |c.keys| == |c.rows|
  {
    if run != [] {
      RunKeepsCounts(run[..|run| - 1], types, pk);
    }
  }

  /** The index holds the primary keys of the rows after any run in which no UPDATE writes the primary key. */
  lemma {:induction false} RunInStep(run: seq<Statement>, types: seq<ColumnType>, pk: nat)
    requires forall i :: 0 <= i < |run| ==> Legal(run[i], types)
    requires forall i :: 0 <= i < |run| && run[i].UpdateColumn? ==> run[i].column != pk
    ensures InStep(RunStatements(Contents([], multiset{}), run, types, pk), pk)
  {
    if run != [] {
      var before := run[..|run| - 1];
      RunInStep(before, types, pk);
      var c, s := RunStatements(Contents([], multiset{}), before, types, pk), run[|run| - 1];
      match s
      case InsertRows(input) => KeysConcat(c.rows, input, pk);
      case UpdateColumn(i, source) =>
        assert Keys(Updated(c.rows, types, i, source), pk) == Keys(c.rows, pk);
      case DeleteRows =>
    }
  }

  /** An UPDATE of the primary key to a constant keeps the index right exactly when every row had that key already. */
  lemma ConstantKeyInStepIff(c: Contents, types: seq<ColumnType>, pk: nat, v: Value)
    requires AllFit(c.rows, types) && InStep(c, pk) && SourceFits(Constant(v), types, pk)
    ensures InStep(Step(c, UpdateColumn(pk, Constant(v)), types, pk), pk) <==>
            forall r :: 0 <= r < |c.rows| ==> KeyOf(c.rows[r], pk) == KeyOf(c.rows[r][pk := v], pk)
  {
    var after := Updated(c.rows, types, pk, Constant(v));
    var keys, keys' := Keys(c.rows, pk), Keys(after, pk);
    if multiset(keys) == multiset(keys') {
      forall r | 0 <= r < |c.rows|
        ensures KeyOf(c.rows[r], pk) == KeyOf(c.rows[r][pk := v], pk)
      {
        assert keys'[r] == KeyOf(c.rows[r][pk := v], pk);
        assert keys[r] in multiset(keys');
        assert keys[r] in keys';
        assert forall q :: 0 <= q < |keys'| ==> keys'[q] == keys'[r];
      }
    } else {
      assert keys != keys';
    }
  }

  /** An UPDATE of the primary key from another column: exactly when that column held the same values, in any order. */
  lemma ColumnKeyInStepIff(c: Contents, types: seq<ColumnType>, pk: nat, from: nat)
    requires AllFit(c.rows, types) && InStep(c, pk) && SourceFits(Column(from), types, pk)
    ensures InStep(Step(c, UpdateColumn(pk, Column(from)), types, pk), pk) <==>
            multiset(Keys(c.rows, pk)) == multiset(Keys(c.rows, from))
  {
    assert Keys(Updated(c.rows, types, pk, Column(from)), pk) == Keys(c.rows, from);
  }

  // ---------- UPDATE of several columns ----------

  datatype Assignment = Assignment(column: nat, source: Source)

  predicate AssignmentsFit(sets: seq<Assignment>, types: seq<ColumnType>) {
    forall k :: 0 <= k < |sets| ==> SourceFits(sets[k].source, types, sets[k].column)
  }

  /** A row after the first n assignments, one after the other as the executor does them. */
  function OneByOne(row: Row, sets: seq<Assignment>, types: seq<ColumnType>, n: nat): (r: Row)
    requires RowFits(row, types) && AssignmentsFit(sets, types) && n <= |sets|
    ensures RowFits(r, types)
  {
    if n == 0 then row
    else
      var before := OneByOne(row, sets, types, n - 1);
      SourceValueFits(sets[n - 1].source, before, types, sets[n - 1].column);
      UpdatedRow(before, sets[n - 1].column, sets[n - 1].source)
  }

  // ---------- The table ----------

  class Table {
    const types: seq<ColumnType>
    const pk: nat
    const file: File
    const index: BTreeIndex.BTreeState
    var recordCount: nat
    ghost var rows: seq<Row>

    ghost function Repr(): set<object>
      reads index
    {
      {this, file, index, index.root, index.root.keys, index.root.children}
    }

    ghost predicate Shaped() {
      Storable(types) && pk < |types|
    }

    /** The file holds the header for `count` and the given rows. */
    ghost predicate Holds(count: nat, rows: seq<Row>)
      requires Shaped()
      reads file`data
    {
      |file.data| >= HEADER_LENGTH && file.data[..HEADER_LENGTH] == Header(count) && Stored(file.data, types, rows)
    }

    ghost predicate IndexValid()
      reads index, index.root, index.root.keys, index.root.children
    {
      index.Valid()
    }

    ghost predicate Valid()
      reads this, file`data, index, index.root, index.root.keys, index.root.children
    {
      && Shaped() && AllFit(rows, types)
      && Holds(recordCount, rows) && recordCount == |rows|
      && IndexValid() && index.header.kvCount == |rows|
    }

    /** The memory of the table grows by a new root node at most. */
    twostate predicate RootKept()
      reads index, index.root
    {
      || index.root == old(index.root)
      || (fresh(index.root) && fresh(index.root.keys) && fresh(index.root.children))
    }

    /** The keys in the index. */
    ghost function IndexKeys(): multiset<nat>
      reads index
    {
      multiset(BTree.Flat(index.tree))
    }

    /** `db_state_create` beside a new index. */
    constructor (types: seq<ColumnType>, pk: nat)
      requires Storable(types) && pk < |types|
      ensures Valid() && fresh(Repr()) && rows == [] && IndexKeys() == multiset{}
      ensures this.types == types && this.pk == pk
    {
      hide Header, Stored, Storable, BTreeIndex.Represents, BTree.RootShape, BTree.OwnPages, BTree.Flat;
      this.types, this.pk := types, pk;
      file := new File();
      index := new BTreeIndex.BTreeState.Create();
      recordCount, rows := 0, [];
      new;
      file.Write(Header(0));
      assert file.data == Header(0);
      EmptyStored(types);
    }

    /** `db_state_sync` */
    method Sync()
      requires Shaped() && Stored(file.data, types, rows)
      modifies file
      ensures Holds(recordCount, rows) && |old(file.data)| >= HEADER_LENGTH
      ensures file.data[HEADER_LENGTH..] == old(file.data)[HEADER_LENGTH..]
    {
      HeaderKeepsRows(file.data, types, rows, Header(recordCount));
      file.SeekTo(0);
      file.Write(Header(recordCount));
    }

    // ---------- INSERT ----------

    method InsertKey(key: nat)
      requires IndexValid()
      modifies index, index.root, index.root.keys, index.root.children
      ensures IndexValid() && RootKept()
      ensures index.header.kvCount == old(index.header.kvCount) + 1
      ensures IndexKeys() == old(IndexKeys()) + multiset{key}
    {
      hide BTree.Flat, BTreeIndex.Represents, BTree.RootShape, BTree.OwnPages, BTree.Insert, BTree.NewHeight;
      index.Insert(key);
    }

    /** Writes one record behind the `at` records before it. */
    method PutRecord(bytes: seq<byte>, at: nat, ghost row: Row, ghost done: seq<Row>)
      requires Shaped() && RowFits(row, types) && bytes == Record(row, types)
      requires Holds(recordCount, done) && at == |done|
      modifies file
      ensures Holds(recordCount, done + [row])
    {
      hide Header, Stored, Record, RowFits, RecordSize;
      AppendStores(file.data, types, done, row);
      AfterHeader(types, at);
      WriteElsewhere(file.data, Offset(RecordSize(types), at), bytes, 0, HEADER_LENGTH);
      file.SeekTo(HEADER_LENGTH + RecordSize(types) * at);
      file.Write(bytes);
    }

    /** One turn of the loop of `flush_buffer`. */
    method WriteRecord(record: DBRecord, at: nat, ghost row: Row, ghost done: seq<Row>)
      requires Shaped() && RowFits(row, types) && record == RecordOf(row, types, pk)
      requires Holds(recordCount, done) && IndexValid() && at == |done|
      modifies index, index.root, index.root.keys, index.root.children, file
      ensures Holds(recordCount, done + [row]) && IndexValid()
      ensures RootKept()
      ensures index.header.kvCount == old(index.header.kvCount) + 1
      ensures IndexKeys() == old(IndexKeys()) + multiset{KeyOf(row, pk)}
    {
      hide Holds, IndexValid, IndexKeys, Record, RowFits, KeyOf;
      InsertKey(record.primaryKey);
      PutRecord(record.bytes, at, row, done);
    }

    /** The loop of `flush_buffer`: the header still counts the records before the batch. */
    method WriteBatch(records: array<DBRecord>, n: nat, ghost batch: seq<Row>, ghost done: seq<Row>)
      requires Shaped() && AllFit(batch, types) && n == |batch| <= records.Length
      requires forall i :: 0 <= i < n ==> records[i] == RecordOf(batch[i], types, pk)
      requires Holds(recordCount, done) && IndexValid() && recordCount == |done|
      modifies index, index.root, index.root.keys, index.root.children, file
      ensures Holds(recordCount, done + batch) && IndexValid()
      ensures RootKept()
      ensures index.header.kvCount == old(index.header.kvCount) + n
      ensures IndexKeys() == old(IndexKeys()) + multiset(Keys(batch, pk))
    {
      hide Holds, IndexValid, IndexKeys, RecordOf, RowFits, KeyOf, Storable, Keys;
      assert done + batch[..0] == done && batch[..0] == [];
      NoKeys(pk);
      for i := 0 to n
        invariant Holds(recordCount, done + batch[..i]) && IndexValid()
        invariant RootKept()
        invariant index.header.kvCount == old(index.header.kvCount) + i
        invariant IndexKeys() == old(IndexKeys()) + multiset(Keys(batch[..i], pk))
      {
        WriteRecord(records[i], i + recordCount, batch[i], done + batch[..i]);
        assert (done + batch[..i]) + [batch[i]] == done + batch[..i + 1];
        OneMoreKey(batch, i, pk);
      }
      assert batch[..n] == batch;
    }

    /** `flush_buffer`: the first n buffered records go to the index and behind the records of the file. */
    method Flush(records: array<DBRecord>, n: nat, ghost batch: seq<Row>)
      requires Valid() && n == |batch| <= records.Length && AllFit(batch, types)
      requires forall i :: 0 <= i < n ==> records[i] == RecordOf(batch[i], types, pk)
      modifies Repr()
      ensures Valid() && RootKept()
      ensures rows == old(rows) + batch
      ensures IndexKeys() == old(IndexKeys()) + multiset(Keys(batch, pk))
    {
      hide Header, IndexValid, IndexKeys, RecordOf, RowFits, KeyOf, Storable, Stored, Keys;
      WriteBatch(records, n, batch, rows);
      recordCount := recordCount + n;
      rows := rows + batch;
      Sync();
    }

    /** The buffered records are those of the batch. */
    ghost predicate Buffered(records: array<DBRecord>, batch: seq<Row>)
      requires Shaped()
      reads records
    {
      && |batch| <= records.Length && AllFit(batch, types)
      && forall j :: 0 <= j < |batch| ==> records[j] == RecordOf(batch[j], types, pk)
    }

    method Buffer(records: array<DBRecord>, count: nat, row: Row, ghost batch: seq<Row>)
      requires Shaped() && RowFits(row, types) && Buffered(records, batch) && count == |batch| < records.Length
      modifies records
      ensures Buffered(records, batch + [row])
    {
      hide RowFits, RecordOf, Storable;
      records[count] := BuildRecord(row, types, pk);
    }

    /** A flush, seen from the whole INSERT that started with `before` in the table. */
    method FlushBatch(records: array<DBRecord>, count: nat, ghost batch: seq<Row>,
                      ghost before: seq<Row>, ghost keys: multiset<nat>, ghost flushed: seq<Row>)
      requires Valid() && Buffered(records, batch) && count == |batch|
      requires rows == before + flushed && IndexKeys() == keys + multiset(Keys(flushed, pk))
      modifies Repr()
      ensures Valid() && RootKept()
      ensures rows == before + (flushed + batch) && IndexKeys() == keys + multiset(Keys(flushed + batch, pk))
    {
      hide IndexKeys, RecordOf, RowFits, Keys, Storable, Holds, IndexValid;
      Flush(records, count, batch);
      KeysConcat(flushed, batch, pk);
    }

    lemma ValidShaped()
      requires Valid()
      ensures Shaped()
    {
    }

    /** INSERT of any number of rows through the record buffer; the row that finds it full is buffered afterwards. */
    method Insert(input: seq<Row>)
      requires Valid() && AllFit(input, types)
      modifies Repr()
      ensures Valid() && RootKept()
      ensures rows == old(rows) + input
      ensures IndexKeys() == old(IndexKeys()) + multiset(Keys(input, pk))
    {
      hide Valid, IndexKeys, RowFits, Keys, Storable, Buffered;
      ValidShaped();
      var records := NewBuffer();
      var count := 0;
      ghost var flushed, batch := [], [];
      NoKeys(pk);
      for i := 0 to |input|
        invariant Valid() && RootKept() && records !in Repr()
        invariant count == |batch| <= BUFFER_CAPACITY && Buffered(records, batch)
        invariant input[..i] == flushed + batch && rows == old(rows) + flushed
        invariant IndexKeys() == old(IndexKeys()) + multiset(Keys(flushed, pk))
      {
        if count >= BUFFER_CAPACITY {
          FlushBatch(records, count, batch, old(rows), old(IndexKeys()), flushed);
          flushed, batch := flushed + batch, [];
          count := 0;
          NothingBuffered(records);
        }
        Buffer(records, count, input[i], batch);
        batch := batch + [input[i]];
        count := count + 1;
      }
      FlushBatch(records, count, batch, old(rows), old(IndexKeys()), flushed);
      assert input[..|input|] == input;
    }

    method NewBuffer() returns (records: array<DBRecord>)
      requires Shaped()
      ensures fresh(records) && records.Length == BUFFER_CAPACITY && Buffered(records, [])
    {
      records := new DBRecord[BUFFER_CAPACITY](i => DBRecord([], 0));
    }

    lemma NothingBuffered(records: array<DBRecord>)
      requires Shaped()
      ensures Buffered(records, [])
    {
    }

    /** INSERT as written: the row that finds the buffer full is dropped. */
    method InsertAsWritten(input: seq<Row>)
      requires Valid() && AllFit(input, types)
      modifies Repr()
      ensures Valid() && RootKept()
      ensures rows == old(rows) + Kept(input, 0)
      ensures IndexKeys() == old(IndexKeys()) + multiset(Keys(Kept(input, 0), pk))
    {
      hide Valid, IndexKeys, RowFits, Keys, Storable, Kept, Buffered;
      ValidShaped();
      var records := NewBuffer();
      var count := 0;
      ghost var flushed, batch := [], [];
      assert input[0..] == input;
      NoKeys(pk);
      for i := 0 to |input|
        invariant Valid() && RootKept() && records !in Repr()
        invariant count == |batch| <= BUFFER_CAPACITY && Buffered(records, batch)
        invariant rows == old(rows) + flushed
        invariant IndexKeys() == old(IndexKeys()) + multiset(Keys(flushed, pk))
        invariant Kept(input, 0) == flushed + batch + Kept(input[i..], count)
      {
        KeptStep(input, i, count);
        if count >= BUFFER_CAPACITY {
          FlushBatch(records, count, batch, old(rows), old(IndexKeys()), flushed);
          flushed, batch := flushed + batch, [];
          count := 0;
          NothingBuffered(records);
        } else {
          Buffer(records, count, input[i], batch);
          RowsRegroup(flushed, batch, [input[i]], Kept(input[i + 1..], count + 1));
          batch := batch + [input[i]];
          count := count + 1;
        }
      }
      FlushBatch(records, count, batch, old(rows), old(IndexKeys()), flushed);
      assert input[|input|..] == [];
      NoneKept(count);
      assert Kept(input, 0) == flushed + batch;
    }

    // ---------- Reading, UPDATE, DELETE ----------

    /** Reads column i of record r from the file, as a column stream does. */
    method ReadCell(r: nat, i: nat) returns (v: Value)
      requires Valid() && r < |rows| && i < |types|
      modifies file`pos, file`offset
      ensures v == rows[r][i]
    {
      hide IndexValid, CellOffset, RecordSize, Place, NoHoles, RowFits, Stored, Header;
      CellStored(file.data, types, rows, r, i);
      SeekPosition(types, r, i);
      var layout := Place(types, i);
      file.SeekTo(HEADER_LENGTH + r * RecordSize(types) + layout.offset);
      var bytes := file.Read(layout.size);
      v := DecodeCell(bytes, types[i]);
    }

    /** Writes one cell of one row in place, through a record buffer. */
    method WriteCell(buffer: array<byte>, r: nat, i: nat, v: Value)
      requires Valid() && r < |rows| && i < |types| && Fits(v, types[i]) && buffer.Length == RecordSize(types)
      modifies file, this`rows, buffer
      ensures Valid() && rows == old(rows)[r := old(rows)[r][i := v]] && |file.data| == |old(file.data)|
    {
      hide IndexValid, CellOffset, RecordSize, Place, EndOf, NoHoles, Stored, Header, Cell, SizeOf, Fits;
      CellWriteStores(file.data, types, rows, r, i, v);
      SeekPosition(types, r, i);
      CellInRecord(types, i);
      var layout := Place(types, i);
      FillColumn(buffer, types, i, v);
      assert buffer[..][layout.offset..layout.offset + layout.size] == Cell(v, types[i]);
      file.SeekTo(HEADER_LENGTH + r * RecordSize(types) + layout.offset);
      file.Write(buffer[layout.offset..layout.offset + layout.size]);
      rows := rows[r := rows[r][i := v]];
    }

    /** One turn of the UPDATE loop: pulls the next value of the stream and writes it to row r. */
    method UpdateRow(buffer: array<byte>, stream: Stream, r: nat, i: nat)
      requires Valid() && r < |rows| && buffer.Length == RecordSize(types)
      requires stream.table == this && SourceFits(stream.source, types, i)
      requires stream.source.Column? ==> stream.current == r
      modifies file, this`rows, buffer, stream
      ensures Valid() && |file.data| == |old(file.data)|
      ensures stream.source.Column? ==> stream.current == r + 1
      ensures |old(rows[r])| == |types| && rows == old(rows)[r := UpdatedRow(old(rows)[r], i, stream.source)]
    {
      hide IndexValid, Stored, Header, Fits, Storable, RecordSize, Holds;
      SourceValueFits(stream.source, rows[r], types, i);
      var next := stream.Next();
      WriteCell(buffer, r, i, next.value);
    }

    /** UPDATE of column i: the WRITE_COLUMN node. Values are pulled from the stream while the file is written. */
    method WriteColumn(i: nat, source: Source)
      requires Valid() && SourceFits(source, types, i)
      modifies file, this`rows
      ensures Valid() && |file.data| == |old(file.data)|
      ensures old(AllFit(rows, types)) && rows == Updated(old(rows), types, i, source)
    {
      hide IndexValid, Stored, Header, RowFits, Fits, Storable, RecordSize, Holds;
      ghost var before := rows;
      ghost var after := Updated(before, types, i, source);
      var buffer := NewRecordBuffer();
      var stream := new Stream(this, source);
      var r := 0;
      while r < index.header.kvCount
        invariant Valid() && r <= |rows| == |before| && |file.data| == |old(file.data)|
        invariant source.Column? ==> stream.current == r
        invariant rows[..r] == after[..r] && rows[r..] == before[r..]
      {
        UpdateRow(buffer, stream, r, i);
        r := r + 1;
      }
    }

    /** UPDATE of several columns: one WRITE_COLUMN node after the other. */
    method WriteColumns(sets: seq<Assignment>)
      requires Valid() && AssignmentsFit(sets, types)
      modifies file, this`rows
      ensures Valid() && |rows| == |old(rows)| && |file.data| == |old(file.data)| && old(AllFit(rows, types))
      ensures forall r :: 0 <= r < |rows| ==> rows[r] == OneByOne(old(rows)[r], sets, types, |sets|)
    {
      hide IndexValid, Stored, Header, RowFits, Storable, RecordSize, Holds, SourceFits;
      for k := 0 to |sets|
        invariant Valid() && |rows| == |old(rows)| && |file.data| == |old(file.data)|
        invariant forall r :: 0 <= r < |rows| ==> rows[r] == OneByOne(old(rows)[r], sets, types, k)
      {
        WriteColumn(sets[k].column, sets[k].source);
      }
    }

    method NewRecordBuffer() returns (buffer: array<byte>)
      requires Shaped()
      ensures fresh(buffer) && buffer.Length == RecordSize(types)
    {
      buffer := new byte[RecordSize(types)](i => 0);
    }

    /** DELETE: a new index and a header that counts no records; the old bytes stay behind the header. */
    method Delete()
      requires Valid()
      modifies this, file, index
      ensures Valid() && RootKept()
      ensures rows == [] && IndexKeys() == multiset{}
      ensures file.data[HEADER_LENGTH..] == old(file.data)[HEADER_LENGTH..]
    {
      hide IndexValid, Header, IndexKeys, Storable, RowFits, RecordSize;
      ResetIndex();
      OffsetMonotonic(RecordSize(types), 0, |rows|);
      recordCount, rows := 0, [];
      Sync();
    }

    method ResetIndex()
      modifies index
      ensures IndexValid() && RootKept() && IndexKeys() == multiset{} && index.header.kvCount == 0
    {
      hide BTree.Flat, BTreeIndex.Represents, BTree.RootShape, BTree.OwnPages;
      index.Reset();
    }

    ghost function Current(): Contents
      reads this, index
    {
      Contents(rows, IndexKeys())
    }

    /** `run_single_node` for the three statements that change a table. */
    method Execute(s: Statement)
      requires Valid() && Legal(s, types)
      modifies Repr()
      ensures Valid() && RootKept()
      ensures old(AllFit(rows, types)) && Current() == Step(old(Current()), s, types, pk)
    {
      hide IndexValid, IndexKeys, Holds, RowFits, Storable, Keys, Updated;
      match s
      case InsertRows(input) => Insert(input);
      case UpdateColumn(i, source) => WriteColumn(i, source);
      case DeleteRows => Delete();
    }
  }

  /** `db_state_load`: the number of records a file says it holds. */
  method LoadState(file: File) returns (r: Result<nat>)
    modifies file`pos, file`offset
    ensures |file.data| < 16 ==> r == Err("State file is too small to contain a valid header")
    ensures |file.data| >= 16 && file.data[..8] != [0, 0, 0, 0x62, 0x64, 0x6d, 0x78, 0x73] ==>
              r == Err("Invalid state file magic number")
    ensures |file.data| >= 16 && file.data[..8] == [0, 0, 0, 0x62, 0x64, 0x6d, 0x78, 0x73] ==>
              r == Ok(FromLittleEndian(file.data[8..16]))
  {
    hide FromLittleEndian;
    file.SeekTo(0);
    var header := file.Read(HEADER_LENGTH);
    if |header| != HEADER_LENGTH {
      return Err("State file is too small to contain a valid header");
    }
    assert header[..8] == file.data[..8] && header[8..] == file.data[8..16];
    StateMagicIs(header[..8]);
    if FromLittleEndian(header[..8]) != STATE_MAGIC {
      return Err("Invalid state file magic number");
    }
    r := Ok(FromLittleEndian(header[8..]));
  }

  lemma StateMagicIs(s: seq<byte>)
    requires |s| == 8
    ensures FromLittleEndian(s) == STATE_MAGIC <==> s == [0, 0, 0, 0x62, 0x64, 0x6d, 0x78, 0x73]
  {
    hide FromLittleEndian;
    var magic: seq<byte> := [0, 0, 0, 0x62, 0x64, 0x6d, 0x78, 0x73];
    EightFromLittleEndian(magic);
    if FromLittleEndian(s) == STATE_MAGIC {
      SameLittleEndian(s, magic);
    }
  }

  /** A file written by the table loads again, with the number of records it had. */
  lemma HeaderUndo(data: seq<byte>, count: U64)
    requires |data| >= 16 && data[..16] == Header(count)
    ensures data[..8] == [0, 0, 0, 0x62, 0x64, 0x6d, 0x78, 0x73] && FromLittleEndian(data[8..16]) == count
  {
    hide LittleEndian, FromLittleEndian;
    LittleEndianUndo8(STATE_MAGIC);
    StateMagicIs(data[..8]);
    LittleEndianUndo8(count);
    assert data[..8] == Header(count)[..8] && data[8..16] == Header(count)[8..];
  }

  /** A stream of values: a constant repeats forever, a column ends after the last record. */
  class Stream {
    const table: Table
    const source: Source
    var current: nat

    constructor (table: Table, source: Source)
      ensures this.table == table && this.source == source && current == 0
    {
      this.table, this.source := table, source;
      current := 0;
    }

    method Next() returns (v: Option<Value>)
      requires table.Valid() && (source.Column? ==> source.index < |table.types|)
      modifies this, table.file`pos, table.file`offset
      ensures source.Constant? ==> v == Some(source.value)
      ensures source.Column? ==>
                if old(current) < |table.rows| then
                  v == Some(table.rows[old(current)][source.index]) && current == old(current) + 1
                else v == None && current == old(current)
    {
      match source
      case Constant(value) =>
        v := Some(value);
      case Column(index) =>
        if current >= table.recordCount {
          return None;
        }
        var cell := table.ReadCell(current, index);
        current := current + 1;
        v := Some(cell);
    }
  }

  /** The bytes of a cell as a value: the switch of `DBTableStream::next`. */
  method DecodeCell(bytes: seq<byte>, t: ColumnType) returns (v: Value)
    requires Creatable(t) && |bytes| == SizeOf(t)
    ensures v == FromCell(bytes, t)
  {
    match t {
      case INTEGER =>
        var n := ReadInteger(bytes);
        v := Int(n);
      case TEXT =>
        v := Text(bytes[0], bytes[1..]);
      case PNG =>
        v := Image(bytes);
    }
  }

  lemma CellStored(data: seq<byte>, types: seq<ColumnType>, rows: seq<Row>, r: nat, i: nat)
    requires Storable(types) && Stored(data, types, rows) && r < |rows| && i < |types|
    ensures Creatable(types[i]) && |rows[r]| == |types|
    ensures CellOffset(types, r, i) + SizeOf(types[i]) <= |data|
    ensures FromCell(data[CellOffset(types, r, i)..CellOffset(types, r, i) + SizeOf(types[i])], types[i]) == rows[r][i]
  {
    hide EndOf, NoHoles, FromCell, Creatable, Place, Cells, Cell, Fits, Offset;
    var p := Place(types, i);
    assert RecordAt(data, types, r, rows[r]);
    ColumnEnds(types, i);
    CellAt(rows[r], types, |types|, i);
    CellUndo(rows[r][i], types[i]);
    CellInside(types, r, i);
    SliceOfSlice(data, Offset(RecordSize(types), r), RecordSize(types), p.offset, p.size);
  }

  lemma SliceOfSlice(s: seq<byte>, a: nat, n: nat, o: nat, k: nat)
    requires a + n <= |s| && o + k <= n
    ensures s[a..a + n][o..o + k] == s[a + o..a + o + k]
  {
    var inner, direct := s[a..a + n][o..o + k], s[a + o..a + o + k];
    assert forall j :: 0 <= j < k ==> inner[j] == direct[j];
  }

  lemma SeekPosition(types: seq<ColumnType>, r: nat, i: nat)
    requires i < |types|
    ensures HEADER_LENGTH + r * RecordSize(types) + Place(types, i).offset == CellOffset(types, r, i)
    ensures Place(types, i).size == SizeOf(types[i])
  {
    hide EndOf, RecordSize;
    AfterHeader(types, r);
    Commutes(r, RecordSize(types));
  }

  lemma Commutes(a: nat, b: nat)
    ensures a * b == b * a
  {
  }

  lemma SourceValueFits(source: Source, row: Row, types: seq<ColumnType>, i: nat)
    requires RowFits(row, types) && SourceFits(source, types, i)
    ensures Fits(SourceValue(source, row), types[i])
  {
  }

  lemma CellInRecord(types: seq<ColumnType>, i: nat)
    requires i < |types|
    ensures Place(types, i).offset + SizeOf(types[i]) <= RecordSize(types)
  {
    CellsApart(types, i, |types|);
  }

  lemma KeptStep(input: seq<Row>, i: nat, buffered: nat)
    requires i < |input|
    ensures Kept(input[i..], buffered) == if buffered >= BUFFER_CAPACITY then Kept(input[i + 1..], 0)
                                          else [input[i]] + Kept(input[i + 1..], buffered + 1)
  {
    assert input[i..][1..] == input[i + 1..];
  }

  lemma NoneKept(buffered: nat)
    ensures Kept([], buffered) == []
  {
  }

  lemma RowsRegroup(a: seq<Row>, b: seq<Row>, c: seq<Row>, d: seq<Row>)
    ensures a + b + (c + d) == a + (b + c) + d
  {
  }

  lemma NoKeys(pk: nat)
    ensures Keys([], pk) == []
  {
  }

  lemma OneMoreKey(rows: seq<Row>, i: nat, pk: nat)
    requires i < |rows|
    ensures multiset(Keys(rows[..i + 1], pk)) == multiset(Keys(rows[..i], pk)) + multiset{KeyOf(rows[i], pk)}
  {
    assert Keys(rows[..i + 1], pk) == Keys(rows[..i], pk) + [KeyOf(rows[i], pk)];
  }

  lemma EmptyStored(types: seq<ColumnType>)
    requires types != []
    ensures Stored(Header(0), types, [])
  {
  }

  lemma AfterHeader(types: seq<ColumnType>, r: nat)
    requires types != []
    ensures Offset(RecordSize(types), r) >= HEADER_LENGTH
    ensures Offset(RecordSize(types), r) == HEADER_LENGTH + RecordSize(types) * r
  {
    OffsetMonotonic(RecordSize(types), 0, r);
  }

  lemma KeysConcat(a: seq<Row>, b: seq<Row>, pk: nat)
    ensures Keys(a + b, pk) == Keys(a, pk) + Keys(b, pk)
    ensures multiset(Keys(a + b, pk)) == multiset(Keys(a, pk)) + multiset(Keys(b, pk))
  {
  }
}
