/**
 The record file of a table and its index: INSERT with its 32-record buffer, streaming reads, UPDATE in place and
 DELETE, from `src/Core/DBConnection.cpp`, `src/Core/DBTable.cpp` and `src/Core/state.cpp`.
 */
module RecordStore {
  import opened Bytes
  import opened RecordLayout

  type Row = seq<Value>

  const HEADER_LENGTH: nat := 16
  const BUFFER_CAPACITY: nat := 32

  /** The characters `sxmdb` in the five high bytes. */
  const STATE_MAGIC: U64 := 0x73786D6462000000

  predicate RowFits(row: Row, types: seq<ColumnType>) {
    |row| == |types| && forall i :: 0 <= i < |row| ==> Fits(row[i], types[i])
  }

  /** Tables on which the executor can create a record. */
  ghost predicate Storable(types: seq<ColumnType>) {
    && types != [] && NoHoles(types)
    && forall i :: 0 <= i < |types| ==> Creatable(types[i])
  }

  // ---------- One record ----------

  /** The first n cells of a record. */
  ghost function Cells(row: Row, types: seq<ColumnType>, n: nat): seq<byte>
    requires RowFits(row, types) && n <= |types|
  {
    if n == 0 then [] else Cells(row, types, n - 1) + Cell(row[n - 1], types[n - 1])
  }

  ghost function Record(row: Row, types: seq<ColumnType>): seq<byte>
    requires RowFits(row, types)
  {
    Cells(row, types, |types|)
  }

  /** Without holes every column starts where the one before it ends. */
  lemma ColumnEnds(types: seq<ColumnType>, i: nat)
    requires NoHoles(types) && i < |types|
    ensures Place(types, i).offset == EndOf(types, i) && Place(types, i).size == SizeOf(types[i])
    ensures EndOf(types, i + 1) == EndOf(types, i) + SizeOf(types[i])
  {
    assert Place(types, i).offset == EndOf(types, i);
  }

  lemma {:induction false} CellsLength(row: Row, types: seq<ColumnType>, n: nat)
    requires RowFits(row, types) && NoHoles(types) && n <= |types|
    ensures |Cells(row, types, n)| == EndOf(types, n)
  {
    hide NoHoles;
    if n > 0 {
      CellsLength(row, types, n - 1);
      ColumnEnds(types, n - 1);
    }
  }

  /** The record of n cells, split around cell i, with the old value and with a new one. */
  lemma {:induction false} CellsSplit(row: Row, types: seq<ColumnType>, n: nat, i: nat, v: Value)
      returns (front: seq<byte>, back: seq<byte>)
    requires RowFits(row, types) && NoHoles(types) && i < n <= |types| && Fits(v, types[i])
    ensures |front| == EndOf(types, i)
    ensures Cells(row, types, n) == front + Cell(row[i], types[i]) + back
    ensures Cells(row[i := v], types, n) == front + Cell(v, types[i]) + back
  {
    hide NoHoles, EndOf, Cell, SizeOf, Fits;
    if i + 1 < n {
      var middle;
      front, middle := CellsSplit(row, types, n - 1, i, v);
      var last := Cell(row[n - 1], types[n - 1]);
      back := middle + last;
      Regroup(front, Cell(row[i], types[i]), middle, last);
      Regroup(front, Cell(v, types[i]), middle, last);
    } else {
      CellsLength(row, types, i);
      front, back := Cells(row, types, i), [];
      SameCells(row, row[i := v], types, i);
    }
  }

  lemma Regroup(a: seq<byte>, b: seq<byte>, c: seq<byte>, d: seq<byte>)
    ensures (a + b + c) + d == a + b + (c + d)
  {
  }

  /** Cell i of a record lies where the layout says. */
  lemma CellAt(row: Row, types: seq<ColumnType>, n: nat, i: nat)
    requires RowFits(row, types) && NoHoles(types) && i < n <= |types|
    ensures var p := Place(types, i);
            && p.offset + p.size <= EndOf(types, n) == |Cells(row, types, n)|
            && Cells(row, types, n)[p.offset..p.offset + p.size] == Cell(row[i], types[i])
  {
    hide NoHoles, EndOf, Cell, SizeOf, Cells, Place;
    ColumnEnds(types, i);
    CellsLength(row, types, n);
    var front, back := CellsSplit(row, types, n, i, row[i]);
  }

  /** Overwriting cell i of a record gives the record of the changed row. */
  lemma CellOverwrite(row: Row, types: seq<ColumnType>, n: nat, i: nat, v: Value)
    requires RowFits(row, types) && NoHoles(types) && i < n <= |types| && Fits(v, types[i])
    ensures var p := Place(types, i);
            && p.offset + p.size <= EndOf(types, n)
            && |Cells(row, types, n)| == EndOf(types, n)
            && Cells(row[i := v], types, n) ==
               Cells(row, types, n)[..p.offset] + Cell(v, types[i]) + Cells(row, types, n)[p.offset + p.size..]
  {
    hide NoHoles, EndOf, Cell, SizeOf, Cells, Place;
    ColumnEnds(types, i);
    CellsLength(row, types, n);
    var front, back := CellsSplit(row, types, n, i, v);
    var cells := Cells(row, types, n);
    assert cells[..|front|] == front && cells[|front| + SizeOf(types[i])..] == back;
  }

  lemma {:induction false} SameCells(row: Row, row': Row, types: seq<ColumnType>, n: nat)
    requires RowFits(row, types) && RowFits(row', types) && n <= |types|
    requires forall i :: 0 <= i < n ==> row[i] == row'[i]
    ensures Cells(row, types, n) == Cells(row', types, n)
  {
    if n > 0 {
      SameCells(row, row', types, n - 1);
    }
  }

  // ---------- The file ----------

  function Header(recordCount: nat): (s: seq<byte>)
    ensures |s| == HEADER_LENGTH
  {
    LittleEndian(STATE_MAGIC, 8) + LittleEndian(recordCount, 8)
  }

  /** Where record r starts. */
  function Offset(size: nat, r: nat): nat {
    HEADER_LENGTH + size * r
  }

  lemma OffsetStep(size: nat, r: nat)
    ensures Offset(size, r + 1) == Offset(size, r) + size
  {
  }

  lemma {:induction false} OffsetMonotonic(size: nat, a: nat, b: nat)
    requires a <= b
    ensures Offset(size, a) <= Offset(size, b)
    decreases b - a
  {
    if a < b {
      OffsetStep(size, a);
      OffsetMonotonic(size, a + 1, b);
    }
  }

  /** The records of the rows lie one after the other behind the header; what follows them does not matter. */
  ghost predicate Stored(data: seq<byte>, types: seq<ColumnType>, rows: seq<Row>)
    requires types != []
  {
    var size := RecordSize(types);
    && |data| >= Offset(size, |rows|)
    && (forall r :: 0 <= r < |rows| ==> RowFits(rows[r], types))
    && (forall r :: 0 <= r < |rows| ==> RecordAt(data, types, r, rows[r]))
  }

  ghost predicate RecordAt(data: seq<byte>, types: seq<ColumnType>, r: nat, row: Row)
    requires types != [] && RowFits(row, types)
  {
    var start := Offset(RecordSize(types), r);
    start + RecordSize(types) <= |data| && data[start..start + RecordSize(types)] == Record(row, types)
  }

  /** Appending a record behind the last one stores one more row. */
  lemma AppendStores(data: seq<byte>, types: seq<ColumnType>, rows: seq<Row>, row: Row)
    requires Storable(types) && Stored(data, types, rows) && RowFits(row, types)
    ensures Stored(WriteAt(data, Offset(RecordSize(types), |rows|), Record(row, types)), types, rows + [row])
  {
    hide RecordSize, NoHoles, RowFits, Record, Offset;
    var size, n := RecordSize(types), |rows|;
    var data', rows' := WriteAt(data, Offset(size, n), Record(row, types)), rows + [row];
    RecordLength(row, types);
    OffsetStep(size, n);
    forall r | 0 <= r < |rows'|
      ensures RowFits(rows'[r], types) && RecordAt(data', types, r, rows'[r])
    {
      if r < n {
        assert RecordAt(data, types, r, rows[r]);
        RecordsApart(size, r, n);
        OffsetMonotonic(size, n, n + 1);
        WriteElsewhere(data, Offset(size, n), Record(row, types), Offset(size, r), Offset(size, r) + size);
      }
    }
  }

  lemma RecordLength(row: Row, types: seq<ColumnType>)
    requires RowFits(row, types) && Storable(types)
    ensures |Record(row, types)| == RecordSize(types)
  {
    CellsLength(row, types, |types|);
  }

  lemma HeaderKeepsRows(data: seq<byte>, types: seq<ColumnType>, rows: seq<Row>, bytes: seq<byte>)
    requires types != [] && Stored(data, types, rows) && |bytes| == HEADER_LENGTH
    ensures Stored(WriteAt(data, 0, bytes), types, rows) && WriteAt(data, 0, bytes)[..HEADER_LENGTH] == bytes
    ensures |data| >= HEADER_LENGTH && WriteAt(data, 0, bytes)[HEADER_LENGTH..] == data[HEADER_LENGTH..]
  {
    var size := RecordSize(types);
    OffsetMonotonic(size, 0, |rows|);
    forall r | 0 <= r < |rows|
      ensures RecordAt(WriteAt(data, 0, bytes), types, r, rows[r])
    {
      OffsetMonotonic(size, 0, r);
      assert RecordAt(data, types, r, rows[r]);
      WriteElsewhere(data, 0, bytes, Offset(size, r), Offset(size, r) + size);
    }
  }

  /** Where column i of record r starts. */
  function CellOffset(types: seq<ColumnType>, r: nat, i: nat): nat
    requires i < |types|
  {
    Offset(RecordSize(types), r) + Place(types, i).offset
  }

  /** Cell i of record r lies behind 16 bytes, r records and the cells before it. */
  lemma CellPlace(types: seq<ColumnType>, r: nat, i: nat)
    requires i < |types| && forall j :: 0 <= j < |types| ==> types[j] in [INTEGER, TEXT, PNG]
    ensures CellOffset(types, r, i) == 16 + EndOf(types, |types|) * r + EndOf(types, i)
  {
    hide EndOf, Place;
    CreatableHasNoHoles(types);
  }

  lemma CellInside(types: seq<ColumnType>, r: nat, i: nat)
    requires i < |types|
    ensures Offset(RecordSize(types), r) <= CellOffset(types, r, i)
    ensures CellOffset(types, r, i) + SizeOf(types[i]) <= Offset(RecordSize(types), r + 1)
  {
    CellsApart(types, i, |types|);
    OffsetStep(RecordSize(types), r);
  }

  /** The records do not overlap. */
  lemma RecordsApart(size: nat, q: nat, r: nat)
    requires q != r
    ensures Offset(size, q) + size <= Offset(size, r) || Offset(size, r + 1) <= Offset(size, q)
  {
    if q < r {
      OffsetStep(size, q);
      OffsetMonotonic(size, q + 1, r);
    } else {
      OffsetMonotonic(size, r + 1, q);
    }
  }

  lemma CellWriteOther(data: seq<byte>, types: seq<ColumnType>, r: nat, i: nat, cell: seq<byte>, q: nat, row: Row)
    requires i < |types| && |cell| == SizeOf(types[i]) && q != r
    requires RowFits(row, types) && RecordAt(data, types, q, row)
    ensures RecordAt(WriteAt(data, CellOffset(types, r, i), cell), types, q, row)
  {
    hide CellOffset, SizeOf, Record, RecordSize, Place, RowFits, Offset;
    var size := RecordSize(types);
    CellInside(types, r, i);
    RecordsApart(size, q, r);
    WriteElsewhere(data, CellOffset(types, r, i), cell, Offset(size, q), Offset(size, q) + size);
  }

  lemma CellWriteSame(data: seq<byte>, types: seq<ColumnType>, r: nat, i: nat, v: Value, row: Row)
    requires i < |types| && NoHoles(types) && Fits(v, types[i])
    requires RowFits(row, types) && RecordAt(data, types, r, row)
    ensures RowFits(row[i := v], types)
    ensures RecordAt(WriteAt(data, CellOffset(types, r, i), Cell(v, types[i])), types, r, row[i := v])
  {
    hide NoHoles, EndOf, Cell, SizeOf, Cells;
    var size, o := RecordSize(types), Place(types, i).offset;
    ColumnEnds(types, i);
    CellOverwrite(row, types, |types|, i, v);
    OneRecordChanged(data, WriteAt(data, CellOffset(types, r, i), Cell(v, types[i])), Offset(size, r), size, o,
                     Cell(v, types[i]));
  }

  /** Writing one cell in place changes that cell of that row and nothing else. */
  lemma CellWriteStores(data: seq<byte>, types: seq<ColumnType>, rows: seq<Row>, r: nat, i: nat, v: Value)
    requires Storable(types) && Stored(data, types, rows) && r < |rows| && i < |types| && Fits(v, types[i])
    ensures var data' := WriteAt(data, CellOffset(types, r, i), Cell(v, types[i]));
            && Stored(data', types, rows[r := rows[r][i := v]])
            && |data'| == |data| >= HEADER_LENGTH && data'[..HEADER_LENGTH] == data[..HEADER_LENGTH]
  {
    hide RecordAt, CellOffset, Place, RecordSize, NoHoles, Cell, Fits, SizeOf;
    var size, cell := RecordSize(types), Cell(v, types[i]);
    var at := CellOffset(types, r, i);
    var data', rows' := WriteAt(data, at, cell), rows[r := rows[r][i := v]];
    CellWriteSame(data, types, r, i, v, rows[r]);
    CellInside(types, r, i);
    OffsetMonotonic(size, r + 1, |rows|);
    OffsetMonotonic(size, 0, r);
    forall q | 0 <= q < |rows'|
      ensures RowFits(rows'[q], types) && RecordAt(data', types, q, rows'[q])
    {
      if q == r {
        assert rows'[q] == rows[r][i := v];
      } else {
        assert rows'[q] == rows[q];
        CellWriteOther(data, types, r, i, cell, q, rows[q]);
      }
    }
    WriteElsewhere(data, at, cell, 0, HEADER_LENGTH);
  }

  lemma OneRecordChanged(data: seq<byte>, data': seq<byte>, start: nat, size: nat, o: nat, cell: seq<byte>)
    requires start + size <= |data| && o + |cell| <= size && data' == WriteAt(data, start + o, cell)
    ensures |data'| == |data|
    ensures var rec := data[start..start + size];
            data'[start..start + size] == rec[..o] + cell + rec[o + |cell|..]
  {
    var want := data[start..start + size][..o] + cell + data[start..start + size][o + |cell|..];
    forall j | 0 <= j < size
      ensures data'[start + j] == want[j]
    {
      if o <= j < o + |cell| {
        assert data'[start + o..start + o + |cell|][j - o] == cell[j - o];
      }
    }
  }

  // ---------- Records in memory ----------

  /** A record ready to be written, with the key it gets in the index. */
  datatype DBRecord = DBRecord(bytes: seq<byte>, primaryKey: U64)

  /** The index key of a row: its primary-key cell if that is an INTEGER, otherwise zero. */
  function KeyOf(row: Row, pk: nat): U64 {
    if pk < |row| && row[pk].Int? then ToU64(row[pk].i) else 0
  }

  /** Integers that differ have keys that differ, in the same order, but for negative ones, which come behind all others. */
  lemma KeyOrder(a: Row, b: Row, pk: nat)
    requires pk < |a| && pk < |b| && a[pk].Int? && b[pk].Int?
    ensures KeyOf(a, pk) == KeyOf(b, pk) <==> a[pk].i == b[pk].i
    ensures KeyOf(a, pk) < KeyOf(b, pk) <==> if (a[pk].i < 0) == (b[pk].i < 0) then a[pk].i < b[pk].i else b[pk].i < 0
  {
    var i, j := a[pk].i, b[pk].i;
    assert KeyOf(a, pk) == (if i < 0 then i + TWO_64 else i) && KeyOf(b, pk) == (if j < 0 then j + TWO_64 else j);
  }

  ghost function RecordOf(row: Row, types: seq<ColumnType>, pk: nat): DBRecord
    requires RowFits(row, types) && pk < |types|
  {
    DBRecord(Record(row, types), KeyOf(row, pk))
  }

  /** `fill_column` for one value. */
  method FillColumn(buffer: array<byte>, types: seq<ColumnType>, i: nat, v: Value)
    requires NoHoles(types) && i < |types| && Fits(v, types[i]) && Place(types, i).offset + SizeOf(types[i]) <= buffer.Length
    modifies buffer
    ensures var o := Place(types, i).offset;
            buffer[..] == old(buffer[..o]) + Cell(v, types[i]) + old(buffer[o + SizeOf(types[i])..])
  {
    var o := Place(types, i).offset;
    match v
    case Int(n) =>
      FillInteger(buffer, o, ToU64(n));
    case Text(count, items) =>
      CopyBytes(buffer, o, [count] + items);
    case Image(handle) =>
      CopyBytes(buffer, o, handle);
  }

  /** `memcpy` into a buffer. */
  method CopyBytes(buffer: array<byte>, o: nat, bytes: seq<byte>)
    requires o + |bytes| <= buffer.Length
    modifies buffer
    ensures buffer[..] == old(buffer[..o]) + bytes + old(buffer[o + |bytes|..])
  {
    forall j | 0 <= j < |bytes| {
      buffer[o + j] := bytes[j];
    }
  }

  /** Makes the record of a row: the cells are filled in one by one, by position. */
  method BuildRecord(row: Row, types: seq<ColumnType>, pk: nat) returns (record: DBRecord)
    requires Storable(types) && RowFits(row, types) && pk < |types|
    ensures record == RecordOf(row, types, pk)
  {
    hide EndOf, NoHoles, Cell, Fits;
    var buffer := new byte[RecordSize(types)];
    var key: U64 := 0;
    EndsGrow(types, 0, |types|);
    for i := 0 to |row|
      invariant EndOf(types, i) <= buffer.Length && buffer[..EndOf(types, i)] == Cells(row, types, i)
      invariant key == if pk < i then KeyOf(row, pk) else 0
    {
      ColumnEnds(types, i);
      EndsGrow(types, i + 1, |types|);
      FillColumn(buffer, types, i, row[i]);
      if i == pk && row[i].Int? {
        key := ToU64(row[i].i);
      }
      CellsLength(row, types, i);
      assert buffer[..EndOf(types, i + 1)] == Cells(row, types, i) + Cell(row[i], types[i]);
    }
    assert buffer[..] == buffer[..EndOf(types, |types|)];
    record := DBRecord(buffer[..], key);
  }

  lemma {:induction false} EndsGrow(types: seq<ColumnType>, i: nat, j: nat)
    requires i <= j <= |types|
    ensures EndOf(types, 0) == 0 && EndOf(types, i) <= EndOf(types, j)
  {
    if i < j {
      EndsGrow(types, i, j - 1);
    }
  }
}
