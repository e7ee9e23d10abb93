/**
 Column layout of a record and the bytes of its cells: `src/Core/DBTable.cpp` (type_layout, compute_columns_layout,
 DBTableStream::next), `src/Core/DBConnection.cpp` (fill_column), `src/Core/DBRecord.cpp`, `src/Core/ColumnLayout.hpp`.
 */
module RecordLayout {
  import opened Arithmetic
  import opened Bytes

  datatype ColumnType = INTEGER | FLOAT | DOUBLE | TEXT | BOOLEAN | PNG

  const TEXT_SIZE: nat := 64 // one length byte and 63 bytes of text
  const PNG_SIZE: nat := 272 // width, height, format, chunk count and 64 chunk indices

  function SizeOf(t: ColumnType): (n: nat)
    ensures n > 0
  {
    match t
    case INTEGER => 8
    case FLOAT => 4
    case DOUBLE => 8
    case BOOLEAN => 1
    case TEXT => TEXT_SIZE
    case PNG => PNG_SIZE
  }

  function Alignment(t: ColumnType): (n: nat)
    ensures n == 1 || n == 4 || n == 8
  {
    match t
    case FLOAT => 4
    case BOOLEAN => 1
    case _ => 8
  }

  datatype ColumnLayout = ColumnLayout(index: nat, offset: nat, size: nat)

  /** Where a column goes whose predecessors end at `end`. */
  function Place(types: seq<ColumnType>, i: nat): ColumnLayout
    requires i < |types|
  {
    ColumnLayout(i, AlignUp(EndOf(types, i), Alignment(types[i])), SizeOf(types[i]))
  }

  /** The end of the first i columns. */
  function EndOf(types: seq<ColumnType>, i: nat): nat
    requires i <= |types|
  {
    if i == 0 then 0
    else AlignUp(EndOf(types, i - 1), Alignment(types[i - 1])) + SizeOf(types[i - 1])
  }

  method ComputeColumnsLayout(types: seq<ColumnType>) returns (layout: array<ColumnLayout>)
    ensures fresh(layout) && layout.Length == |types|
    ensures forall i :: 0 <= i < |types| ==> layout[i] == Place(types, i)
  {
    layout := new ColumnLayout[|types|](i => ColumnLayout(0, 0, 0));
    var offset := 0;
    for i := 0 to |types|
      invariant offset == EndOf(types, i)
      invariant forall j :: 0 <= j < i ==> layout[j] == Place(types, j)
    {
      offset := AlignUp(offset, Alignment(types[i]));
      layout[i] := ColumnLayout(i, offset, SizeOf(types[i]));
      offset := offset + SizeOf(types[i]);
    }
  }

  /** `table_record_size`: the end of the last column. */
  function RecordSize(types: seq<ColumnType>): nat
    requires types != []
  {
    EndOf(types, |types|)
  }

  /** Cells lie one after the other inside the record, each aligned for its type. */
  lemma {:induction false} CellsApart(types: seq<ColumnType>, i: nat, j: nat)
    requires i < j <= |types|
    ensures Place(types, i).offset + Place(types, i).size <= EndOf(types, j)
    ensures j < |types| ==> Place(types, i).offset + Place(types, i).size <= Place(types, j).offset
    ensures Place(types, i).offset % Alignment(types[i]) == 0
  {
    if i + 1 < j {
      CellsApart(types, i, j - 1);
    }
  }

  /** The check of `db_record_create`: every column starts where the one before it ends. */
  predicate NoHoles(types: seq<ColumnType>) {
    forall i :: 0 <= i < |types| ==> Place(types, i).offset == EndOf(types, i)
  }

  /** Types that CREATE TABLE can name. */
  predicate Creatable(t: ColumnType) {
    t == INTEGER || t == TEXT || t == PNG
  }

  /** A record can be created exactly when no column needs padding in front of it... */
  lemma NoHolesIff(types: seq<ColumnType>)
    ensures NoHoles(types) <==> forall i :: 0 <= i < |types| ==> EndOf(types, i) % Alignment(types[i]) == 0
  {
    assert forall i :: 0 <= i < |types| ==> (Place(types, i).offset == EndOf(types, i) <==>
             EndOf(types, i) % Alignment(types[i]) == 0);
  }

  /** ...which holds for every table that CREATE TABLE can make. */
  lemma CreatableHasNoHoles(types: seq<ColumnType>)
    requires forall i :: 0 <= i < |types| ==> Creatable(types[i])
    ensures NoHoles(types)
  {
    forall i | 0 <= i < |types|
      ensures EndOf(types, i) % 8 == 0
    {
      EndsAligned(types, i);
    }
    NoHolesIff(types);
  }

  lemma {:induction false} EndsAligned(types: seq<ColumnType>, i: nat)
    requires i <= |types| && forall j :: 0 <= j < |types| ==> Creatable(types[j])
    ensures EndOf(types, i) % 8 == 0
  {
    if i > 0 {
      EndsAligned(types, i - 1);
      var e := EndOf(types, i - 1);
      assert Creatable(types[i - 1]);
      assert EndOf(types, i) == AlignUp(e, 8) + SizeOf(types[i - 1]) == e + SizeOf(types[i - 1]);
      SumOfEights(e, types[i - 1]);
    }
  }

  lemma SumOfEights(e: nat, t: ColumnType)
    requires e % 8 == 0 && Creatable(t)
    ensures (e + SizeOf(t)) % 8 == 0
  {
  }

  /** In such a table an INTEGER takes 8 bytes, a TEXT 64 and a PNG 272, and nothing lies between them. */
  lemma EndNext(types: seq<ColumnType>, i: nat)
    requires 0 < i <= |types| && forall j :: 0 <= j < |types| ==> types[j] in [INTEGER, TEXT, PNG]
    ensures EndOf(types, 0) == 0
    ensures EndOf(types, i) - EndOf(types, i - 1) == match types[i - 1] case INTEGER => 8 case TEXT => 64 case _ => 272
  {
    EndsAligned(types, i - 1);
    assert Creatable(types[i - 1]) && Alignment(types[i - 1]) == 8;
    assert AlignUp(EndOf(types, i - 1), 8) == EndOf(types, i - 1);
  }

  // ---------- Cells ----------

  /** A value of a column that CREATE TABLE can make; a PNG is the stored handle. */
  datatype Value = Int(i: S64) | Text(count: byte, items: seq<byte>) | Image(handle: seq<byte>)

  predicate Fits(v: Value, t: ColumnType) {
    match v
    case Int(_) => t == INTEGER
    case Text(_, items) => t == TEXT && |items| == TEXT_SIZE - 1
    case Image(handle) => t == PNG && |handle| == PNG_SIZE
  }

  /** The bytes `fill_column` stores for v. */
  function Cell(v: Value, t: ColumnType): (s: seq<byte>)
    requires Fits(v, t)
    ensures |s| == SizeOf(t)
  {
    match v
    case Int(i) => BigEndian(ToU64(i), 8)
    case Text(count, items) => [count] + items
    case Image(handle) => handle
  }

  /** The value `DBTableStream::next` makes of a cell. */
  function FromCell(s: seq<byte>, t: ColumnType): Value
    requires Creatable(t) && |s| == SizeOf(t)
  {
    match t
    case INTEGER =>
      FromBigEndianBound(s);
      Pow256Of8();
      Int(ToS64(FromBigEndian(s)))
    case TEXT => Text(s[0], s[1..])
    case PNG => Image(s)
  }

  /** Reading a cell gives back the value written to it. */
  lemma CellUndo(v: Value, t: ColumnType)
    requires Fits(v, t)
    ensures FromCell(Cell(v, t), t) == v
  {
    if v.Int? {
      Pow256Of8();
      BigEndianUndo(ToU64(v.i), 8);
      CastsUndo(v.i, 0);
    }
  }

  /** What stands in a cell: the bytes of a number, highest first, a length and characters, or a handle. */
  lemma CellBytes(v: Value, t: ColumnType)
    requires Fits(v, t)
    ensures var s := Cell(v, t);
            match v
            case Int(i) =>
              |s| == 8 && Weighted(s[7], s[6], s[5], s[4], s[3], s[2], s[1], s[0]) ==
                          if i < 0 then i + 0x1_0000_0000_0000_0000 else i
            case Text(count, items) => |s| == 64 && s[0] == count && forall k :: 0 <= k < 63 ==> s[1 + k] == items[k]
            case Image(handle) => |s| == 272 && s == handle
  {
    if v.Int? {
      hide BigEndian, FromBigEndian;
      Pow256Of8();
      BigEndianUndo(ToU64(v.i), 8);
      EightFromBigEndian(BigEndian(ToU64(v.i), 8));
    }
  }

  /** `u >> 8 * k` */
  function ShiftRight(u: nat, k: nat): nat {
    QuotientNonNegative(u, Pow256(k));
    u / Pow256(k)
  }

  lemma BigEndianStep(u: nat, o: nat)
    requires o < 8
    ensures BigEndian(ShiftRight(u, 7 - o), o + 1) ==
            BigEndian(ShiftRight(u, 8 - o), o) + [ShiftRight(u, 7 - o) % 256]
  {
    DivDiv(u, Pow256(7 - o));
  }

  lemma BigEndianEnds(u: U64)
    ensures ShiftRight(u, 0) == u && BigEndian(ShiftRight(u, 8), 0) == []
  {
  }

  /** The byte loop of `fill_column`: one shifted byte after the other, from the highest. */
  method FillInteger(buffer: array<byte>, offset: nat, u: U64)
    requires offset + 8 <= buffer.Length
    modifies buffer
    ensures buffer[..] == old(buffer[..offset]) + BigEndian(u, 8) + old(buffer[offset + 8..])
  {
    hide ShiftRight, BigEndian;
    BigEndianEnds(u);
    for o := 0 to 8
      invariant forall j :: 0 <= j < buffer.Length && (j < offset || j >= offset + o) ==> buffer[j] == old(buffer[j])
      invariant buffer[offset..offset + o] == BigEndian(ShiftRight(u, 8 - o), o)
    {
      ghost var before := buffer[offset..offset + o];
      buffer[offset + o] := ShiftRight(u, 7 - o) % 256;
      BigEndianStep(u, o);
      assert buffer[offset..offset + o + 1] == before + [ShiftRight(u, 7 - o) % 256];
    }
  }

  /** The decoding loop of `DBTableStream::next`. */
  method ReadInteger(buffer: seq<byte>) returns (i: S64)
    requires |buffer| == 8
    ensures Int(i) == FromCell(buffer, INTEGER)
  {
    var u: nat := 0;
    Pow256Of8();
    FromBigEndianBound(buffer);
    for j := 0 to 7
      invariant u == FromBigEndian(buffer[..j]) * 256
    {
      assert buffer[..j + 1][..j] == buffer[..j];
      u := (u + buffer[j]) * 256; // the low byte is zero, so `|` adds
    }
    assert buffer[..8] == buffer;
    u := u + buffer[7];
    i := ToS64(u);
  }
}
