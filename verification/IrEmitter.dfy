/**
 The emitter of `src/SQL/ir.hpp` and the emit_* macros of `src/SQL/ir.cpp`: instructions are four numbers, and their
 operands are indices into pools of strings, integers and schemas.
 */
module IrEmitter {
  import opened Lowering
  import opened Wrappers

  datatype Opcode =
    | OP_EQ | OP_LT | OP_GT | OP_FETCH_COLUMN | OP_FETCH_TABLE | OP_CALL | OP_EMIT_COLUMN | OP_EMIT_QUERY | OP_ARG
    | OP_INSERT_COLUMN | OP_INSERT_ROW | OP_COMMIT_INSERT | OP_UPDATE_COLUMN | OP_COMMIT_UPDATE | OP_DELETE_TABLE
    | OP_CONST_INT | OP_CONST_STRING | OP_CONST_TRUE | OP_CONST_FALSE | OP_CONST_NULL

  datatype Kind = TextKind | NumberKind | SchemaKind | PlainKind
  datatype Operand = Text(text: string) | Number(number: int) | SchemaRef(schema: Schema) | Plain(id: nat)

  /** The table of contracts: whether an instruction names a variable, and the kinds of its operands. */
  function HasVariable(op: Opcode): bool {
    op in {OP_EQ, OP_LT, OP_GT, OP_FETCH_COLUMN, OP_FETCH_TABLE, OP_CALL, OP_EMIT_QUERY, OP_CONST_INT, OP_CONST_STRING,
           OP_CONST_TRUE, OP_CONST_FALSE, OP_CONST_NULL}
  }

  function Kinds(op: Opcode): (kinds: seq<Kind>)
    ensures |kinds| + (if HasVariable(op) then 1 else 0) <= 3
  {
    match op
    case OP_EQ => [PlainKind, PlainKind]
    case OP_LT => [PlainKind, PlainKind]
    case OP_GT => [PlainKind, PlainKind]
    case OP_FETCH_COLUMN => [PlainKind, TextKind]
    case OP_FETCH_TABLE => [TextKind, SchemaKind]
    case OP_CALL => [TextKind, NumberKind]
    case OP_EMIT_COLUMN => [PlainKind, PlainKind, TextKind]
    case OP_EMIT_QUERY => [PlainKind]
    case OP_ARG => [PlainKind]
    case OP_INSERT_COLUMN => [TextKind, PlainKind]
    case OP_INSERT_ROW => []
    case OP_COMMIT_INSERT => [PlainKind]
    case OP_UPDATE_COLUMN => [PlainKind, PlainKind, TextKind]
    case OP_COMMIT_UPDATE => []
    case OP_DELETE_TABLE => [PlainKind]
    case OP_CONST_INT => [NumberKind]
    case OP_CONST_STRING => [TextKind]
    case OP_CONST_TRUE => []
    case OP_CONST_FALSE => []
    case OP_CONST_NULL => []
  }

  function OpcodeOf(i: Instr): Opcode {
    match i
    case ConstInt(_) => OP_CONST_INT
    case ConstString(_) => OP_CONST_STRING
    case ConstTrue => OP_CONST_TRUE
    case ConstFalse => OP_CONST_FALSE
    case ConstNull => OP_CONST_NULL
    case FetchTable(_, _) => OP_FETCH_TABLE
    case FetchColumn(_, _) => OP_FETCH_COLUMN
    case Compare(op, _, _) => (match op case EQ => OP_EQ case LT => OP_LT case GT => OP_GT)
    case Arg(_) => OP_ARG
    case Call(_, _) => OP_CALL
    case EmitColumn(_, _, _) => OP_EMIT_COLUMN
    case EmitQuery(_) => OP_EMIT_QUERY
    case InsertColumn(_, _) => OP_INSERT_COLUMN
    case InsertRow => OP_INSERT_ROW
    case CommitInsert(_) => OP_COMMIT_INSERT
    case UpdateColumn(_, _, _) => OP_UPDATE_COLUMN
    case CommitUpdate => OP_COMMIT_UPDATE
    case DeleteTable(_) => OP_DELETE_TABLE
  }

  function Operands(i: Instr): seq<Operand> {
    match i
    case ConstInt(n) => [Number(n)]
    case ConstString(s) => [Text(s)]
    case FetchTable(name, schema) => [Text(name), SchemaRef(schema)]
    case FetchColumn(t, name) => [Plain(t), Text(name)]
    case Compare(_, l, r) => [Plain(l), Plain(r)]
    case Arg(v) => [Plain(v)]
    case Call(fn, count) => [Text(fn), Number(count)]
    case EmitColumn(t, v, name) => [Plain(t), Plain(v), Text(name)]
    case EmitQuery(count) => [Plain(count)]
    case InsertColumn(name, v) => [Text(name), Plain(v)]
    case CommitInsert(t) => [Plain(t)]
    case UpdateColumn(t, v, name) => [Plain(t), Plain(v), Text(name)]
    case DeleteTable(t) => [Plain(t)]
    case _ => []
  }

  function KindOf(o: Operand): Kind {
    match o
    case Text(_) => TextKind
    case Number(_) => NumberKind
    case SchemaRef(_) => SchemaKind
    case Plain(_) => PlainKind
  }

  predicate Fitting(operands: seq<Operand>, kinds: seq<Kind>) {
    |operands| == |kinds| && forall k :: 0 <= k < |kinds| ==> KindOf(operands[k]) == kinds[k]
  }

  /** Opcode and operands tell instructions apart. */
  lemma InstrsDiffer(i: Instr, j: Instr)
    ensures Fitting(Operands(i), Kinds(OpcodeOf(i)))
    ensures OpcodeOf(i) == OpcodeOf(j) && Operands(i) == Operands(j) ==> i == j
  {
    var a, b := Operands(i), Operands(j);
    if OpcodeOf(i) == OpcodeOf(j) && a == b {
      assert |a| > 0 ==> a[0] == b[0];
      assert |a| > 1 ==> a[1] == b[1];
      assert |a| > 2 ==> a[2] == b[2];
    }
  }

  datatype RawInstr = RawInstr(op: Opcode, operand1: nat, operand2: nat, operand3: nat)

  function Slot(r: RawInstr, k: nat): nat {
    if k == 0 then r.operand1 else if k == 1 then r.operand2 else r.operand3
  }

  datatype Pools = Pools(strings: seq<string>, integers: seq<int>, schemas: seq<Schema>)

  predicate Grows(p: Pools, p': Pools) {
    p.strings <= p'.strings && p.integers <= p'.integers && p.schemas <= p'.schemas
  }

  /** `IRContractGetter::get` */
  function Get(p: Pools, kind: Kind, x: nat): Option<Operand> {
    match kind
    case TextKind => if x < |p.strings| then Some(Text(p.strings[x])) else None
    case NumberKind => if x < |p.integers| then Some(Number(p.integers[x])) else None
    case SchemaKind => if x < |p.schemas| then Some(SchemaRef(p.schemas[x])) else None
    case PlainKind => Some(Plain(x))
  }

  /** The instruction r was made for i: its operands are found in the pools. */
  ghost predicate Encodes(p: Pools, r: RawInstr, i: Instr) {
    var shift := if HasVariable(r.op) then 1 else 0;
    && r.op == OpcodeOf(i)
    && (HasVariable(r.op) ==> r.operand1 < |p.strings|)
    && forall k {:trigger Operands(i)[k]} :: 0 <= k < |Operands(i)| ==>
         Get(p, Kinds(r.op)[k], Slot(r, k + shift)) == Some(Operands(i)[k])
  }

  lemma StillEncodes(p: Pools, p': Pools, r: RawInstr, i: Instr)
    requires Encodes(p, r, i) && Grows(p, p')
    ensures Encodes(p', r, i)
  {
    var os := Operands(i);
    var shift := if HasVariable(r.op) then 1 else 0;
    InstrsDiffer(i, i);
    forall k {:trigger os[k]} | 0 <= k < |os|
      ensures Get(p', Kinds(r.op)[k], Slot(r, k + shift)) == Some(os[k])
    {
      assert Get(p, Kinds(r.op)[k], Slot(r, k + shift)) == Some(os[k]);
    }
  }

  class Emitter {
    var tempsCount: nat
    var instructions: seq<RawInstr>
    var strings: seq<string>
    var integers: seq<int>
    var schemas: seq<Schema>
    ghost var code: Code

    ghost function AllPools(): Pools
      reads this
    {
      Pools(strings, integers, schemas)
    }

    ghost predicate Valid()
      reads this
    {
      |code| == |instructions| && forall ip :: 0 <= ip < |code| ==> Encodes(AllPools(), instructions[ip], code[ip])
    }

    constructor ()
      ensures Valid() && code == []
    {
      tempsCount, instructions, strings, integers, schemas, code := 0, [], [], [], [], [];
    }

    /** `gen_temp`; the text of the name does not matter. */
    method GenTemp(name: string) returns (index: nat)
      modifies this`tempsCount, this`strings
      ensures strings == old(strings) + [name] && index == |old(strings)|
    {
      tempsCount := tempsCount + 1;
      strings := strings + [name];
      index := |strings| - 1;
    }

    /** `IRContractAdder::add` */
    method Add(o: Operand) returns (x: nat)
      modifies this`strings, this`integers, this`schemas
      ensures Grows(old(AllPools()), AllPools()) && Get(AllPools(), KindOf(o), x) == Some(o)
    {
      match o
      case Text(s) =>
        strings := strings + [s];
        x := |strings| - 1;
      case Number(n) =>
        integers := integers + [n];
        x := |integers| - 1;
      case SchemaRef(s) =>
        schemas := schemas + [s];
        x := |schemas| - 1;
      case Plain(id) => x := id;
    }

    /** The emit_* function of an instruction; operands that it does not have keep what was in memory. */
    method Emit(i: Instr, temp: string, junk: RawInstr) returns (id: nat)
      requires Valid()
      modifies this
      ensures Valid() && code == old(code) + [i] && id == |old(code)|
    {
      hide Encodes, Get;
      InstrsDiffer(i, i);
      var slots: seq<nat> := [];
      var op, os := OpcodeOf(i), Operands(i);
      ghost var shift := 0;
      if HasVariable(op) {
        var t := GenTemp(temp);
        slots := [t];
        shift := 1;
      }
      for k := 0 to |os|
        invariant Grows(old(AllPools()), AllPools()) && |slots| == k + shift
        invariant instructions == old(instructions) && code == old(code)
        invariant shift == 1 ==> slots[0] < |strings|
        invariant forall j {:trigger os[j]} :: 0 <= j < k ==>
                    Get(AllPools(), Kinds(op)[j], slots[j + shift]) == Some(os[j])
      {
        ghost var p := AllPools();
        var x := Add(os[k]);
        forall j {:trigger os[j]} | 0 <= j < k
          ensures Get(AllPools(), Kinds(op)[j], slots[j + shift]) == Some(os[j])
        {
          GetStays(p, AllPools(), Kinds(op)[j], slots[j + shift]);
        }
        slots := slots + [x];
      }
      id := |instructions|;
      var r := RawInstr(op, if |slots| > 0 then slots[0] else junk.operand1,
                        if |slots| > 1 then slots[1] else junk.operand2, if |slots| > 2 then slots[2] else junk.operand3);
      EncodedBy(AllPools(), r, i, slots, shift);
      instructions := instructions + [r];
      forall ip | 0 <= ip < |code|
        ensures Encodes(AllPools(), instructions[ip], code[ip])
      {
        assert instructions[ip] == old(instructions)[ip];
        StillEncodes(old(AllPools()), AllPools(), instructions[ip], code[ip]);
      }
      code := code + [i];
    }

    /** The operands_of_* function of an instruction gives what its emit_* function was given. */
    method OperandsOf(ip: nat) returns (op: Opcode, os: seq<Operand>)
      requires Valid() && ip < |code|
      ensures op == OpcodeOf(code[ip]) && os == Operands(code[ip])
    {
      var r := instructions[ip];
      ghost var i := code[ip];
      InstrsDiffer(i, i);
      assert Encodes(AllPools(), r, i);
      op, os := r.op, [];
      var shift := if HasVariable(op) then 1 else 0;
      var kinds := Kinds(op);
      for k := 0 to |kinds|
        invariant os == Operands(i)[..k]
      {
        assert Get(AllPools(), kinds[k], Slot(r, k + shift)) == Some(Operands(i)[k]);
        var o := Get(Pools(strings, integers, schemas), kinds[k], Slot(r, k + shift));
        os := os + [o.value];
      }
    }

    /** `get_table_schema_by_id` for instructions other than EmitQuery. */
    method TableSchemaById(id: nat) returns (s: Option<Schema>)
      requires Valid() && id < |code| && !code[id].EmitQuery?
      ensures s == TableSchema(code, id)
    {
      assert Encodes(AllPools(), instructions[id], code[id]);
      InstrsDiffer(code[id], code[id]);
      if instructions[id].op == OP_FETCH_TABLE {
        assert Get(AllPools(), SchemaKind, instructions[id].operand3) == Some(Operands(code[id])[1]);
        s := Some(schemas[instructions[id].operand3]);
      } else {
        s := None;
      }
    }
  }

  lemma GetStays(p: Pools, p': Pools, kind: Kind, x: nat)
    requires Grows(p, p') && Get(p, kind, x).Some?
    ensures Get(p', kind, x) == Get(p, kind, x)
  {
  }

  lemma EncodedBy(p: Pools, r: RawInstr, i: Instr, slots: seq<nat>, shift: nat)
    requires r.op == OpcodeOf(i) && shift == (if HasVariable(r.op) then 1 else 0) && |slots| == |Operands(i)| + shift <= 3
    requires forall k :: 0 <= k < |slots| ==> slots[k] == Slot(r, k)
    requires shift == 1 ==> slots[0] < |p.strings|
    requires |Kinds(r.op)| == |Operands(i)|
    requires forall j {:trigger Operands(i)[j]} :: 0 <= j < |Operands(i)| ==>
               Get(p, Kinds(r.op)[j], slots[j + shift]) == Some(Operands(i)[j])
    ensures Encodes(p, r, i)
  {
  }
}
