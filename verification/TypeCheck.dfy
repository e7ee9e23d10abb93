/**
 The type checker over the flat IR: `src/SQL/type_check.cpp`. Its lookups stop the server when an entry is missing.
 */
module TypeCheck {
  import opened Ast
  import opened Lowering
  import opened RecordLayout
  import opened Wrappers

  datatype Type = TYPE_INT | TYPE_STRING | TYPE_PNG | TYPE_IMAGE_CHUNK | TYPE_BOOL | TYPE_NULL | TYPE_FLOAT | TYPE_DOUBLE

  datatype Signature = Signature(parameters: seq<Type>, result: Type)
  datatype TypedSchema = TypedSchema(names: seq<string>, types: seq<Type>)

  /** The code as written, or with the two repairs: `<` and `>` read their own operands, and a commit clears the lists. */
  datatype Mode = AsWritten | Repaired

  predicate Comparable(t: Type) {
    t == TYPE_NULL || t == TYPE_INT || t == TYPE_STRING || t == TYPE_BOOL
  }

  predicate IsImage(t: Type) {
    t == TYPE_PNG || t == TYPE_IMAGE_CHUNK
  }

  predicate TypesEqual(lhs: Type, rhs: Type) {
    lhs == TYPE_NULL || rhs == TYPE_NULL || (IsImage(lhs) && IsImage(rhs)) || lhs == rhs
  }

  function TypeOf(t: ColumnType): Type {
    match t
    case INTEGER => TYPE_INT
    case FLOAT => TYPE_FLOAT
    case DOUBLE => TYPE_DOUBLE
    case TEXT => TYPE_STRING
    case PNG => TYPE_PNG
    case BOOLEAN => TYPE_BOOL
  }

  function Typed(s: Schema): TypedSchema {
    TypedSchema(s.names, seq(|s.types|, i requires 0 <= i < |s.types| => TypeOf(s.types[i])))
  }

  /** `find_column`: the type of the first column of that name. */
  function FindColumn(s: TypedSchema, name: string): (t: Option<Type>)
    requires |s.names| == |s.types|
    ensures t.Some? <==> name in s.names
    decreases |s.names|
  {
    if s.names == [] then None
    else if s.names[0] == name then Some(s.types[0])
    else FindColumn(TypedSchema(s.names[1..], s.types[1..]), name)
  }

  // ---------- One instruction ----------

  datatype Typing = Typing(types: map<nat, Type>, tables: map<nat, TypedSchema>, emitted: seq<nat>, args: seq<nat>,
                           names: seq<string>, values: seq<nat>)

  predicate WellTyped(st: Typing) {
    && |st.names| == |st.values|
    && forall t <- st.tables :: |st.tables[t].names| == |st.tables[t].types|
  }

  function PutType(st: Typing, ip: nat, t: Type): Outcome<Typing> {
    Done(st.(types := st.types[ip := t]))
  }

  /** The loop of CommitInsert over the pending columns from k on. */
  function CheckPending(st: Typing, schema: TypedSchema, k: nat): Outcome<()>
    requires WellTyped(st) && |schema.names| == |schema.types| && k <= |st.names|
    decreases |st.names| - k
  {
    if k == |st.names| then Done(())
    else
      var expected := FindColumn(schema, st.names[k]);
      if expected.None? || st.values[k] !in st.types then Trapped
      else if !TypesEqual(st.types[st.values[k]], expected.value) then Failed
      else CheckPending(st, schema, k + 1)
  }

  /** The loop of Call over the arguments from k on. */
  function CheckArgs(st: Typing, parameters: seq<Type>, k: nat): Outcome<()>
    requires |parameters| == |st.args| && k <= |st.args|
    decreases |st.args| - k
  {
    if k == |st.args| then Done(())
    else if st.args[k] !in st.types then Trapped
    else if st.types[st.args[k]] != parameters[k] then Failed
    else CheckArgs(st, parameters, k + 1)
  }

  predicate Emits(code: Code, e: nat, types: map<nat, Type>) {
    e < |code| && code[e].EmitColumn? && code[e].column in types
  }

  /** The columns of an emitted query; every one must be an EmitColumn of a typed value. */
  function EmittedSchema(code: Code, st: Typing, emitted: seq<nat>): (r: Outcome<TypedSchema>)
    ensures r.Done? ==> |r.value.names| == |r.value.types| == |emitted|
  {
    if exists k :: 0 <= k < |emitted| && !Emits(code, emitted[k], st.types) then Trapped
    else Done(TypedSchema(
        seq(|emitted|, k requires 0 <= k < |emitted| => code[emitted[k]].name),
        seq(|emitted|, k requires 0 <= k < |emitted| => st.types[code[emitted[k]].column])))
  }

  /** `type_check_ir_instruction` */
  function CheckOne(code: Code, ip: nat, st: Typing, functions: map<string, Signature>, mode: Mode): Outcome<Typing>
    requires ip < |code| && WellTyped(st)
  {
    match code[ip]
    case Compare(op, l, r) =>
      if op != EQ && mode == AsWritten then Trapped // operands_of_Eq asserts that the instruction is Eq
      else if l !in st.types then Trapped
      else if !Comparable(st.types[l]) then Failed
      else if r !in st.types then Trapped
      else if !TypesEqual(st.types[l], st.types[r]) then Failed
      else PutType(st, ip, TYPE_BOOL)
    case ConstInt(_) => PutType(st, ip, TYPE_INT)
    case ConstString(_) => PutType(st, ip, TYPE_STRING)
    case ConstTrue => PutType(st, ip, TYPE_BOOL)
    case ConstFalse => PutType(st, ip, TYPE_BOOL)
    case ConstNull => PutType(st, ip, TYPE_NULL)
    case FetchTable(_, schema) =>
      if WellFormed(schema) then Done(st.(tables := st.tables[ip := Typed(schema)])) else Trapped
    case FetchColumn(t, name) =>
      if t !in st.tables then Trapped
      else if FindColumn(st.tables[t], name).None? then Trapped
      else PutType(st, ip, FindColumn(st.tables[t], name).value)
    case EmitColumn(_, _, _) => Done(st.(emitted := st.emitted + [ip]))
    case EmitQuery(count) =>
      if |st.emitted| < count then Trapped
      else (
        match EmittedSchema(code, st, st.emitted[|st.emitted| - count..])
        case Done(schema) =>
          Done(st.(emitted := st.emitted[..|st.emitted| - count], tables := st.tables[ip := schema]))
        case Failed => Failed
        case Trapped => Trapped
      )
    case InsertColumn(name, v) => Done(st.(names := st.names + [name], values := st.values + [v]))
    case CommitInsert(t) =>
      if t !in st.tables then Trapped
      else (
        match CheckPending(st, st.tables[t], 0)
        case Done(_) => Done(if mode == Repaired then st.(names := [], values := []) else st)
        case Failed => Failed
        case Trapped => Trapped
      )
    case UpdateColumn(t, v, name) =>
      if t !in st.tables || v !in st.types || FindColumn(st.tables[t], name).None? then Trapped
      else if !TypesEqual(st.types[v], FindColumn(st.tables[t], name).value) then Failed
      else Done(st)
    case Arg(v) =>
      if v !in st.types then Trapped
      else Done(st.(types := st.types[ip := st.types[v]], args := st.args + [ip]))
    case Call(fn, count) =>
      if fn !in functions || |functions[fn].parameters| != count then Failed
      else if |st.args| != count then Trapped
      else (
        match CheckArgs(st, functions[fn].parameters, 0)
        case Done(_) => PutType(st.(args := []), ip, functions[fn].result)
        case Failed => Failed
        case Trapped => Trapped
      )
    case InsertRow => Done(st)
    case CommitUpdate => Done(st)
    case DeleteTable(_) => Done(st)
  }

  lemma StaysWellTyped(code: Code, ip: nat, st: Typing, functions: map<string, Signature>, mode: Mode)
    requires ip < |code| && WellTyped(st) && CheckOne(code, ip, st, functions, mode).Done?
    ensures WellTyped(CheckOne(code, ip, st, functions, mode).value)
  {
    hide EmittedSchema, FindColumn, CheckPending, CheckArgs, TypesEqual, Comparable;
  }

  function NoTypes(): Typing {
    Typing(map[], map[], [], [], [], [])
  }

  /** `type_check_query` for the first n instructions. */
  function Check(code: Code, n: nat, functions: map<string, Signature>, mode: Mode): (r: Outcome<Typing>)
    requires n <= |code|
    ensures r.Done? ==> WellTyped(r.value)
  {
    if n == 0 then Done(NoTypes())
    else match Check(code, n - 1, functions, mode)
      case Done(st) =>
        var r := CheckOne(code, n - 1, st, functions, mode);
        assert r.Done? ==> WellTyped(r.value) by {
          if r.Done? { StaysWellTyped(code, n - 1, st, functions, mode); }
        }
        r
      case Failed => Failed
      case Trapped => Trapped
  }

  // ---------- The checker with its tables and lists ----------

  ghost predicate AgreesWith(r: Outcome<()>, st: Typing, spec: Outcome<Typing>) {
    match spec
    case Done(want) => r.Done? && st == want
    case Failed => r == Failed
    case Trapped => r == Trapped
  }

  class TypingContext {
    const functions: map<string, Signature>
    const mode: Mode
    var types: map<nat, Type>
    var tables: map<nat, TypedSchema>
    var emitted: seq<nat>
    var callArgs: seq<nat>
    var insertNames: seq<string>
    var insertValues: seq<nat>

    constructor (functions: map<string, Signature>, mode: Mode)
      ensures this.functions == functions && this.mode == mode && State() == NoTypes()
    {
      this.functions, this.mode := functions, mode;
      types, tables, emitted, callArgs, insertNames, insertValues := map[], map[], [], [], [], [];
    }

    ghost function State(): Typing
      reads this
    {
      Typing(types, tables, emitted, callArgs, insertNames, insertValues)
    }

    /** `type_check_ir_instruction` */
    method CheckInstruction(code: Code, ip: nat) returns (r: Outcome<()>)
      requires ip < |code| && WellTyped(State())
      modifies this
      ensures AgreesWith(r, State(), CheckOne(code, ip, old(State()), functions, mode))
    {
      hide FindColumn, TypesEqual, Comparable, CheckPending, CheckArgs, EmittedSchema;
      r := Done(());
      match code[ip]
      case Compare(op, lhs, rhs) =>
        if (op != EQ && mode == AsWritten) || lhs !in types {
          return Trapped;
        }
        if !Comparable(types[lhs]) {
          return Failed;
        }
        if rhs !in types {
          return Trapped;
        }
        if !TypesEqual(types[lhs], types[rhs]) {
          return Failed;
        }
        types := types[ip := TYPE_BOOL];
      case ConstInt(_) => types := types[ip := TYPE_INT];
      case ConstString(_) => types := types[ip := TYPE_STRING];
      case ConstTrue => types := types[ip := TYPE_BOOL];
      case ConstFalse => types := types[ip := TYPE_BOOL];
      case ConstNull => types := types[ip := TYPE_NULL];
      case FetchTable(_, schema) =>
        if !WellFormed(schema) {
          return Trapped;
        }
        tables := tables[ip := Typed(schema)];
      case FetchColumn(t, name) =>
        if t !in tables || FindColumn(tables[t], name).None? {
          return Trapped;
        }
        types := types[ip := FindColumn(tables[t], name).value];
      case EmitColumn(_, _, _) => emitted := emitted + [ip];
      case EmitQuery(count) => r := CheckEmitQuery(code, ip, count);
      case InsertColumn(name, value) =>
        insertNames := insertNames + [name];
        insertValues := insertValues + [value];
      case CommitInsert(t) => r := CheckCommitInsert(t);
      case UpdateColumn(t, value, name) =>
        if t !in tables || value !in types || FindColumn(tables[t], name).None? {
          return Trapped;
        }
        if !TypesEqual(types[value], FindColumn(tables[t], name).value) {
          return Failed;
        }
      case Arg(value) =>
        if value !in types {
          return Trapped;
        }
        types := types[ip := types[value]];
        callArgs := callArgs + [ip];
      case Call(fn, count) => r := CheckCall(ip, fn, count);
      case _ =>
    }

    method CheckEmitQuery(code: Code, ip: nat, count: nat) returns (r: Outcome<()>)
      requires ip < |code| && code[ip] == EmitQuery(count) && WellTyped(State())
      modifies this
      ensures AgreesWith(r, State(), CheckOne(code, ip, old(State()), functions, mode))
    {
      if |emitted| < count {
        return Trapped;
      }
      var start := |emitted| - count;
      ghost var last := emitted[start..];
      var names: seq<string>, columnTypes: seq<Type> := [], [];
      for i := start to |emitted|
        invariant |names| == |columnTypes| == i - start
        invariant forall k :: 0 <= k < i - start ==> Emits(code, last[k], types)
        invariant forall k :: 0 <= k < i - start ==>
                    names[k] == code[last[k]].name && columnTypes[k] == types[code[last[k]].column]
      {
        var e := emitted[i];
        assert e == last[i - start];
        if e >= |code| || !code[e].EmitColumn? || code[e].column !in types {
          return Trapped;
        }
        names := names + [code[e].name];
        columnTypes := columnTypes + [types[code[e].column]];
      }
      ghost var want := EmittedSchema(code, State(), last);
      assert want.Done?;
      assert names == want.value.names && columnTypes == want.value.types;
      emitted := emitted[..start];
      tables := tables[ip := TypedSchema(names, columnTypes)];
      r := Done(());
    }

    method CheckCommitInsert(t: nat) returns (r: Outcome<()>)
      requires WellTyped(State())
      modifies this`insertNames, this`insertValues
      ensures AgreesWith(r, State(), CheckOne([CommitInsert(t)], 0, old(State()), functions, mode))
    {
      if t !in tables {
        return Trapped;
      }
      ghost var st := State();
      for i := 0 to |insertNames|
        invariant CheckPending(st, tables[t], 0) == CheckPending(st, tables[t], i)
      {
        var expected := FindColumn(tables[t], insertNames[i]);
        if expected.None? || insertValues[i] !in types {
          return Trapped;
        }
        if !TypesEqual(types[insertValues[i]], expected.value) {
          return Failed;
        }
      }
      if mode == Repaired {
        insertNames, insertValues := [], [];
      }
      r := Done(());
    }

    method CheckCall(ip: nat, fn: string, count: nat) returns (r: Outcome<()>)
      requires WellTyped(State())
      modifies this`types, this`callArgs
      ensures AgreesWith(r, State(), CheckCallSpec(ip, old(State()), fn, count))
    {
      if fn !in functions {
        return Failed;
      }
      var signature := functions[fn];
      if |signature.parameters| != count {
        return Failed;
      }
      if |callArgs| != count {
        return Trapped;
      }
      ghost var st := State();
      for i := 0 to |callArgs|
        invariant CheckArgs(st, signature.parameters, 0) == CheckArgs(st, signature.parameters, i)
      {
        if callArgs[i] !in types {
          return Trapped;
        }
        if types[callArgs[i]] != signature.parameters[i] {
          return Failed;
        }
      }
      callArgs := [];
      types := types[ip := signature.result];
      r := Done(());
    }

    ghost function CheckCallSpec(ip: nat, st: Typing, fn: string, count: nat): Outcome<Typing>
      requires WellTyped(st)
    {
      CheckOne(seq(ip + 1, _ => Instr.Call(fn, count)), ip, st, functions, mode)
    }

    /** `type_check_query` */
    method CheckQuery(code: Code) returns (r: Outcome<()>)
      requires State() == NoTypes()
      modifies this
      ensures AgreesWith(r, State(), Check(code, |code|, functions, mode))
    {
      hide CheckOne;
      for ip := 0 to |code|
        invariant Check(code, ip, functions, mode) == Done(State())
      {
        r := CheckInstruction(code, ip);
        if !r.Done? {
          CheckStops(code, ip + 1, |code|, functions, mode);
          return;
        }
      }
      r := Done(());
    }
  }

  lemma {:induction false} CheckStops(code: Code, i: nat, n: nat, functions: map<string, Signature>, mode: Mode)
    requires i <= n <= |code| && !Check(code, i, functions, mode).Done?
    ensures Check(code, n, functions, mode) == Check(code, i, functions, mode)
  {
    if i < n {
      CheckStops(code, i, n - 1, functions, mode);
    }
  }
}
