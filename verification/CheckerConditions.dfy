/**
 When the type checker accepts a query, ends it with an error, or stops the server: conditions on what the statements
 ask for. With its two repairs it accepts exactly what is well typed; as written it also depends on `<`, on `>`, and on
 the columns of the INSERTs that came before.
 */
module CheckerConditions {
  import opened Ast
  import opened CheckerSoundness
  import opened CompiledNames
  import opened Execution
  import opened Lowering
  import opened StatementMeaning
  import opened TypeCheck
  import opened Wrappers

  // ---------- Values ----------

  /** Nothing in the value is compared by `<` or `>`. */
  predicate OrderFree(v: Sym) {
    match v
    case Compared(op, lhs, rhs) => op == EQ && OrderFree(lhs) && OrderFree(rhs)
    case Returned(_, args) => forall i :: 0 <= i < |args| ==> OrderFree(args[i])
    case _ => true
  }

  predicate ValuePasses(v: Sym, db: Db, functions: Functions, mode: Mode) {
    HasType(v, db, functions) && (mode == AsWritten ==> OrderFree(v))
  }

  lemma {:induction false} ValueAcceptedIff(v: Sym, db: Db, functions: Functions, mode: Mode)
    ensures ValueVerdict(v, db, functions, mode) == Accepts <==> ValuePasses(v, db, functions, mode)
    ensures HasType(v, db, functions) ==> ValueVerdict(v, db, functions, mode) != Rejects
    decreases v, 0
  {
    match v
    case Compared(op, lhs, rhs) =>
      ValueAcceptedIff(lhs, db, functions, mode);
      ValueAcceptedIff(rhs, db, functions, mode);
    case Returned(fn, args) => ArgsAcceptedIff(args, |args|, db, functions, mode);
    case _ =>
  }

  lemma {:induction false} ArgsAcceptedIff(args: seq<Sym>, n: nat, db: Db, functions: Functions, mode: Mode)
    requires n <= |args|
    ensures ArgsVerdict(args, n, db, functions, mode) == Accepts <==>
            forall i :: 0 <= i < n ==> ValuePasses(args[i], db, functions, mode)
    ensures (forall i :: 0 <= i < n ==> HasType(args[i], db, functions)) ==>
              ArgsVerdict(args, n, db, functions, mode) != Rejects
    decreases args, n
  {
    hide ValueVerdict, HasType, OrderFree;
    if n > 0 {
      ArgsAcceptedIff(args, n - 1, db, functions, mode);
      ValueAcceptedIff(args[n - 1], db, functions, mode);
    }
  }

  // ---------- Effects ----------

  predicate CellsOrderFree(cells: seq<Cell>) {
    forall k :: 0 <= k < |cells| ==> OrderFree(cells[k].value)
  }

  predicate EffectOrderFree(e: Effect) {
    match e
    case Show(columns) => forall k :: 0 <= k < |columns| ==> OrderFree(columns[k].value)
    case InsertRows(_, rows) => CellsOrderFree(Concat(rows))
    case WriteColumns(_, cells) => CellsOrderFree(cells)
    case DeleteRows(_) => true
  }

  predicate CellsPass(cells: seq<Cell>, n: nat, db: Db, functions: Functions, mode: Mode)
    requires n <= |cells|
  {
    forall k :: 0 <= k < n ==> ValuePasses(cells[k].value, db, functions, mode)
  }

  predicate CellsHaveTypes(cells: seq<Cell>, n: nat, db: Db, functions: Functions)
    requires n <= |cells|
  {
    forall k :: 0 <= k < n ==> HasType(cells[k].value, db, functions)
  }

  lemma {:induction false} ShownAcceptedIff(columns: seq<Shown>, n: nat, db: Db, functions: Functions, mode: Mode)
    requires n <= |columns|
    ensures ShownVerdict(columns, n, db, functions, mode) == Accepts <==>
            forall k :: 0 <= k < n ==> ValuePasses(columns[k].value, db, functions, mode)
    ensures (forall k :: 0 <= k < n ==> HasType(columns[k].value, db, functions)) ==>
              ShownVerdict(columns, n, db, functions, mode) != Rejects
  {
    hide ValueVerdict, HasType, OrderFree;
    if n > 0 {
      ShownAcceptedIff(columns, n - 1, db, functions, mode);
      ValueAcceptedIff(columns[n - 1].value, db, functions, mode);
    }
  }

  lemma {:induction false} CellsAcceptedIff(cells: seq<Cell>, n: nat, db: Db, functions: Functions, mode: Mode)
    requires n <= |cells|
    ensures CellsVerdict(cells, n, db, functions, mode) == Accepts <==> CellsPass(cells, n, db, functions, mode)
    ensures CellsHaveTypes(cells, n, db, functions) ==> CellsVerdict(cells, n, db, functions, mode) != Rejects
  {
    hide ValueVerdict, HasType, OrderFree;
    if n > 0 {
      CellsAcceptedIff(cells, n - 1, db, functions, mode);
      ValueAcceptedIff(cells[n - 1].value, db, functions, mode);
    }
  }

  lemma PassTogether(a: seq<Cell>, b: seq<Cell>, db: Db, functions: Functions, mode: Mode)
    ensures CellsPass(a + b, |a + b|, db, functions, mode) <==>
            CellsPass(a, |a|, db, functions, mode) && CellsPass(b, |b|, db, functions, mode)
    ensures CellsHaveTypes(a + b, |a + b|, db, functions) ==>
              CellsHaveTypes(a, |a|, db, functions) && CellsHaveTypes(b, |b|, db, functions)
  {
    hide HasType, ValuePasses;
    assert forall k :: 0 <= k < |a| ==> (a + b)[k] == a[k];
    assert forall k :: 0 <= k < |b| ==> (a + b)[|a| + k] == b[k];
  }

  lemma {:induction false} RowsAcceptedIff(rows: seq<seq<Cell>>, n: nat, db: Db, functions: Functions, mode: Mode)
    requires n <= |rows|
    ensures var cells := Concat(rows[..n]);
            && (RowsVerdict(rows, n, db, functions, mode) == Accepts <==> CellsPass(cells, |cells|, db, functions, mode))
            && (CellsHaveTypes(cells, |cells|, db, functions) ==> RowsVerdict(rows, n, db, functions, mode) != Rejects)
  {
    hide CellsVerdict, CellsPass, CellsHaveTypes;
    if n == 0 {
      NothingToPass(db, functions, mode);
    } else {
      var row, before := rows[n - 1], Concat(rows[..n - 1]);
      RowsAcceptedIff(rows, n - 1, db, functions, mode);
      CellsAcceptedIff(row, |row|, db, functions, mode);
      assert rows[..n][..n - 1] == rows[..n - 1];
      PassTogether(before, row, db, functions, mode);
    }
  }

  lemma NothingToPass(db: Db, functions: Functions, mode: Mode)
    ensures CellsPass([], 0, db, functions, mode)
  {
  }

  /** The first n cells fit the table. */
  predicate FitUpTo(cells: seq<Cell>, n: nat, table: string, db: Db, functions: Functions)
    requires n <= |cells|
  {
    forall k :: 0 <= k < n ==> CellTyped(cells[k], table, db, functions)
  }

  lemma {:induction false} WritesAcceptedIff(cells: seq<Cell>, n: nat, table: string, db: Db, functions: Functions,
                                             mode: Mode)
    requires n <= |cells|
    ensures WritesVerdict(cells, n, table, db, functions, mode) == Accepts <==>
            CellsPass(cells, n, db, functions, mode) && FitUpTo(cells, n, table, db, functions)
    ensures FitUpTo(cells, n, table, db, functions) ==> WritesVerdict(cells, n, table, db, functions, mode) != Rejects
  {
    hide ValueVerdict, TypeOfValue, OrderFree, TypeOfColumn, TypesEqual;
    if n > 0 {
      WritesAcceptedIff(cells, n - 1, table, db, functions, mode);
      ValueAcceptedIff(cells[n - 1].value, db, functions, mode);
    }
  }

  /** Cell j is the first that does not fit the table. */
  predicate FirstMisfit(cells: seq<Cell>, j: nat, table: string, db: Db, functions: Functions) {
    j < |cells| && FitUpTo(cells, j, table, db, functions) && !CellTyped(cells[j], table, db, functions)
  }

  function MisfitVerdict(c: Cell, table: string, db: Db): Verdict {
    if TypeOfColumn(table, c.column, db).None? then Stops else Rejects
  }

  /** The first pending column that does not fit decides: not in the table, the checker stops; of another type, an error. */
  lemma {:induction false} MisfitDecides(cells: seq<Cell>, j: nat, table: string, db: Db, functions: Functions)
    requires FirstMisfit(cells, j, table, db, functions)
    ensures PendingVerdict(cells, table, db, functions) == MisfitVerdict(cells[j], table, db)
  {
    hide TypeOfValue, TypeOfColumn, TypesEqual;
    if j > 0 {
      var rest := cells[1..];
      assert forall k :: 0 <= k < |rest| ==> rest[k] == cells[k + 1];
      assert CellTyped(cells[0], table, db, functions);
      MisfitDecides(rest, j - 1, table, db, functions);
    }
  }

  lemma {:induction false} FittingAccepted(cells: seq<Cell>, table: string, db: Db, functions: Functions)
    requires CellsTyped(cells, table, db, functions)
    ensures PendingVerdict(cells, table, db, functions) == Accepts
  {
    hide TypeOfValue, TypeOfColumn, TypesEqual;
    if cells != [] {
      var rest := cells[1..];
      assert forall k :: 0 <= k < |rest| ==> rest[k] == cells[k + 1];
      assert CellTyped(cells[0], table, db, functions);
      FittingAccepted(rest, table, db, functions);
    }
  }

  /** Either all cells fit, or one is the first that does not. */
  lemma {:induction false} SomeMisfit(cells: seq<Cell>, n: nat, table: string, db: Db, functions: Functions) returns (j: nat)
    requires n <= |cells| && FitUpTo(cells, n, table, db, functions)
    ensures CellsTyped(cells, table, db, functions) || FirstMisfit(cells, j, table, db, functions)
    decreases |cells| - n
  {
    hide CellTyped;
    j := n;
    if n < |cells| && CellTyped(cells[n], table, db, functions) {
      j := SomeMisfit(cells, n + 1, table, db, functions);
    }
  }

  /** The first cell that does not fit the table has this verdict. */
  ghost predicate MisfitGives(cells: seq<Cell>, table: string, db: Db, functions: Functions, v: Verdict) {
    exists j :: 0 <= j < |cells| && FirstMisfit(cells, j, table, db, functions) && v == MisfitVerdict(cells[j], table, db)
  }

  /** The verdict on pending columns: accepted if all fit, and otherwise decided by the first that does not. */
  lemma PendingSplit(cells: seq<Cell>, table: string, db: Db, functions: Functions)
    ensures var v := PendingVerdict(cells, table, db, functions);
            && (v == Accepts <==> CellsTyped(cells, table, db, functions))
            && (v == Rejects <==> MisfitGives(cells, table, db, functions, Rejects))
            && (v == Stops <==> MisfitGives(cells, table, db, functions, Stops))
  {
    hide CellTyped, MisfitVerdict, PendingVerdict;
    var v := PendingVerdict(cells, table, db, functions);
    var j := SomeMisfit(cells, 0, table, db, functions);
    if CellsTyped(cells, table, db, functions) {
      FittingAccepted(cells, table, db, functions);
    } else {
      MisfitDecides(cells, j, table, db, functions);
      MisfitIsNoAccept(cells[j], table, db);
    }
    forall i: nat | FirstMisfit(cells, i, table, db, functions)
      ensures v == MisfitVerdict(cells[i], table, db)
    {
      MisfitDecides(cells, i, table, db, functions);
    }
  }

  lemma MisfitIsNoAccept(c: Cell, table: string, db: Db)
    ensures MisfitVerdict(c, table, db) != Accepts
  {
  }

  lemma TypedTogether(a: seq<Cell>, b: seq<Cell>, table: string, db: Db, functions: Functions)
    ensures CellsTyped(a + b, table, db, functions) <==>
            CellsTyped(a, table, db, functions) && CellsTyped(b, table, db, functions)
  {
    hide CellTyped;
    assert forall k :: 0 <= k < |a| ==> (a + b)[k] == a[k];
    assert forall k :: 0 <= k < |b| ==> (a + b)[|a| + k] == b[k];
  }

  /** Cells that fit the table make no difference at the end. */
  lemma {:induction false} PendingFront(a: seq<Cell>, b: seq<Cell>, table: string, db: Db, functions: Functions)
    requires CellsTyped(b, table, db, functions)
    ensures PendingVerdict(a + b, table, db, functions) == PendingVerdict(a, table, db, functions)
  {
    hide FitVerdict, CellTyped;
    if a == [] {
      assert a + b == b;
      FittingAccepted(b, table, db, functions);
    } else {
      assert (a + b)[1..] == a[1..] + b;
      PendingFront(a[1..], b, table, db, functions);
    }
  }

  // ---------- What passes ----------

  /** The condition on one effect; the checker as written also asks for the columns of the INSERTs before it. */
  predicate EffectPasses(before: seq<Effect>, e: Effect, db: Db, functions: Functions, mode: Mode) {
    && EffectTyped(e, db, functions)
    && (mode == AsWritten ==>
          EffectOrderFree(e) && (e.InsertRows? ==> CellsTyped(Inserted(before), e.table, db, functions)))
  }

  /** The verdict of the checker as written on an effect that is well typed. */
  function TypedVerdict(before: seq<Effect>, e: Effect, db: Db, functions: Functions): Verdict {
    if !EffectOrderFree(e) then Stops
    else if e.InsertRows? then PendingVerdict(Inserted(before), e.table, db, functions)
    else Accepts
  }

  lemma InsertAcceptedIff(before: seq<Effect>, e: Effect, db: Db, functions: Functions, mode: Mode)
    requires e.InsertRows?
    ensures EffectVerdict(before, e, db, functions, mode) == Accepts <==> EffectPasses(before, e, db, functions, mode)
    ensures mode == AsWritten && EffectTyped(e, db, functions) ==>
              EffectVerdict(before, e, db, functions, mode) == TypedVerdict(before, e, db, functions)
  {
    hide Inserted, Concat, HasType, OrderFree, TypeOfColumn, RowsVerdict, PendingVerdict, MisfitGives;
    var cells, left := Concat(e.rows), StillPending(before, mode);
    assert e.rows[..|e.rows|] == e.rows;
    RowsAcceptedIff(e.rows, |e.rows|, db, functions, mode);
    PendingSplit(left + cells, e.table, db, functions);
    TypedTogether(left, cells, e.table, db, functions);
    TypedHaveTypes(cells, e.table, db, functions);
    NothingTyped(e.table, db, functions);
    if CellsTyped(cells, e.table, db, functions) {
      PendingFront(left, cells, e.table, db, functions);
    }
  }

  lemma TypedHaveTypes(cells: seq<Cell>, table: string, db: Db, functions: Functions)
    ensures CellsTyped(cells, table, db, functions) ==> CellsHaveTypes(cells, |cells|, db, functions)
  {
    hide TypeOfValue, TypeOfColumn;
  }

  lemma NothingTyped(table: string, db: Db, functions: Functions)
    ensures CellsTyped([], table, db, functions)
  {
  }

  lemma EffectAcceptedIff(before: seq<Effect>, e: Effect, db: Db, functions: Functions, mode: Mode)
    ensures EffectVerdict(before, e, db, functions, mode) == Accepts <==> EffectPasses(before, e, db, functions, mode)
    ensures mode == AsWritten && EffectTyped(e, db, functions) ==>
              EffectVerdict(before, e, db, functions, mode) == TypedVerdict(before, e, db, functions)
  {
    hide Inserted, Concat, TypeOfValue, OrderFree, TypeOfColumn;
    match e
    case Show(columns) => ShownAcceptedIff(columns, |columns|, db, functions, mode);
    case InsertRows(_, _) => InsertAcceptedIff(before, e, db, functions, mode);
    case WriteColumns(table, cells) => WritesAcceptedIff(cells, |cells|, table, db, functions, mode);
    case DeleteRows(_) =>
  }

  // ---------- Whole queries ----------

  /** With its repairs the checker looks at every effect on its own. */
  lemma {:induction false} RepairedAcceptsIff(effects: seq<Effect>, db: Db, functions: Functions)
    ensures QueryVerdict(effects, db, functions, Repaired) == Accepts <==>
            forall i :: 0 <= i < |effects| ==> EffectTyped(effects[i], db, functions)
  {
    hide EffectVerdict, EffectTyped;
    if effects != [] {
      var n := |effects| - 1;
      RepairedAcceptsIff(effects[..n], db, functions);
      EffectAcceptedIff(effects[..n], effects[n], db, functions, Repaired);
    }
  }

  /** The columns of an INSERT do not hinder a later one. */
  predicate InsertsFit(first: Effect, later: Effect, db: Db, functions: Functions) {
    first.InsertRows? && later.InsertRows? ==> CellsTyped(Concat(first.rows), later.table, db, functions)
  }

  /** What the checker as written accepts: well typed, without `<` and `>`, and no INSERT hinders a later one. */
  ghost predicate Fitting(effects: seq<Effect>, db: Db, functions: Functions) {
    && (forall i :: 0 <= i < |effects| ==> EffectTyped(effects[i], db, functions) && EffectOrderFree(effects[i]))
    && (forall i, j :: 0 <= j < i < |effects| ==> InsertsFit(effects[j], effects[i], db, functions))
  }

  lemma {:induction false} InsertedFitIff(effects: seq<Effect>, later: Effect, db: Db, functions: Functions)
    requires later.InsertRows?
    ensures CellsTyped(Inserted(effects), later.table, db, functions) <==>
            forall j :: 0 <= j < |effects| ==> InsertsFit(effects[j], later, db, functions)
  {
    hide CellsTyped, Concat;
    if effects == [] {
      NothingTyped(later.table, db, functions);
    } else {
      var n := |effects| - 1;
      InsertedFitIff(effects[..n], later, db, functions);
      TypedTogether(Inserted(effects[..n]), CellsOf(effects[n]), later.table, db, functions);
      NothingTyped(later.table, db, functions);
    }
  }

  lemma {:induction false} WrittenAcceptsFitting(effects: seq<Effect>, db: Db, functions: Functions)
    ensures QueryVerdict(effects, db, functions, AsWritten) == Accepts <==> Fitting(effects, db, functions)
  {
    hide EffectVerdict, EffectTyped, EffectOrderFree, InsertsFit, CellsTyped, Inserted;
    if effects != [] {
      var n := |effects| - 1;
      WrittenAcceptsFitting(effects[..n], db, functions);
      EffectAcceptedIff(effects[..n], effects[n], db, functions, AsWritten);
      if effects[n].InsertRows? {
        InsertedFitIff(effects[..n], effects[n], db, functions);
      } else {
        OnlyInsertsHinder(effects, effects[n], db, functions);
      }
    }
  }

  lemma OnlyInsertsHinder(effects: seq<Effect>, later: Effect, db: Db, functions: Functions)
    requires !later.InsertRows?
    ensures forall j :: 0 <= j < |effects| ==> InsertsFit(effects[j], later, db, functions)
  {
  }

  /** The verdict is that of the first effect that does not pass. */
  lemma {:induction false} FirstDecides(effects: seq<Effect>, db: Db, functions: Functions, mode: Mode, v: Verdict)
    requires v != Accepts
    ensures QueryVerdict(effects, db, functions, mode) == v <==>
            exists i :: 0 <= i < |effects| && Decides(effects, i, db, functions, mode, v)
  {
    hide EffectVerdict;
    if effects != [] {
      var n := |effects| - 1;
      FirstDecides(effects[..n], db, functions, mode, v);
      forall i | 0 <= i < n
        ensures Decides(effects, i, db, functions, mode, v) <==> Decides(effects[..n], i, db, functions, mode, v)
      {
        assert effects[..n][..i] == effects[..i];
      }
      assert Decides(effects, n, db, functions, mode, v) <==>
             QueryVerdict(effects[..n], db, functions, mode) == Accepts
             && EffectVerdict(effects[..n], effects[n], db, functions, mode) == v;
    }
  }

  predicate Decides(effects: seq<Effect>, i: nat, db: Db, functions: Functions, mode: Mode, v: Verdict) {
    i < |effects| && QueryVerdict(effects[..i], db, functions, mode) == Accepts
    && EffectVerdict(effects[..i], effects[i], db, functions, mode) == v
  }

  /**
   Of well-typed effects, i is the first at which the checker as written ends with verdict v. It stops at `<` or `>`;
   at an INSERT, the first column of an earlier INSERT that does not fit decides between an error and a stop.
   */
  ghost predicate Hinders(effects: seq<Effect>, i: nat, db: Db, functions: Functions, v: Verdict) {
    i < |effects| && Fitting(effects[..i], db, functions)
    && if !EffectOrderFree(effects[i]) then v == Stops
       else effects[i].InsertRows? && MisfitGives(Inserted(effects[..i]), effects[i].table, db, functions, v)
  }

  lemma WrittenVerdict(effects: seq<Effect>, db: Db, functions: Functions, v: Verdict)
    requires v != Accepts && forall i :: 0 <= i < |effects| ==> EffectTyped(effects[i], db, functions)
    ensures QueryVerdict(effects, db, functions, AsWritten) == v <==>
            exists i :: 0 <= i < |effects| && Hinders(effects, i, db, functions, v)
  {
    hide EffectVerdict, EffectTyped, EffectOrderFree, Fitting, MisfitGives, Inserted, PendingVerdict;
    FirstDecides(effects, db, functions, AsWritten, v);
    forall i | 0 <= i < |effects|
      ensures Decides(effects, i, db, functions, AsWritten, v) <==> Hinders(effects, i, db, functions, v)
    {
      WrittenAcceptsFitting(effects[..i], db, functions);
      EffectAcceptedIff(effects[..i], effects[i], db, functions, AsWritten);
      if effects[i].InsertRows? {
        PendingSplit(Inserted(effects[..i]), effects[i].table, db, functions);
      }
    }
  }

  // ---------- Lookups that succeed ----------

  /** The tables that the executor knows are those that the code fetched. */
  ghost predicate TablesNamed(code: Code, m: Machine, db: Db) {
    forall t <- m.tables :: t < |code| && code[t].FetchTable? && code[t].name == m.tables[t]
                            && m.tables[t] in db && db[m.tables[t]] == code[t].schema && WellFormed(code[t].schema)
  }

  /** The pending columns are those of the INSERT that the code has begun. */
  ghost predicate PendingNamed(code: Code, m: Machine) {
    var cells := Pending(m, Repaired);
    |cells| == |Uncommitted(code)| && forall k :: 0 <= k < |cells| ==> cells[k].column == Uncommitted(code)[k]
  }

  lemma {:induction false} NamesHeld(code: Code, db: Db)
    requires Exec(code).Done? && NamesOk(code, db)
    ensures TablesNamed(code, Exec(code).value, db) && PendingNamed(code, Exec(code).value)
  {
    hide Step, NameOk, TablesNamed, PendingNamed, RowClosed;
    if code == [] {
      NothingNamed(db);
    } else {
      var n := |code| - 1;
      NamesHeld(code[..n], db);
      RowIsOpen(code[..n]);
      CommitClosed(code, n, db);
      TablesStep(code[..n], code[n], Exec(code[..n]).value, Exec(code).value, db);
      PendingStep(code[..n], code[n], Exec(code[..n]).value, Exec(code).value);
      assert code[..n] + [code[n]] == code;
    }
  }

  lemma NothingNamed(db: Db)
    ensures TablesNamed([], Start(), db) && PendingNamed([], Start())
  {
  }

  lemma TablesStep(before: Code, i: Instr, m: Machine, m': Machine, db: Db)
    requires TablesNamed(before, m, db) && Step(i, |before|, m) == Done(m') && NameOk(i, before, db)
    ensures TablesNamed(before + [i], m', db)
  {
    hide RowClosed, HasColumn, Uncommitted, OpenColumns;
    assert forall t :: 0 <= t < |before| ==> (before + [i])[t] == before[t];
  }

  lemma PendingStep(before: Code, i: Instr, m: Machine, m': Machine)
    requires PendingNamed(before, m) && Step(i, |before|, m) == Done(m') && (i.CommitInsert? ==> m.row == [])
    ensures PendingNamed(before + [i], m')
  {
    hide Uncommitted;
    UncommittedNext(before, i);
    match i
    case InsertRow =>
      assert m'.rows[..|m.rows|] == m.rows;
      assert Pending(m', Repaired) == Pending(m, Repaired);
    case InsertColumn(name, v) => assert Pending(m', Repaired) == Pending(m, Repaired) + [Cell(name, m.vars[v])];
    case CommitInsert(_) => assert Pending(m', Repaired) == [];
    case _ => assert Pending(m', Repaired) == Pending(m, Repaired);
  }

  lemma UncommittedNext(before: Code, i: Instr)
    ensures Uncommitted(before + [i]) == After(i, Uncommitted(before))
  {
    assert (before + [i])[..|before|] == before;
  }

  /** A column that the compiler found has a type. */
  lemma FoundHasType(code: Code, m: Machine, t: nat, name: string, db: Db)
    requires TablesNamed(code, m, db) && HasColumn(code, t, name) && t in m.tables
    ensures TypeOfColumn(m.tables[t], name, db).Some?
  {
  }

  lemma StepNeverStops(i: Instr, code: Code, m: Machine, db: Db, functions: Functions)
    requires TablesNamed(code, m, db) && PendingNamed(code, m)
    requires NameOk(i, code, db) && Step(i, |code|, m).Done?
    ensures StepVerdict(i, m, db, functions, Repaired) != Stops
  {
    hide TablesNamed, HasColumn, Pending, RowClosed, TypeOfColumn, CellTyped, PendingVerdict, OperandsFit, HasType, Uncommitted;
    match i
    case FetchColumn(t, name) => FoundHasType(code, m, t, name, db);
    case UpdateColumn(t, _, name) => FoundHasType(code, m, t, name, db);
    case CommitInsert(t) =>
      var cells := Pending(m, Repaired);
      PendingSplit(cells, m.tables[t], db, functions);
      forall j | 0 <= j < |cells|
        ensures TypeOfColumn(m.tables[t], cells[j].column, db).Some?
      {
        assert cells[j].column in Uncommitted(code);
        FoundHasType(code, m, t, cells[j].column, db);
      }
    case _ =>
  }

  /** On compiled code the lookups of the repaired checker succeed. */
  lemma {:induction false} NeverStops(code: Code, db: Db, functions: Functions)
    requires Exec(code).Done? && NamesOk(code, db)
    ensures RunVerdict(code, db, functions, Repaired) != Stops
  {
    hide Step, NameOk, StepVerdict, TablesNamed, PendingNamed;
    if code != [] {
      var n := |code| - 1;
      NeverStops(code[..n], db, functions);
      NamesHeld(code[..n], db);
      StepNeverStops(code[n], code[..n], Exec(code[..n]).value, db, functions);
    }
  }

  // ---------- Queries ----------

  /** The statements of a query that compiles and runs. */
  ghost predicate Runnable(stmts: seq<Stmt>, db: Db) {
    && WellFormedDb(db)
    && (forall i :: 0 <= i < |stmts| ==> Modelled(stmts[i]) && StarsOnTop(stmts[i]) && Clean(stmts[i]))
    && LowerQuery(stmts, |stmts|, db).Done?
  }

  ghost function Checked(stmts: seq<Stmt>, db: Db, functions: Functions, mode: Mode): Outcome<Typing>
    requires Runnable(stmts, db)
  {
    var code := LowerQuery(stmts, |stmts|, db).value;
    Check(code, |code|, functions, mode)
  }

  lemma {:induction false} EffectsAt(stmts: seq<Stmt>, n: nat, db: Db)
    requires n <= |stmts| && forall i :: 0 <= i < |stmts| ==> Modelled(stmts[i])
    ensures |Effects(stmts, n, db)| == n && forall i :: 0 <= i < n ==> Effects(stmts, n, db)[i] == EffectOf(stmts[i], db)
  {
    hide EffectOf;
    if n > 0 {
      EffectsAt(stmts, n - 1, db);
    }
  }

  /**
   Soundness and completeness: the repaired checker, which looks at the IR, accepts a query that compiles and is clean
   if and only if everything its statements ask for is well typed. It rejects every other one with an error, and never
   stops the server.
   */
  lemma AcceptsIff(stmts: seq<Stmt>, db: Db, functions: Functions)
    requires Runnable(stmts, db)
    ensures var r := Checked(stmts, db, functions, Repaired);
            if forall i :: 0 <= i < |stmts| ==> EffectTyped(EffectOf(stmts[i], db), db, functions) then r.Done?
            else r == Failed
  {
    hide Idle, Exec, LowerStmt, EffectOf, Clean, StarsOnTop, EffectTyped, Check, RunVerdict, QueryVerdict;
    var n, code := |stmts|, LowerQuery(stmts, |stmts|, db).value;
    CheckIsVerdict(stmts, db, functions, Repaired);
    EffectsAt(stmts, n, db);
    RepairedAcceptsIff(Effects(stmts, n, db), db, functions);
    QueryIsJudged(stmts, n, db, functions, Repaired);
    QueryNames(stmts, n, db);
    var m := LoweringPreservesMeaning(stmts, n, db);
    IdleIs(code, m);
    NeverStops(code, db, functions);
  }

  /**
   The checker as written accepts a query that compiles and is clean if and only if everything its statements ask for is
   well typed, nothing is compared by `<` or `>`, and the columns of every INSERT fit the tables of all later INSERTs.
   A well-typed query that it does not accept is ended with an error, or stops the server, by the first statement that
   compares so or by the first column that does not fit.
   */
  lemma WrittenAcceptsIff(stmts: seq<Stmt>, db: Db, functions: Functions)
    requires Runnable(stmts, db)
    ensures var effects, r := Effects(stmts, |stmts|, db), Checked(stmts, db, functions, AsWritten);
            && (r.Done? <==> Fitting(effects, db, functions))
            && ((forall i :: 0 <= i < |effects| ==> EffectTyped(effects[i], db, functions)) ==>
                  && (r.Failed? <==> exists i :: 0 <= i < |effects| && Hinders(effects, i, db, functions, Rejects))
                  && (r.Trapped? <==> exists i :: 0 <= i < |effects| && Hinders(effects, i, db, functions, Stops)))
  {
    hide LowerStmt, EffectOf, Clean, StarsOnTop, EffectTyped, Check, QueryVerdict, Fitting, Hinders;
    var effects := Effects(stmts, |stmts|, db);
    CheckIsVerdict(stmts, db, functions, AsWritten);
    WrittenAcceptsFitting(effects, db, functions);
    if forall i :: 0 <= i < |effects| ==> EffectTyped(effects[i], db, functions) {
      WrittenVerdict(effects, db, functions, Rejects);
      WrittenVerdict(effects, db, functions, Stops);
    }
  }

  /** Any number of INSERTs into one table do not hinder each other. */
  lemma OneTableAccepted(stmts: seq<Stmt>, table: string, db: Db, functions: Functions)
    requires Runnable(stmts, db)
    requires forall i :: 0 <= i < |stmts| ==> stmts[i].InsertStmt? ==> stmts[i].name == table
    requires forall i :: 0 <= i < |stmts| ==>
               EffectTyped(EffectOf(stmts[i], db), db, functions) && EffectOrderFree(EffectOf(stmts[i], db))
    ensures Checked(stmts, db, functions, AsWritten).Done?
  {
    hide LowerStmt, Clean, StarsOnTop, Check, EffectOrderFree, Concat, CellsTyped, AllCells, ShownItems, SetCells;
    var effects := Effects(stmts, |stmts|, db);
    EffectsAt(stmts, |stmts|, db);
    forall i, j | 0 <= j < i < |effects|
      ensures InsertsFit(effects[j], effects[i], db, functions)
    {
      assert EffectTyped(EffectOf(stmts[j], db), db, functions);
    }
    WrittenAcceptsIff(stmts, db, functions);
  }
}
