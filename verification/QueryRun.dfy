/**
 A query as the server runs it: type checked first, and then executed with the schemas that the checker found. The
 executor needs the column type of everything a SELECT shows, and there is none for NULL and for parts of images.
 */
module QueryRun {
  import opened Ast
  import opened CheckerConditions
  import opened CheckerExamples
  import opened CheckerSoundness
  import opened CompiledNames
  import opened Execution
  import opened Lowering
  import opened RecordLayout
  import opened StatementMeaning
  import opened TypeCheck
  import opened Wrappers

  type Schemas = map<nat, TypedSchema>

  // ---------- The executor with the schemas of the checker ----------

  /** `type_to_column_type` has an answer. */
  predicate IsColumnType(t: Type) {
    t != TYPE_NULL && t != TYPE_IMAGE_CHUNK
  }

  predicate Convertible(ip: nat, schemas: Schemas) {
    ip in schemas && forall k :: 0 <= k < |schemas[ip].types| ==> IsColumnType(schemas[ip].types[k])
  }

  /** `execute_instruction`: a SELECT is made with the column types of its schema. */
  function RunStep(i: Instr, ip: nat, m: Machine, schemas: Schemas): Outcome<Machine> {
    if i.EmitQuery? && !Convertible(ip, schemas) then Trapped else Step(i, ip, m)
  }

  function Run(code: Code, schemas: Schemas): Outcome<Machine> {
    if code == [] then Done(Start())
    else match Run(code[..|code| - 1], schemas)
      case Done(m) => RunStep(code[|code| - 1], |code| - 1, m, schemas)
      case Failed => Failed
      case Trapped => Trapped
  }

  /** A failed assertion stays one. */
  lemma {:induction false} RunTraps(code: Code, schemas: Schemas)
    ensures Run(code, schemas) == Exec(code) || Run(code, schemas).Trapped?
  {
    hide Step, Convertible;
    if code != [] {
      RunTraps(code[..|code| - 1], schemas);
    }
  }

  // ---------- What is shown ----------

  predicate ShownHasColumnType(v: Sym, db: Db, functions: Functions) {
    HasType(v, db, functions) && IsColumnType(TypeOfValue(v, db, functions).value)
  }

  /** Everything a SELECT shows can be a column of a table. */
  predicate Showable(e: Effect, db: Db, functions: Functions) {
    e.Show? ==> forall k :: 0 <= k < |e.columns| ==> ShownHasColumnType(e.columns[k].value, db, functions)
  }

  predicate AllShowable(effects: seq<Effect>, db: Db, functions: Functions) {
    forall i :: 0 <= i < |effects| ==> Showable(effects[i], db, functions)
  }

  /** Schemas that the checker found stay as they are. */
  lemma {:induction false} SchemaStays(code: Code, ip: nat, n: nat, functions: Functions, mode: Mode)
    requires ip < n <= |code| && Check(code, n, functions, mode).Done?
    ensures Check(code, ip + 1, functions, mode).Done?
    ensures var st, st' := Check(code, ip + 1, functions, mode).value, Check(code, n, functions, mode).value;
            ip in st.tables ==> ip in st'.tables && st'.tables[ip] == st.tables[ip]
  {
    hide CheckOne;
    if ip + 1 < n {
      SchemaStays(code, ip, n - 1, functions, mode);
      OthersUntouched(code, n - 1, Check(code, n - 1, functions, mode).value, functions, mode);
    }
  }

  lemma OthersUntouched(code: Code, ip: nat, st: Typing, functions: Functions, mode: Mode)
    requires ip < |code| && WellTyped(st) && CheckOne(code, ip, st, functions, mode).Done?
    ensures forall t <- st.tables :: t != ip ==>
              var st' := CheckOne(code, ip, st, functions, mode).value;
              t in st'.tables && st'.tables[t] == st.tables[t]
  {
    hide EmittedSchema, FindColumn, CheckPending, CheckArgs, TypesEqual, Comparable;
  }

  /** The schema of a finished SELECT lists the names and types of what it shows. */
  lemma SchemaIsShown(code: Code, ip: nat, m: Machine, m': Machine, db: Db, functions: Functions, mode: Mode, st: Typing)
    requires NamesOk(code, db) && Exec(code).Done? && ip < |code| && code[ip].EmitQuery?
    requires Check(code, |code|, functions, mode) == Done(st)
    requires Exec(code[..ip]) == Done(m) && Step(code[ip], ip, m) == Done(m')
    ensures m'.effects == m.effects + [Show(m.emitted)]
    ensures ip in st.tables && |st.tables[ip].types| == |st.tables[ip].names| == |m.emitted|
    ensures forall k :: 0 <= k < |m.emitted| ==>
              && m.emitted[k].name == st.tables[ip].names[k]
              && TypeOfValue(m.emitted[k].value, db, functions) == Some(st.tables[ip].types[k])
    ensures Convertible(ip, st.tables) <==> Showable(Show(m.emitted), db, functions)
  {
    hide NamesOk, Exec, Check, Agree, TypeOfValue, EmittedSchema, EmittedAgrees, OpenColumns;
    SchemaStays(code, ip, |code|, functions, mode);
    CheckBefore(code, ip, functions, mode);
    var _ := RunJudged(code, ip, db, functions, mode);
    var before := Check(code, ip, functions, mode).value;
    NamesAt(code, ip, db);
    OpenColumnsAre(code[..ip]);
    Known(code, ip, m, before, db, functions, mode);
    SchemaOfEmitted(code, m, before, ip, |m.emitted|, db, functions);
    assert m.emitted[..|m.emitted|] == m.emitted;
    forall k | 0 <= k < |m.emitted|
      ensures TypeOfValue(m.emitted[k].value, db, functions) == Some(st.tables[ip].types[k])
    {
    }
  }

  lemma CheckBefore(code: Code, ip: nat, functions: Functions, mode: Mode)
    requires ip < |code| && Check(code, ip + 1, functions, mode).Done?
    ensures Check(code, ip, functions, mode).Done?
    ensures var st := Check(code, ip, functions, mode).value;
            WellTyped(st) && Check(code, ip + 1, functions, mode) == CheckOne(code, ip, st, functions, mode)
  {
    hide CheckOne;
  }

  lemma OtherEffects(i: Instr, ip: nat, m: Machine, db: Db, functions: Functions)
    requires Step(i, ip, m).Done? && !i.EmitQuery?
    ensures AllShowable(Step(i, ip, m).value.effects, db, functions) <==> AllShowable(m.effects, db, functions)
  {
    hide ShownHasColumnType;
    var m' := Step(i, ip, m).value;
    assert forall k :: 0 <= k < |m.effects| ==> m'.effects[k] == m.effects[k];
  }

  lemma OneMoreShown(effects: seq<Effect>, e: Effect, db: Db, functions: Functions)
    ensures AllShowable(effects + [e], db, functions) <==>
            AllShowable(effects, db, functions) && Showable(e, db, functions)
  {
    hide Showable;
    assert forall k :: 0 <= k < |effects| ==> (effects + [e])[k] == effects[k];
    assert (effects + [e])[|effects|] == e;
  }

  /** On any accepted program, the executor goes as far as everything it shows has a column type. */
  lemma {:induction false} RunIff(code: Code, n: nat, db: Db, functions: Functions, mode: Mode, st: Typing)
    requires NamesOk(code, db) && Exec(code).Done? && n <= |code| && Check(code, |code|, functions, mode) == Done(st)
    ensures Exec(code[..n]).Done?
    ensures Run(code[..n], st.tables) ==
            if AllShowable(Exec(code[..n]).value.effects, db, functions) then Exec(code[..n]) else Trapped
  {
    hide NamesOk, Exec, Check, Step, AllShowable, Showable, Convertible;
    if n == 0 {
      assert code[..0] == [];
      NothingRun();
      NothingShown(db, functions);
    } else {
      var ip := n - 1;
      RunIff(code, ip, db, functions, mode, st);
      var m, m' := StepAt(code, ip);
      assert code[..n][..ip] == code[..ip] && code[..n][ip] == code[ip];
      if code[ip].EmitQuery? {
        SchemaIsShown(code, ip, m, m', db, functions, mode, st);
        OneMoreShown(m.effects, Show(m.emitted), db, functions);
      } else {
        OtherEffects(code[ip], ip, m, db, functions);
      }
    }
  }

  lemma NothingShown(db: Db, functions: Functions)
    ensures AllShowable([], db, functions)
  {
  }

  // ---------- Queries ----------

  /**
   An accepted query has exactly the effects its statements ask for if every statement is clean and everything shown
   has a column type; otherwise the server stops.
   */
  lemma AcceptedRunIff(stmts: seq<Stmt>, db: Db, functions: Functions, mode: Mode, st: Typing)
    requires WellFormedDb(db) && forall i :: 0 <= i < |stmts| ==> Modelled(stmts[i]) && StarsOnTop(stmts[i])
    requires LowerQuery(stmts, |stmts|, db).Done?
    requires var code := LowerQuery(stmts, |stmts|, db).value; Check(code, |code|, functions, mode) == Done(st)
    ensures var r, effects := Run(LowerQuery(stmts, |stmts|, db).value, st.tables), Effects(stmts, |stmts|, db);
            if (forall i :: 0 <= i < |stmts| ==> Clean(stmts[i])) && AllShowable(effects, db, functions) then
              r.Done? && r.value.effects == effects
            else r.Trapped?
  {
    hide Idle, Exec, LowerStmt, EffectOf, Clean, StarsOnTop, Check, AllShowable, Run;
    var n, code := |stmts|, LowerQuery(stmts, |stmts|, db).value;
    var m := LoweringPreservesMeaning(stmts, n, db);
    RunTraps(code, st.tables);
    if forall i :: 0 <= i < n ==> Clean(stmts[i]) {
      IdleIs(code, m);
      QueryNames(stmts, n, db);
      RunIff(code, |code|, db, functions, mode, st);
      assert code[..|code|] == code;
    }
  }

  // ---------- A query that is accepted and stops the server ----------

  /** `SELECT NULL FROM t;` */
  const NULL_QUERY := ExprStmt(Select([NullLit], Ident("t")))

  lemma NullLowers(db: Db)
    requires db == map["t" := Schema(["a"], [INTEGER])]
    ensures LowerStmt(NULL_QUERY, db, []).Done? && StarsOnTop(NULL_QUERY) && Clean(NULL_QUERY)
  {
    hide CompileArgs;
    var s0 := State([] + [FetchTable("t", db["t"])], map[][Ident("t") := 0]);
    assert LowerTable(Ident("t"), db, []) == Done(Single(s0, 0));
    assert LowerNode(NullLit, InTable(0), db, s0).Done?;
    assert LowerItems([NullLit], 0, 0, db, s0) == Done((s0, 0));
  }

  lemma NullEffect(db: Db, functions: Functions)
    requires "t" in db
    ensures var e := EffectOf(NULL_QUERY, db);
            EffectTyped(e, db, functions) && EffectOrderFree(e) && !e.InsertRows? && !Showable(e, db, functions)
  {
    assert ShownItems([NullLit], 0, "t", db["t"]) == [];
    assert EffectOf(NULL_QUERY, db).columns == [Shown("t", Nothing, "")];
  }

  /** The checker, as written or repaired, accepts it, and the server stops. */
  lemma NullExample(functions: Functions, mode: Mode)
    ensures var db := map["t" := Schema(["a"], [INTEGER])];
            && Runnable([NULL_QUERY], db)
            && Checked([NULL_QUERY], db, functions, mode).Done?
            && Run(LowerQuery([NULL_QUERY], 1, db).value,
                   Checked([NULL_QUERY], db, functions, mode).value.tables).Trapped?
  {
    hide LowerStmt, EffectOf, Clean, StarsOnTop, EffectTyped, EffectOrderFree, Check, Showable, Run;
    var db := map["t" := Schema(["a"], [INTEGER])];
    NullLowers(db);
    NullEffect(db, functions);
    OneStmt(NULL_QUERY, db);
    AcceptsIff([NULL_QUERY], db, functions);
    WrittenAcceptsIff([NULL_QUERY], db, functions);
    assert !Showable(Effects([NULL_QUERY], 1, db)[0], db, functions);
    AcceptedRunIff([NULL_QUERY], db, functions, mode, Checked([NULL_QUERY], db, functions, mode).value);
  }
}
