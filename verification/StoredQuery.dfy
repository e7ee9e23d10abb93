/**
 From a query to the stored rows: the effects that an accepted query has are statements that a stored table can carry
 out, and what they leave in the tables is what SQL says. Values are constants and columns of the same table, the columns
 of an INSERT come in the order of the table, at most 32 rows at a time, and SET clauses do not get in each other's way;
 each of these conditions has its own theorem in modules TableStore and SetClauses.
 */
module StoredQuery {
  import opened Ast
  import opened CheckerConditions
  import opened CheckerSoundness
  import opened Execution
  import opened Lowering
  import opened QueryRun
  import opened RecordStore
  import opened SetClauses
  import opened StatementMeaning
  import opened TypeCheck
  import opened Wrappers
  import Layout = RecordLayout
  import Store = TableStore

  // ---------- Values that can be stored ----------

  /** What a constant puts into a cell. NULL has no value, and a string that is too long stops the server. */
  function Plain(v: Sym): Option<Layout.Value> {
    match v
    case Number(i) => Some(Layout.Int(i))
    case String(s) =>
      if |s| < Layout.TEXT_SIZE && forall i :: 0 <= i < |s| ==> s[i] as int < 256 then
        Some(Layout.Text(|s|, seq(Layout.TEXT_SIZE - 1,
          i requires 0 <= i < Layout.TEXT_SIZE - 1 => if i < |s| && s[i] as int < 256 then s[i] as int else 0)))
      else None
    case _ => None
  }

  /** A constant, or a column of the table itself other than an image. */
  predicate Direct(v: Sym, table: string, schema: Schema)
    requires WellFormed(schema)
  {
    || Plain(v).Some?
    || (v.ColumnOf? && v.table == table && v.column in schema.names
        && schema.types[Store.IndexIn(schema.names, v.column)] != Layout.PNG)
  }

  function SourceOf(v: Sym, schema: Schema): Store.Source
    requires v.ColumnOf? ==> v.column in schema.names
    requires !v.ColumnOf? ==> Plain(v).Some?
  {
    if v.ColumnOf? then Store.Column(Store.IndexIn(schema.names, v.column)) else Store.Constant(Plain(v).value)
  }

  /** A row of constants, its columns in the order of the table. */
  predicate DirectRow(row: seq<Cell>, schema: Schema) {
    && |row| == |schema.names|
    && forall k :: 0 <= k < |row| ==> row[k].column == schema.names[k] && Plain(row[k].value).Some?
  }

  predicate DirectCells(cells: seq<Cell>, table: string, schema: Schema)
    requires WellFormed(schema)
  {
    forall k :: 0 <= k < |cells| ==> cells[k].column in schema.names && Direct(cells[k].value, table, schema)
  }

  function ValuesOf(row: seq<Cell>): (values: Row)
    requires forall k :: 0 <= k < |row| ==> Plain(row[k].value).Some?
    ensures |values| == |row|
  {
    seq(|row|, k requires 0 <= k < |row| => Plain(row[k].value).value)
  }

  function RowsOf(rows: seq<seq<Cell>>, schema: Schema): (input: seq<Row>)
    requires forall r :: 0 <= r < |rows| ==> DirectRow(rows[r], schema)
    ensures |input| == |rows|
  {
    seq(|rows|, r requires 0 <= r < |rows| && DirectRow(rows[r], schema) => ValuesOf(rows[r]))
  }

  function AssignmentsOf(cells: seq<Cell>, table: string, schema: Schema): (sets: seq<Store.Assignment>)
    requires WellFormed(schema) && DirectCells(cells, table, schema)
    ensures |sets| == |cells|
  {
    seq(|cells|, k requires 0 <= k < |cells| =>
      Store.Assignment(Store.IndexIn(schema.names, cells[k].column), SourceOf(cells[k].value, schema)))
  }

  /** The condition on an effect under which what is stored is what SQL says. */
  predicate Storable(e: Effect, db: Db)
    requires WellFormedDb(db)
  {
    match e
    case Show(_) => true
    case InsertRows(t, rows) =>
      t in db && |rows| <= BUFFER_CAPACITY && forall r :: 0 <= r < |rows| ==> DirectRow(rows[r], db[t])
    case WriteColumns(t, cells) =>
      t in db && DirectCells(cells, t, db[t]) && OrderDoesNotShow(AssignmentsOf(cells, t, db[t]))
    case DeleteRows(t) => t in db
  }

  // ---------- Accepted by the checker, storable in the file ----------

  /** A table as CREATE TABLE makes it. */
  predicate Created(schema: Schema) {
    && WellFormed(schema) && Store.NoRepeats(schema.names)
    && forall i :: 0 <= i < |schema.types| ==> Layout.Creatable(schema.types[i])
  }

  lemma {:induction false} FoundAtIndex(schema: Schema, name: string)
    requires WellFormed(schema) && name in schema.names
    ensures FindColumn(Typed(schema), name) == Some(TypeOf(schema.types[Store.IndexIn(schema.names, name)]))
    decreases |schema.names|
  {
    if schema.names[0] != name {
      var rest := Schema(schema.names[1..], schema.types[1..]);
      FoundAtIndex(rest, name);
      assert Typed(rest) == TypedSchema(Typed(schema).names[1..], Typed(schema).types[1..]);
    }
  }

  /** A constant that the checker accepts for a column has the size of its cell. */
  lemma PlainFits(c: Cell, t: string, i: nat, db: Db, functions: Functions)
    requires t in db && Created(db[t]) && i < |db[t].names| && c.column in db[t].names
    requires i == Store.IndexIn(db[t].names, c.column)
    requires CellTyped(c, t, db, functions) && Plain(c.value).Some?
    ensures Layout.Fits(Plain(c.value).value, db[t].types[i])
  {
    FoundAtIndex(db[t], c.column);
    assert Layout.Creatable(db[t].types[i]);
  }

  lemma SourceFitsCell(c: Cell, t: string, db: Db, functions: Functions)
    requires t in db && Created(db[t]) && c.column in db[t].names && Direct(c.value, t, db[t])
    requires CellTyped(c, t, db, functions)
    ensures Store.SourceFits(SourceOf(c.value, db[t]), db[t].types, Store.IndexIn(db[t].names, c.column))
  {
    var i := Store.IndexIn(db[t].names, c.column);
    if c.value.ColumnOf? {
      FoundAtIndex(db[t], c.column);
      FoundAtIndex(db[t], c.value.column);
      assert Layout.Creatable(db[t].types[i]);
    } else {
      PlainFits(c, t, i, db, functions);
    }
  }

  lemma {:induction false} InConcat(rows: seq<seq<Cell>>, r: nat, c: Cell)
    requires r < |rows| && c in rows[r]
    ensures c in Concat(rows)
  {
    var n := |rows| - 1;
    if r < n {
      assert rows[..n][r] == rows[r];
      InConcat(rows[..n], r, c);
    }
  }

  lemma IndexInNames(names: seq<string>, k: nat)
    requires Store.NoRepeats(names) && k < |names|
    ensures Store.IndexIn(names, names[k]) == k
  {
  }

  lemma RowsFit(t: string, rows: seq<seq<Cell>>, db: Db, functions: Functions)
    requires t in db && Created(db[t]) && forall r :: 0 <= r < |rows| ==> DirectRow(rows[r], db[t])
    requires CellsTyped(Concat(rows), t, db, functions)
    ensures Store.AllFit(RowsOf(rows, db[t]), db[t].types)
  {
    hide CellTyped, Plain;
    forall r, k | 0 <= r < |rows| && 0 <= k < |db[t].names|
      ensures Layout.Fits(ValuesOf(rows[r])[k], db[t].types[k])
    {
      assert DirectRow(rows[r], db[t]);
      var c := rows[r][k];
      InConcat(rows, r, c);
      IndexInNames(db[t].names, k);
      PlainFits(c, t, k, db, functions);
    }
  }

  lemma AssignmentsAreFit(t: string, cells: seq<Cell>, db: Db, functions: Functions)
    requires t in db && Created(db[t]) && DirectCells(cells, t, db[t]) && CellsTyped(cells, t, db, functions)
    ensures Store.AssignmentsFit(AssignmentsOf(cells, t, db[t]), db[t].types)
  {
    hide CellTyped, Plain, Store.SourceFits;
    var sets := AssignmentsOf(cells, t, db[t]);
    forall k | 0 <= k < |sets|
      ensures Store.SourceFits(sets[k].source, db[t].types, sets[k].column)
    {
      assert Direct(cells[k].value, t, db[t]);
      SourceFitsCell(cells[k], t, db, functions);
    }
  }

  // ---------- What is done with the rows ----------

  type Stores = map<string, Store.Contents>

  ghost predicate Ready(stores: Stores, db: Db) {
    && WellFormedDb(db)
    && forall t <- db :: Created(db[t]) && t in stores && Store.AllFit(stores[t].rows, db[t].types)
  }

  /** The first column called `id`, or the first column. */
  function PrimaryKey(schema: Schema): (k: nat)
    ensures if "id" in schema.names then k < |schema.names| && schema.names[k] == "id" else k == 0
  {
    if "id" in schema.names then Store.IndexIn(schema.names, "id") else 0
  }

  function TableOf(e: Effect): string
    requires !e.Show?
  {
    e.table
  }

  /** The nodes of the query graph that change a table, as statements of the store. */
  function Operations(e: Effect, db: Db): seq<Store.Statement>
    requires WellFormedDb(db) && Storable(e, db)
  {
    match e
    case Show(_) => []
    case InsertRows(t, rows) => [Store.InsertRows(Store.Kept(RowsOf(rows, db[t]), 0))]
    case WriteColumns(t, cells) => Updates(AssignmentsOf(cells, t, db[t]))
    case DeleteRows(_) => [Store.DeleteRows]
  }

  function Updates(sets: seq<Store.Assignment>): (run: seq<Store.Statement>)
    ensures |run| == |sets|
  {
    seq(|sets|, k requires 0 <= k < |sets| => Store.UpdateColumn(sets[k].column, sets[k].source))
  }

  /** Whatever the checker accepts, the store can do: no value has the wrong size for its cell. */
  lemma AcceptedIsLegal(e: Effect, db: Db, functions: Functions)
    requires WellFormedDb(db) && (forall t <- db :: Created(db[t])) && Storable(e, db) && EffectTyped(e, db, functions)
    ensures !e.Show? ==> forall k :: 0 <= k < |Operations(e, db)| ==> Store.Legal(Operations(e, db)[k], db[e.table].types)
  {
    hide DirectRow, DirectCells, CellsTyped, Store.Kept, RowFits, Store.SourceFits, RowsOf, AssignmentsOf;
    match e
    case InsertRows(t, rows) =>
      RowsFit(t, rows, db, functions);
      Store.InsertIsCompleteIff(RowsOf(rows, db[t]));
    case WriteColumns(t, cells) => AssignmentsAreFit(t, cells, db, functions);
    case _ =>
  }

  /** `run_single_node` for the nodes of an effect. */
  ghost function Perform(stores: Stores, e: Effect, db: Db, functions: Functions): (stores': Stores)
    requires Ready(stores, db) && Storable(e, db) && EffectTyped(e, db, functions)
    ensures Ready(stores', db)
  {
    if e.Show? then stores
    else
      AcceptedIsLegal(e, db, functions);
      var schema := db[e.table];
      stores[e.table := Store.RunStatements(stores[e.table], Operations(e, db), schema.types, PrimaryKey(schema))]
  }

  ghost predicate AllStorable(effects: seq<Effect>, db: Db, functions: Functions) {
    WellFormedDb(db)
    && forall i :: 0 <= i < |effects| ==> Storable(effects[i], db) && EffectTyped(effects[i], db, functions)
  }

  ghost function PerformAll(stores: Stores, effects: seq<Effect>, db: Db, functions: Functions): (stores': Stores)
    requires Ready(stores, db) && AllStorable(effects, db, functions)
    ensures Ready(stores', db)
  {
    if effects == [] then stores
    else Perform(PerformAll(stores, effects[..|effects| - 1], db, functions), effects[|effects| - 1], db, functions)
  }

  // ---------- What SQL says ----------

  /** The value of v in a row of the table. */
  function Evaluate(v: Sym, row: Row, schema: Schema): Option<Layout.Value> {
    if v.ColumnOf? && v.column in schema.names && Store.IndexIn(schema.names, v.column) < |row| then
      Some(row[Store.IndexIn(schema.names, v.column)])
    else Plain(v)
  }

  /** The cell of a named column after an UPDATE: the last clause for it decides, evaluated in the row as it was. */
  function SqlCell(cells: seq<Cell>, n: nat, name: string, before: Layout.Value, row: Row, schema: Schema): Layout.Value
    requires n <= |cells|
  {
    if n == 0 then before
    else if cells[n - 1].column == name && Evaluate(cells[n - 1].value, row, schema).Some? then
      Evaluate(cells[n - 1].value, row, schema).value
    else SqlCell(cells, n - 1, name, before, row, schema)
  }

  function SqlUpdated(row: Row, cells: seq<Cell>, schema: Schema): (r: Row)
    ensures |r| == |row|
  {
    seq(|row|, c requires 0 <= c < |row| =>
      if c < |schema.names| then SqlCell(cells, |cells|, schema.names[c], row[c], row, schema) else row[c])
  }

  /** The row that an INSERT names. */
  function SqlInserted(row: seq<Cell>, schema: Schema): Row
    requires DirectRow(row, schema)
  {
    var names := seq(|row|, k requires 0 <= k < |row| => row[k].column);
    assert names == schema.names;
    Store.NamedRow(schema.names, names, ValuesOf(row))
  }

  /** The rows of its table after an effect. */
  function SqlRows(rows: seq<Row>, e: Effect, db: Db): seq<Row>
    requires WellFormedDb(db) && Storable(e, db)
  {
    match e
    case Show(_) => rows
    case InsertRows(t, new_) =>
      rows + seq(|new_|, r requires 0 <= r < |new_| && DirectRow(new_[r], db[t]) => SqlInserted(new_[r], db[t]))
    case WriteColumns(t, cells) => seq(|rows|, r requires 0 <= r < |rows| => SqlUpdated(rows[r], cells, db[t]))
    case DeleteRows(_) => []
  }

  type Tables = map<string, seq<Row>>

  function Sql(tables: Tables, e: Effect, db: Db): (tables': Tables)
    requires WellFormedDb(db) && Storable(e, db) && db.Keys <= tables.Keys
    ensures db.Keys <= tables'.Keys
  {
    if e.Show? then tables else tables[e.table := SqlRows(tables[e.table], e, db)]
  }

  ghost function SqlAll(tables: Tables, effects: seq<Effect>, db: Db): (tables': Tables)
    requires WellFormedDb(db) && (forall i :: 0 <= i < |effects| ==> Storable(effects[i], db)) && db.Keys <= tables.Keys
    ensures db.Keys <= tables'.Keys
  {
    if effects == [] then tables
    else Sql(SqlAll(tables, effects[..|effects| - 1], db), effects[|effects| - 1], db)
  }

  function RowsIn(stores: Stores): Tables {
    map t | t in stores :: stores[t].rows
  }

  // ---------- The two agree ----------

  lemma InsertStored(c: Store.Contents, t: string, rows: seq<seq<Cell>>, db: Db)
    requires WellFormedDb(db) && Storable(InsertRows(t, rows), db) && Created(db[t]) && Store.AllFit(c.rows, db[t].types)
    requires Store.AllFit(Store.Kept(RowsOf(rows, db[t]), 0), db[t].types)
    ensures Store.RunStatements(c, Operations(InsertRows(t, rows), db), db[t].types, PrimaryKey(db[t])).rows ==
            SqlRows(c.rows, InsertRows(t, rows), db)
  {
    hide Plain, Store.Kept, Store.Keys, RowFits;
    var schema := db[t];
    var input := RowsOf(rows, schema);
    Store.InsertIsCompleteIff(input);
    OneStatement(c, Store.InsertRows(input), schema.types, PrimaryKey(schema));
    forall r | 0 <= r < |rows|
      ensures SqlInserted(rows[r], schema) == input[r]
    {
      assert DirectRow(rows[r], schema);
      var names := seq(|rows[r]|, k requires 0 <= k < |rows[r]| => rows[r][k].column);
      assert names == schema.names;
      forall j | 0 <= j < |names|
        ensures Store.IndexIn(names, names[j]) == j
      {
        IndexInNames(names, j);
      }
    }
  }

  lemma OneStatement(c: Store.Contents, s: Store.Statement, types: seq<Layout.ColumnType>, pk: nat)
    requires Store.AllFit(c.rows, types) && Store.Legal(s, types)
    ensures Store.RunStatements(c, [s], types, pk) == Store.Step(c, s, types, pk)
  {
    hide Store.Step, Store.Legal;
    assert [s][..0] == [];
    assert Store.RunStatements(c, [], types, pk) == c;
  }

  /** Column after column, every row is updated clause by clause. */
  lemma {:induction false} UpdatesRun(c: Store.Contents, sets: seq<Store.Assignment>, n: nat, types: seq<Layout.ColumnType>,
                                      pk: nat)
    requires Store.AllFit(c.rows, types) && Store.AssignmentsFit(sets, types) && n <= |sets|
    ensures forall k :: 0 <= k < n ==> Store.Legal(Updates(sets)[..n][k], types)
    ensures var rows := Store.RunStatements(c, Updates(sets)[..n], types, pk).rows;
            && |rows| == |c.rows|
            && forall r :: 0 <= r < |rows| ==> rows[r] == Store.OneByOne(c.rows[r], sets, types, n)
  {
    hide RowFits, Store.SourceFits, Store.SourceValue;
    if n > 0 {
      UpdatesRun(c, sets, n - 1, types, pk);
      assert Updates(sets)[..n][..n - 1] == Updates(sets)[..n - 1];
      assert Updates(sets)[..n][n - 1] == Store.UpdateColumn(sets[n - 1].column, sets[n - 1].source);
    }
  }

  /** The last source of a column is what SQL evaluates for it. */
  lemma {:induction false} LastSourceIsSql(row: Row, cells: seq<Cell>, t: string, schema: Schema, n: nat, c: nat)
    requires Created(schema) && DirectCells(cells, t, schema) && n <= |cells|
    requires |row| == |schema.names| && c < |row|
    ensures var s := LastSource(c, AssignmentsOf(cells, t, schema), n);
            && (s.Column? ==> s.index < |row|)
            && Store.SourceValue(s, row) == SqlCell(cells, n, schema.names[c], row[c], row, schema)
  {
    hide Plain;
    if n > 0 {
      LastSourceIsSql(row, cells, t, schema, n - 1, c);
      var cell := cells[n - 1];
      assert Direct(cell.value, t, schema);
      IndexInNames(schema.names, c);
    }
  }

  lemma UpdateStored(c: Store.Contents, t: string, cells: seq<Cell>, db: Db)
    requires WellFormedDb(db) && Storable(WriteColumns(t, cells), db) && Created(db[t])
    requires Store.AllFit(c.rows, db[t].types) && Store.AssignmentsFit(AssignmentsOf(cells, t, db[t]), db[t].types)
    requires forall k :: 0 <= k < |cells| ==> Store.Legal(Updates(AssignmentsOf(cells, t, db[t]))[k], db[t].types)
    ensures Store.RunStatements(c, Operations(WriteColumns(t, cells), db), db[t].types, PrimaryKey(db[t])).rows ==
            SqlRows(c.rows, WriteColumns(t, cells), db)
  {
    hide Store.RunStatements, Store.OneByOne, AllAtOnce, SqlCell, DirectCells, Store.AssignmentsFit, OrderDoesNotShow,
      Store.SourceValue, LastSource;
    var schema, sets, n := db[t], AssignmentsOf(cells, t, db[t]), |cells|;
    UpdatesRun(c, sets, n, schema.types, PrimaryKey(schema));
    assert Updates(sets)[..n] == Updates(sets);
    forall r | 0 <= r < |c.rows|
      ensures Store.OneByOne(c.rows[r], sets, schema.types, n) == SqlUpdated(c.rows[r], cells, schema)
    {
      var row := c.rows[r];
      SameForRow(row, sets, schema.types);
      forall k | 0 <= k < |row|
        ensures AllAtOnce(row, sets, schema.types, n)[k] == SqlCell(cells, n, schema.names[k], row[k], row, schema)
      {
        AtOnceReads(row, sets, schema.types, n, k);
        LastSourceIsSql(row, cells, t, schema, n, k);
      }
    }
  }

  /** One effect: its table holds what SQL says, and the other tables what they held. */
  lemma EffectStored(stores: Stores, e: Effect, db: Db, functions: Functions)
    requires Ready(stores, db) && Storable(e, db) && EffectTyped(e, db, functions)
    ensures RowsIn(Perform(stores, e, db, functions)) == Sql(RowsIn(stores), e, db)
  {
    hide SqlRows, Operations, Store.RunStatements, Store.AllFit, Created, DirectRow, DirectCells, OrderDoesNotShow;
    AcceptedIsLegal(e, db, functions);
    match e
    case Show(_) =>
    case InsertRows(t, rows) =>
      KeptFits(t, rows, db, functions);
      InsertStored(stores[t], t, rows, db);
    case WriteColumns(t, cells) =>
      AssignmentsAreFit(t, cells, db, functions);
      UpdatesLegal(t, cells, db);
      UpdateStored(stores[t], t, cells, db);
    case DeleteRows(t) => DeleteStored(stores[t], t, db);
  }

  lemma KeptFits(t: string, rows: seq<seq<Cell>>, db: Db, functions: Functions)
    requires WellFormedDb(db) && Storable(InsertRows(t, rows), db) && Created(db[t])
    requires EffectTyped(InsertRows(t, rows), db, functions)
    ensures Store.AllFit(Store.Kept(RowsOf(rows, db[t]), 0), db[t].types)
  {
    hide Store.Kept, CellsTyped, Concat;
    RowsFit(t, rows, db, functions);
    Store.InsertIsCompleteIff(RowsOf(rows, db[t]));
  }

  lemma UpdatesLegal(t: string, cells: seq<Cell>, db: Db)
    requires WellFormedDb(db) && Storable(WriteColumns(t, cells), db)
    requires Store.AssignmentsFit(AssignmentsOf(cells, t, db[t]), db[t].types)
    ensures forall k :: 0 <= k < |cells| ==> Store.Legal(Updates(AssignmentsOf(cells, t, db[t]))[k], db[t].types)
  {
    hide Store.SourceFits, AssignmentsOf;
  }

  lemma DeleteStored(c: Store.Contents, t: string, db: Db)
    requires WellFormedDb(db) && t in db && Store.AllFit(c.rows, db[t].types)
    ensures Store.RunStatements(c, Operations(DeleteRows(t), db), db[t].types, PrimaryKey(db[t])).rows ==
            SqlRows(c.rows, DeleteRows(t), db)
  {
    OneStatement(c, Store.DeleteRows, db[t].types, PrimaryKey(db[t]));
  }

  lemma {:induction false} EffectsStored(stores: Stores, effects: seq<Effect>, db: Db, functions: Functions)
    requires Ready(stores, db) && AllStorable(effects, db, functions)
    ensures RowsIn(PerformAll(stores, effects, db, functions)) == SqlAll(RowsIn(stores), effects, db)
  {
    hide Perform, Sql, Storable, EffectTyped;
    if effects != [] {
      var before := effects[..|effects| - 1];
      EffectsStored(stores, before, db, functions);
      EffectStored(PerformAll(stores, before, db, functions), effects[|effects| - 1], db, functions);
    }
  }

  // ---------- Queries ----------

  lemma AcceptedIsTyped(stmts: seq<Stmt>, db: Db, functions: Functions, mode: Mode)
    requires Runnable(stmts, db) && Checked(stmts, db, functions, mode).Done?
    ensures var effects := Effects(stmts, |stmts|, db);
            forall i :: 0 <= i < |effects| ==> EffectTyped(effects[i], db, functions)
  {
    hide LowerStmt, EffectOf, Clean, StarsOnTop, EffectTyped, EffectOrderFree, Checked;
    EffectsAt(stmts, |stmts|, db);
    if mode == Repaired {
      AcceptsIff(stmts, db, functions);
    } else {
      WrittenAcceptsIff(stmts, db, functions);
    }
  }

  /**
   From the query to the file: a query that compiles, is clean, is accepted by the checker, as written or repaired, and
   shows and stores only what can be shown and stored, runs; and when the executor has carried out its effects one after
   the other, every table holds the rows that its statements, read as SQL, make of the rows it held.
   */
  lemma AcceptedQueryStores(stmts: seq<Stmt>, db: Db, functions: Functions, mode: Mode, stores: Stores)
    requires Runnable(stmts, db) && Checked(stmts, db, functions, mode).Done? && Ready(stores, db)
    requires var effects := Effects(stmts, |stmts|, db);
             AllShowable(effects, db, functions) && forall i :: 0 <= i < |effects| ==> Storable(effects[i], db)
    ensures var code := LowerQuery(stmts, |stmts|, db).value;
            var effects, r := Effects(stmts, |stmts|, db), Run(code, Checked(stmts, db, functions, mode).value.tables);
            && r.Done? && AllStorable(r.value.effects, db, functions)
            && RowsIn(PerformAll(stores, r.value.effects, db, functions)) == SqlAll(RowsIn(stores), effects, db)
  {
    hide LowerStmt, EffectOf, Clean, StarsOnTop, EffectTyped, Check, Run, Storable, Showable, Ready;
    var effects := Effects(stmts, |stmts|, db);
    AcceptedIsTyped(stmts, db, functions, mode);
    AcceptedRunIff(stmts, db, functions, mode, Checked(stmts, db, functions, mode).value);
    EffectsStored(stores, effects, db, functions);
  }
}
