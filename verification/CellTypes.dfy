/**
 Which values go into which columns, and which values can be compared, type by type.
 */
module CellTypes {
  import opened Ast
  import opened CheckerSoundness
  import opened Execution
  import opened Lowering
  import opened QueryRun
  import opened StoredQuery
  import opened TypeCheck
  import opened Wrappers
  import Layout = RecordLayout
  import Store = TableStore

  /** The types that a column takes values of; NULL goes into every column, and parts of an image into an image. */
  function Takes(t: Layout.ColumnType): set<Type> {
    match t
    case INTEGER => {TYPE_INT, TYPE_NULL}
    case FLOAT => {TYPE_FLOAT, TYPE_NULL}
    case DOUBLE => {TYPE_DOUBLE, TYPE_NULL}
    case TEXT => {TYPE_STRING, TYPE_NULL}
    case BOOLEAN => {TYPE_BOOL, TYPE_NULL}
    case PNG => {TYPE_PNG, TYPE_IMAGE_CHUNK, TYPE_NULL}
  }

  /** The type of column i of a table. */
  lemma ColumnHasType(t: string, i: nat, db: Db)
    requires t in db && WellFormed(db[t]) && Store.NoRepeats(db[t].names) && i < |db[t].names|
    ensures TypeOfColumn(t, db[t].names[i], db) == Some(TypeOf(db[t].types[i]))
  {
    FoundAtIndex(db[t], db[t].names[i]);
    IndexInNames(db[t].names, i);
  }

  /** The checker accepts a value for a column exactly when the column takes values of its type. */
  lemma CellTypedIff(v: Sym, t: string, i: nat, db: Db, functions: Functions)
    requires t in db && WellFormed(db[t]) && Store.NoRepeats(db[t].names) && i < |db[t].names|
    ensures CellTyped(Cell(db[t].names[i], v), t, db, functions) <==>
            TypeOfValue(v, db, functions).Some? && TypeOfValue(v, db, functions).value in Takes(db[t].types[i])
  {
    hide TypeOfValue, TypeOfColumn;
    ColumnHasType(t, i, db);
  }

  /** A constant, NULL or column as the value of a column. */
  lemma LeafTypedIff(v: Sym, t: string, i: nat, db: Db, functions: Functions)
    requires t in db && WellFormed(db[t]) && Store.NoRepeats(db[t].names) && i < |db[t].names|
    ensures var typed, kind := CellTyped(Cell(db[t].names[i], v), t, db, functions), db[t].types[i];
            match v
            case Number(_) => typed <==> kind == Layout.INTEGER
            case String(_) => typed <==> kind == Layout.TEXT
            case True => typed <==> kind == Layout.BOOLEAN
            case False => typed <==> kind == Layout.BOOLEAN
            case Nothing => typed
            case _ => true
  {
    hide TypeOfColumn;
    CellTypedIff(v, t, i, db, functions);
  }

  /** A column of a table as the value of a column: both hold the same kind of values. */
  lemma ColumnTypedIff(u: string, j: nat, t: string, i: nat, db: Db, functions: Functions)
    requires t in db && WellFormed(db[t]) && Store.NoRepeats(db[t].names) && i < |db[t].names|
    requires u in db && WellFormed(db[u]) && Store.NoRepeats(db[u].names) && j < |db[u].names|
    ensures CellTyped(Cell(db[t].names[i], ColumnOf(u, db[u].names[j])), t, db, functions) <==> db[u].types[j] == db[t].types[i]
  {
    hide TypeOfColumn;
    CellTypedIff(ColumnOf(u, db[u].names[j]), t, i, db, functions);
    ColumnHasType(u, j, db);
  }

  /** A constant is accepted for a column exactly when it fits a cell of the store, and NULL always. */
  lemma StoredIff(v: Sym, t: string, i: nat, db: Db, functions: Functions)
    requires t in db && Created(db[t]) && i < |db[t].names|
    ensures CellTyped(Cell(db[t].names[i], Nothing), t, db, functions)
    ensures Plain(v).Some? ==>
              (CellTyped(Cell(db[t].names[i], v), t, db, functions) <==> Layout.Fits(Plain(v).value, db[t].types[i]))
  {
    LeafTypedIff(Nothing, t, i, db, functions);
    LeafTypedIff(v, t, i, db, functions);
  }

  /** The types of columns, which a SELECT can show, are those other than NULL and parts of an image. */
  lemma ShownIff(v: Sym, db: Db, functions: Functions)
    ensures ShownHasColumnType(v, db, functions) <==>
            exists t: Layout.ColumnType :: TypeOfValue(v, db, functions) == Some(TypeOf(t))
  {
    hide TypeOfValue;
    var type_ := TypeOfValue(v, db, functions);
    if ShownHasColumnType(v, db, functions) {
      var columns := [Layout.INTEGER, Layout.FLOAT, Layout.DOUBLE, Layout.TEXT, Layout.BOOLEAN, Layout.PNG];
      assert exists k :: 0 <= k < |columns| && TypeOf(columns[k]) == type_.value by {
        match type_.value
        case TYPE_INT => assert TypeOf(columns[0]) == type_.value;
        case TYPE_FLOAT => assert TypeOf(columns[1]) == type_.value;
        case TYPE_DOUBLE => assert TypeOf(columns[2]) == type_.value;
        case TYPE_STRING => assert TypeOf(columns[3]) == type_.value;
        case TYPE_BOOL => assert TypeOf(columns[4]) == type_.value;
        case TYPE_PNG => assert TypeOf(columns[5]) == type_.value;
      }
    }
  }

  /**
   Two values can be compared when both are numbers, texts or truth values, or NULL stands right of one of these, or NULL
   stands left of anything.
   */
  lemma ComparedTypedIff(op: Operator, lhs: Sym, rhs: Sym, db: Db, functions: Functions)
    ensures var l, r := TypeOfValue(lhs, db, functions), TypeOfValue(rhs, db, functions);
            var compared := TypeOfValue(Compared(op, lhs, rhs), db, functions);
            && (compared.Some? <==>
                  l.Some? && r.Some? &&
                  match l.value
                  case TYPE_INT => r.value in {TYPE_INT, TYPE_NULL}
                  case TYPE_STRING => r.value in {TYPE_STRING, TYPE_NULL}
                  case TYPE_BOOL => r.value in {TYPE_BOOL, TYPE_NULL}
                  case TYPE_NULL => true
                  case _ => false)
            && (compared.Some? ==> compared.value == TYPE_BOOL)
  {
  }
}
