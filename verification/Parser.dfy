/** The recursive-descent parser with its position: `src/SQL/Parser.cpp`. Each method reads what the grammar says. */
module Parser {
  import opened Ast
  import opened Grammar
  import opened IntText
  import opened StatementGrammar
  import opened Tokens
  import opened Wrappers

  /** The method returned what the grammar gives, and moved to the position behind it. */
  ghost predicate Reads<T>(r: Outcome<T>, pos: nat, spec: Parse<T>) {
    match spec
    case Done((x, p)) => r == Done(x) && pos == p
    case Failed => r == Failed
    case Trapped => r == Trapped
  }

  function Stopped<T, U>(r: Outcome<T>): Outcome<U>
    requires !r.Done?
  {
    if r.Failed? then Failed else Trapped
  }

  /** A list of which a part is read: the rest is read from q. */
  function Appended<T>(xs: seq<T>, r: Parse<seq<T>>): Parse<seq<T>> {
    match r
    case Done((ys, p)) => Done((xs + ys, p))
    case Failed => Failed
    case Trapped => Trapped
  }

  lemma AppendedOne<T>(xs: seq<T>, x: T, r: Parse<seq<T>>)
    ensures Appended(xs, Prepend(x, r)) == Appended(xs + [x], r)
  {
    if r.Done? {
      assert xs + ([x] + r.value.0) == xs + [x] + r.value.0;
    }
  }

  lemma AppendedNone<T>(r: Parse<seq<T>>)
    ensures Appended([], r) == r
  {
    if r.Done? {
      assert [] + r.value.0 == r.value.0;
    }
  }

  class Parser {
    const tokens: seq<Token>
    var pos: nat

    ghost predicate Valid()
      reads this
    {
      pos <= |tokens|
    }

    constructor (tokens: seq<Token>)
      ensures Valid() && this.tokens == tokens && pos == 0
    {
      this.tokens, pos := tokens, 0;
    }

    method TryExpect(kind: TokenType) returns (found: bool)
      requires Valid()
      modifies this
      ensures Valid() && found == Sees(tokens, old(pos), kind) && pos == old(pos) + if found then 1 else 0
    {
      found := Sees(tokens, pos, kind);
      if found {
        pos := pos + 1;
      }
    }

    // ---------- Expressions ----------

    /** `parse_expression_prim` */
    method ParsePrim() returns (r: Outcome<Expr>)
      requires Valid()
      modifies this
      ensures Valid() && Reads(r, pos, Prim(tokens, old(pos)))
      decreases |tokens| - pos, 1
    {
      hide Parsed;
      if pos >= |tokens| {
        return Failed;
      }
      var token := tokens[pos];
      match token.kind
      case Identifier => pos := pos + 1; r := Done(Ident(token.text));
      case IntegerText =>
        pos := pos + 1;
        var i := ParseInt64(token.text);
        r := if i.Some? then Done(IntegerLit(i.value)) else Trapped;
      case StringText => pos := pos + 1; r := Done(StringLit(token.text));
      case Asterisk => pos := pos + 1; r := Done(Star);
      case Word(TRUE) => pos := pos + 1; r := Done(TrueLit);
      case Word(FALSE) => pos := pos + 1; r := Done(FalseLit);
      case Word(NULL) => pos := pos + 1; r := Done(NullLit);
      case Word(SELECT) => r := ParseSelect();
      case _ => r := Failed;
    }

    /** `parse_select_expr` */
    method ParseSelect() returns (r: Outcome<Expr>)
      requires Valid() && Sees(tokens, pos, Word(SELECT))
      modifies this
      ensures Valid() && Reads(r, pos, Prim(tokens, old(pos)))
      decreases |tokens| - pos, 0
    {
      hide Expression, ExprList;
      pos := pos + 1;
      var exprs := ParseList();
      if !exprs.Done? {
        return Stopped(exprs);
      }
      var from := TryExpect(Word(FROM));
      if !from {
        return Failed;
      }
      var table := ParseExpression();
      if !table.Done? {
        return Stopped(table);
      }
      var end := TryExpect(Semicolon);
      r := if end then Done(Select(exprs.value, table.value)) else Failed;
    }

    /** The loop over expressions with commas between them. */
    method ParseList() returns (r: Outcome<seq<Expr>>)
      requires Valid()
      modifies this
      ensures Valid() && Reads(r, pos, ExprList(tokens, old(pos)))
      decreases |tokens| - pos, 3
    {
      hide Expression;
      var exprs := [];
      AppendedNone(ExprList(tokens, pos));
      while true
        invariant Valid() && pos >= old(pos)
        invariant ExprList(tokens, old(pos)) == Appended(exprs, ExprList(tokens, pos))
        decreases |tokens| - pos
      {
        ghost var start := pos;
        var e := ParseExpression();
        if !e.Done? {
          return Stopped(e);
        }
        if Sees(tokens, pos, Comma) {
          AppendedOne(exprs, e.value, ExprList(tokens, pos + 1));
        }
        exprs := exprs + [e.value];
        var more := TryExpect(Comma);
        if !more {
          break;
        }
      }
      r := Done(exprs);
    }

    /** `Parser::expression` */
    method ParseExpression() returns (r: Outcome<Expr>)
      requires Valid()
      modifies this
      ensures Valid() && Reads(r, pos, Expression(tokens, old(pos)))
      decreases |tokens| - pos, 2
    {
      hide Prim, Arguments;
      var lhs := ParsePrim();
      if !lhs.Done? {
        return Stopped(lhs);
      }
      var op := OperatorAt(tokens, pos);
      if op.Some? {
        pos := pos + 1;
        var rhs := ParseExpression();
        if !rhs.Done? {
          return Stopped(rhs);
        }
        return Done(Binary(op.value, lhs.value, rhs.value));
      }
      var call := TryExpect(LParen);
      if call {
        var args := ParseArguments();
        if !args.Done? {
          return Stopped(args);
        }
        return Done(Call(lhs.value, args.value));
      }
      r := lhs;
    }

    /** The loop over the arguments of a call. */
    method ParseArguments() returns (r: Outcome<seq<Expr>>)
      requires Valid()
      modifies this
      ensures Valid() && Reads(r, pos, Arguments(tokens, old(pos)))
      decreases |tokens| - pos, 3
    {
      hide Expression;
      var args := [];
      AppendedNone(Arguments(tokens, pos));
      while true
        invariant Valid() && pos >= old(pos)
        invariant Arguments(tokens, old(pos)) == Appended(args, Arguments(tokens, pos))
        decreases |tokens| - pos
      {
        if pos >= |tokens| {
          return Failed;
        }
        var end := TryExpect(RParen);
        if end {
          assert args + [] == args;
          return Done(args);
        }
        var e := ParseExpression();
        if !e.Done? {
          return Stopped(e);
        }
        if pos >= |tokens| {
          return Failed;
        }
        AppendedOne(args, e.value, Arguments(tokens, if tokens[pos].kind == Comma then pos + 1 else pos));
        args := args + [e.value];
        var _ := TryExpect(Comma);
      }
    }

    // ---------- Statements ----------

    /** `expect` */
    method Expect(kind: TokenType) returns (r: Outcome<string>)
      requires Valid()
      modifies this
      ensures Valid() && Reads(r, pos, Grammar.Expect(tokens, old(pos), kind)) && (!r.Done? ==> pos == old(pos))
    {
      if !Sees(tokens, pos, kind) {
        return Failed;
      }
      r := Done(tokens[pos].text);
      pos := pos + 1;
    }

    method ParseNames() returns (r: Outcome<seq<string>>)
      requires Valid()
      modifies this
      ensures Valid() && Reads(r, pos, Names(tokens, old(pos)))
    {
      var names := [];
      AppendedNone(Names(tokens, pos));
      while true
        invariant Valid() && Names(tokens, old(pos)) == Appended(names, Names(tokens, pos))
        decreases |tokens| - pos
      {
        var name := Expect(Identifier);
        if !name.Done? {
          return Failed;
        }
        if Sees(tokens, pos, Comma) {
          AppendedOne(names, name.value, Names(tokens, pos + 1));
        }
        names := names + [name.value];
        var more := TryExpect(Comma);
        if !more {
          break;
        }
      }
      r := Done(names);
    }

    method ParseColumnDefs() returns (r: Outcome<seq<(string, string)>>)
      requires Valid()
      modifies this
      ensures Valid() && Reads(r, pos, ColumnDefs(tokens, old(pos)))
    {
      var defs := [];
      AppendedNone(ColumnDefs(tokens, pos));
      while true
        invariant Valid() && ColumnDefs(tokens, old(pos)) == Appended(defs, ColumnDefs(tokens, pos))
        decreases |tokens| - pos
      {
        var name := Expect(Identifier);
        if !name.Done? {
          return Failed;
        }
        var kind := Expect(Identifier);
        if !kind.Done? {
          return Failed;
        }
        if Sees(tokens, pos, Comma) {
          AppendedOne(defs, (name.value, kind.value), ColumnDefs(tokens, pos + 1));
        }
        defs := defs + [(name.value, kind.value)];
        var more := TryExpect(Comma);
        if !more {
          break;
        }
      }
      r := Done(defs);
    }

    /** `set_clause` */
    method ParseClause() returns (r: Outcome<SetClause>)
      requires Valid()
      modifies this
      ensures Valid() && Reads(r, pos, Clause(tokens, old(pos)))
    {
      hide Expression;
      var name := Expect(Identifier);
      if !name.Done? {
        return Failed;
      }
      var eq := Expect(Equals);
      if !eq.Done? {
        return Failed;
      }
      var value := ParseExpression();
      if !value.Done? {
        return Stopped(value);
      }
      r := Done(SetClause(name.value, value.value));
    }

    method ParseClauses() returns (r: Outcome<seq<SetClause>>)
      requires Valid()
      modifies this
      ensures Valid() && Reads(r, pos, Clauses(tokens, old(pos)))
    {
      hide Clause;
      var clauses := [];
      AppendedNone(Clauses(tokens, pos));
      while true
        invariant Valid() && Clauses(tokens, old(pos)) == Appended(clauses, Clauses(tokens, pos))
        decreases |tokens| - pos
      {
        var c := ParseClause();
        if !c.Done? {
          return Stopped(c);
        }
        if Sees(tokens, pos, Comma) {
          AppendedOne(clauses, c.value, Clauses(tokens, pos + 1));
        }
        clauses := clauses + [c.value];
        var more := TryExpect(Comma);
        if !more {
          break;
        }
      }
      r := Done(clauses);
    }

    method ParseRows() returns (r: Outcome<seq<seq<Expr>>>)
      requires Valid()
      modifies this
      ensures Valid() && Reads(r, pos, Rows(tokens, old(pos)))
    {
      hide ExprList;
      var rows := [];
      AppendedNone(Rows(tokens, pos));
      while true
        invariant Valid() && Rows(tokens, old(pos)) == Appended(rows, Rows(tokens, pos))
        decreases |tokens| - pos
      {
        ghost var start := pos;
        var open := Expect(LParen);
        if !open.Done? {
          return Failed;
        }
        var row := ParseList();
        if !row.Done? {
          return Stopped(row);
        }
        var close := Expect(RParen);
        if !close.Done? {
          return Failed;
        }
        assert RowOfValues(tokens, start) == Done((row.value, pos));
        if Sees(tokens, pos, Comma) {
          AppendedOne(rows, row.value, Rows(tokens, pos + 1));
        }
        rows := rows + [row.value];
        var more := TryExpect(Comma);
        if !more {
          break;
        }
      }
      r := Done(rows);
    }

    method ParseFilter() returns (r: Outcome<Option<Expr>>)
      requires Valid()
      modifies this
      ensures Valid() && Reads(r, pos, Filter(tokens, old(pos)))
    {
      hide Expression;
      var given := TryExpect(Word(WHERE));
      if !given {
        return Done(None);
      }
      var e := ParseExpression();
      if !e.Done? {
        return Stopped(e);
      }
      r := Done(Some(e.value));
    }

    method Close(s: Stmt) returns (r: Outcome<Stmt>)
      requires Valid()
      modifies this
      ensures Valid() && Reads(r, pos, Closed(tokens, s, old(pos)))
    {
      var end := Expect(Semicolon);
      r := if end.Done? then Done(s) else Failed;
    }

    /** `insert_stmt`: the missing table name is the one error after which the parser goes on. */
    method ParseInsert() returns (r: Outcome<Stmt>)
      requires Valid() && Sees(tokens, pos, Word(INSERT))
      modifies this
      ensures Valid() && Reads(r, pos, Insert(tokens, old(pos)))
    {
      hide InsertRest;
      pos := pos + 1;
      var into := Expect(Word(INTO));
      if !into.Done? {
        return Failed;
      }
      var name := Expect(Identifier);
      r := ParseInsertRest(if name.Done? then name.value else "");
    }

    method ParseInsertRest(name: string) returns (r: Outcome<Stmt>)
      requires Valid()
      modifies this
      ensures Valid() && Reads(r, pos, InsertRest(tokens, name, old(pos)))
    {
      hide Names, Rows;
      var open := Expect(LParen);
      if !open.Done? {
        return Failed;
      }
      var columns := ParseNames();
      if !columns.Done? {
        return Stopped(columns);
      }
      var close := Expect(RParen);
      if !close.Done? {
        return Failed;
      }
      var values := Expect(Word(VALUES));
      if !values.Done? {
        return Failed;
      }
      var rows := ParseRows();
      if !rows.Done? {
        return Stopped(rows);
      }
      r := Close(InsertStmt(name, columns.value, rows.value));
    }

    /** `update_stmt` */
    method ParseUpdate() returns (r: Outcome<Stmt>)
      requires Valid() && Sees(tokens, pos, Word(UPDATE))
      modifies this
      ensures Valid() && Reads(r, pos, Update(tokens, old(pos)))
    {
      hide Expression, Clauses, Filter;
      pos := pos + 1;
      var table := ParseExpression();
      if !table.Done? {
        return Stopped(table);
      }
      var set_ := Expect(Word(SET));
      if !set_.Done? {
        return Failed;
      }
      var sets := ParseClauses();
      if !sets.Done? {
        return Stopped(sets);
      }
      var filter := ParseFilter();
      if !filter.Done? {
        return Stopped(filter);
      }
      r := Close(UpdateStmt(table.value, sets.value, filter.value));
    }

    /** `delete_stmt` */
    method ParseDelete() returns (r: Outcome<Stmt>)
      requires Valid() && Sees(tokens, pos, Word(DELETE))
      modifies this
      ensures Valid() && Reads(r, pos, Delete(tokens, old(pos)))
    {
      hide Expression, Filter;
      pos := pos + 1;
      var from := Expect(Word(FROM));
      if !from.Done? {
        return Failed;
      }
      var table := ParseExpression();
      if !table.Done? {
        return Stopped(table);
      }
      var filter := ParseFilter();
      if !filter.Done? {
        return Stopped(filter);
      }
      r := Close(DeleteStmt(table.value, filter.value));
    }

    /** `use_stmt` */
    method ParseUse() returns (r: Outcome<Stmt>)
      requires Valid() && Sees(tokens, pos, Word(USE))
      modifies this
      ensures Valid() && Reads(r, pos, Use(tokens, old(pos)))
    {
      pos := pos + 1;
      var name := Expect(Identifier);
      if !name.Done? {
        return Failed;
      }
      r := Close(UseStmt(name.value));
    }

    /** `drop_stmt` */
    method ParseDrop() returns (r: Outcome<Stmt>)
      requires Valid() && Sees(tokens, pos, Word(DROP))
      modifies this
      ensures Valid() && Reads(r, pos, Drop(tokens, old(pos)))
    {
      pos := pos + 1;
      var target := DropTable;
      var table := TryExpect(Word(TABLE));
      if !table {
        var database := TryExpect(Word(DATABASE));
        if !database {
          return Failed;
        }
        target := DropDatabase;
      }
      var name := Expect(Identifier);
      if !name.Done? {
        return Failed;
      }
      r := Close(DropStmt(target, name.value));
    }

    /** `create_stmt` */
    method ParseCreate() returns (r: Outcome<Stmt>)
      requires Valid() && Sees(tokens, pos, Word(CREATE))
      modifies this
      ensures Valid() && Reads(r, pos, Create(tokens, old(pos)))
    {
      hide CreateTableRest;
      pos := pos + 1;
      var table := false;
      var database := TryExpect(Word(DATABASE));
      if !database {
        table := TryExpect(Word(TABLE));
        if !table {
          var user := TryExpect(Word(USER));
          if !user {
            return Failed;
          }
        }
      }
      var name := Expect(Identifier);
      if !name.Done? {
        return Failed;
      }
      if table {
        r := ParseCreateTableRest(name.value);
      } else {
        r := Close(if database then CreateDatabaseStmt(name.value) else CreateUserStmt(name.value));
      }
    }

    method ParseCreateTableRest(name: string) returns (r: Outcome<Stmt>)
      requires Valid()
      modifies this
      ensures Valid() && Reads(r, pos, CreateTableRest(tokens, name, old(pos)))
    {
      hide ColumnDefs;
      var open := Expect(LParen);
      if !open.Done? {
        return Failed;
      }
      var defs := ParseColumnDefs();
      if !defs.Done? {
        return Stopped(defs);
      }
      var close := Expect(RParen);
      if !close.Done? {
        return Failed;
      }
      r := Close(CreateTableStmt(name, defs.value));
    }

    /** `alter_stmt` */
    method ParseAlter() returns (r: Outcome<Stmt>)
      requires Valid() && Sees(tokens, pos, Word(ALTER))
      modifies this
      ensures Valid() && Reads(r, pos, Alter(tokens, old(pos)))
    {
      hide Clauses;
      pos := pos + 1;
      if pos >= |tokens| {
        return Failed;
      }
      if tokens[pos].kind != Word(USER) {
        return Trapped;
      }
      pos := pos + 1;
      var name := Expect(Identifier);
      if !name.Done? {
        return Failed;
      }
      var set_ := Expect(Word(SET));
      if !set_.Done? {
        return Failed;
      }
      var clauses := ParseClauses();
      if !clauses.Done? {
        return Stopped(clauses);
      }
      r := Close(AlterUserStmt(name.value, clauses.value));
    }

    /** `Parser::stmt` */
    method ParseStmt() returns (r: Outcome<Stmt>)
      requires Valid()
      modifies this
      ensures Valid() && Reads(r, pos, Statement(tokens, old(pos)))
    {
      hide Insert, Update, Delete, Drop, Create, Use, Alter, Expression;
      if pos >= |tokens| {
        return Failed;
      }
      match tokens[pos].kind
      case Word(DELETE) => r := ParseDelete();
      case Word(INSERT) => r := ParseInsert();
      case Word(UPDATE) => r := ParseUpdate();
      case Word(DROP) => r := ParseDrop();
      case Word(CREATE) => r := ParseCreate();
      case Word(USE) => r := ParseUse();
      case Word(ALTER) => r := ParseAlter();
      case _ =>
        var e := ParseExpression();
        r := if e.Done? then Done(ExprStmt(e.value)) else Stopped(e);
    }

    /** `Parser::query` */
    method ParseQuery() returns (r: Outcome<seq<Stmt>>)
      requires Valid()
      modifies this
      ensures Valid() && r == Statements(tokens, old(pos))
      ensures r.Done? ==> pos == |tokens|
    {
      hide Statement;
      var stmts := [];
      JoinedNone(Statements(tokens, pos));
      while pos < |tokens|
        invariant Valid()
        invariant Statements(tokens, old(pos)) == Joined(stmts, Statements(tokens, pos))
        decreases |tokens| - pos
      {
        var s := ParseStmt();
        if !s.Done? {
          return Stopped(s);
        }
        JoinedOne(stmts, s.value, Statements(tokens, pos));
        stmts := stmts + [s.value];
      }
      r := Done(stmts);
      assert stmts + [] == stmts;
    }
  }

  function Joined(stmts: seq<Stmt>, r: Outcome<seq<Stmt>>): Outcome<seq<Stmt>> {
    match r
    case Done(rest) => Done(stmts + rest)
    case Failed => Failed
    case Trapped => Trapped
  }

  lemma JoinedNone(r: Outcome<seq<Stmt>>)
    ensures Joined([], r) == r
  {
    if r.Done? {
      assert [] + r.value == r.value;
    }
  }

  lemma JoinedOne(stmts: seq<Stmt>, s: Stmt, r: Outcome<seq<Stmt>>)
    ensures r.Done? ==> Joined(stmts, Done([s] + r.value)) == Joined(stmts + [s], r)
  {
    if r.Done? {
      assert stmts + ([s] + r.value) == stmts + [s] + r.value;
    }
  }
}
