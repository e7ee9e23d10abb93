/**
 Expressions and statements of the SQL dialect: `src/SQL/ast.hpp` and the equality and hash of expressions in
 `src/SQL/ast.cpp`.
 */
module Ast {
  import opened Bytes
  import opened Wrappers

  datatype Operator = EQ | LT | GT

  datatype Expr =
    | IntegerLit(value: S64)
    | StringLit(text: string)
    | TrueLit
    | FalseLit
    | NullLit
    | Ident(name: string)
    | Star
    | Call(fn: Expr, args: seq<Expr>)
    | Binary(op: Operator, lhs: Expr, rhs: Expr)
    | Select(exprs: seq<Expr>, table: Expr)

  /** `Expr::operator==` on two distinct objects: callees, arguments and selected expressions are compared as pointers. */
  predicate SameExpr(a: Expr, b: Expr) {
    match (a, b)
    case (Call(_, _), Call(_, _)) => false
    case (Binary(op, lhs, rhs), Binary(op', lhs', rhs')) => op == op' && SameExpr(lhs, lhs') && SameExpr(rhs, rhs')
    case (Select(exprs, table), Select(exprs', table')) => SameExpr(table, table') && exprs == [] && exprs' == []
    case _ => a == b
  }

  /** No call and no select list inside. */
  predicate Shareable(e: Expr) {
    match e
    case Call(_, _) => false
    case Binary(_, lhs, rhs) => Shareable(lhs) && Shareable(rhs)
    case Select(exprs, table) => exprs == [] && Shareable(table)
    case _ => true
  }

  /** Two objects count as the same node exactly when they spell the same expression and hold nothing compared by pointer. */
  lemma {:induction false} SameExprIff(a: Expr, b: Expr)
    ensures SameExpr(a, b) <==> a == b && Shareable(a)
  {
    match (a, b)
    case (Binary(_, lhs, rhs), Binary(_, lhs', rhs')) =>
      SameExprIff(lhs, lhs');
      SameExprIff(rhs, rhs');
    case (Select(_, table), Select(_, table')) =>
      SameExprIff(table, table');
    case _ =>
  }

  /** The tag that `ok_hash_value` shifts into the upper half. */
  function Tag(e: Expr): bv64 {
    match e
    case Ident(_) => 0
    case IntegerLit(_) => 1 << 32
    case StringLit(_) => 2 << 32
    case TrueLit => 3 << 32
    case FalseLit => 4 << 32
    case NullLit => 5 << 32
    case Binary(_, _, _) => 6 << 32
    case Select(_, _) => 7 << 32
    case Star => 8 << 32
    case Call(_, _) => 9 << 32
  }

  /** `Expr::ok_hash_value` for a given string hash. */
  function HashOf(e: Expr, hash: string -> bv64): bv64 {
    match e
    case IntegerLit(i) => Tag(e) | ToU64(i) as bv64
    case StringLit(s) => Tag(e) ^ hash(s)
    case Ident(s) => Tag(e) ^ hash(s)
    case Binary(_, lhs, rhs) => Tag(e) ^ HashOf(lhs, hash) ^ HashOf(rhs, hash)
    case Select(exprs, table) => HashAll(exprs, hash, Tag(e) ^ HashOf(table, hash))
    case Call(fn, args) => HashAll(args, hash, Tag(e) ^ HashOf(fn, hash))
    case _ => Tag(e)
  }

  function HashAll(es: seq<Expr>, hash: string -> bv64, h: bv64): bv64 {
    if es == [] then h else HashAll(es[1..], hash, h ^ HashOf(es[0], hash))
  }

  /** Equal keys hash equally, so the table of the expression graph finds them. */
  lemma SameHash(a: Expr, b: Expr, hash: string -> bv64)
    requires SameExpr(a, b)
    ensures HashOf(a, hash) == HashOf(b, hash)
  {
    SameExprIff(a, b);
  }

  datatype Stmt =
    | ExprStmt(expr: Expr)
    | InsertStmt(name: string, columns: seq<string>, rows: seq<seq<Expr>>)
    | UpdateStmt(table: Expr, sets: seq<SetClause>, filter: Option<Expr>)
    | DeleteStmt(table: Expr, filter: Option<Expr>)
    | UseStmt(name: string)
    | DropStmt(target: DropTarget, name: string)
    | CreateDatabaseStmt(name: string)
    | CreateTableStmt(name: string, columnTypes: seq<(string, string)>)
    | CreateUserStmt(name: string)
    | AlterUserStmt(name: string, clauses: seq<SetClause>)

  datatype SetClause = SetClause(name: string, value: Expr)
  datatype DropTarget = DropTable | DropDatabase
}
