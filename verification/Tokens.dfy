/** Tokens of the SQL dialect: `src/SQL/Lexer.hpp`. */
module Tokens {
  datatype Keyword =
    | SELECT | FROM | WHERE | USE | INSERT | INTO | VALUES | UPDATE | SET | DELETE | DROP | TABLE | DATABASE | CREATE
    | USER | TRUE | FALSE | NULL | ALTER

  datatype TokenType =
    | Comma | Dot | Identifier | Semicolon | Asterisk | LParen | RParen | Equals | Greater | Less | IntegerText
    | StringText | UnterminatedString | Illegal | Word(keyword: Keyword)

  datatype Token = Token(kind: TokenType, text: string)
}
