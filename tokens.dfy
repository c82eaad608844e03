/** The token model shared by the lexer and the code generator
    (Compiler.java, `enum TokenKind` and `class Token`). */
module Tokens {

  /** The closed set of token kinds. */
  datatype TokenKind =
    | LParen
    | RParen
    | Ident
    | LBrace
    | RBrace
    | Semicolon
    | String
    | Printf
    | Void
    | Eof
    | Illegal

  /** A token: its kind and its lexeme (`lit`). */
  datatype Token = Token(kind: TokenKind, lit: string)
}
