/** Tokens handed from the lexer to the parser. */
module Tokens {

  /** The eleven token kinds: end of input, identifier, string literal, the `def`
      keyword and the seven punctuation characters `( ) = { } | ;`. */
  datatype TokenKind =
    | Eof | Ident | Str | Def
    | LParen | RParen | Equal | LBrace | RBrace | Pipe | Semicolon

  datatype Token = Token(kind: TokenKind, lexeme: string, line: nat)

  predicate NoEof(ts: seq<Token>) {
    forall i | 0 <= i < |ts| :: ts[i].kind != Eof
  }

  /** The list ends with exactly one end-of-input token and has none elsewhere: what
      the lexer produces and the parser expects. */
  predicate EofOnlyAtEnd(ts: seq<Token>) {
    |ts| >= 1 && ts[|ts| - 1].kind == Eof && forall i | 0 <= i < |ts| - 1 :: ts[i].kind != Eof
  }
}
