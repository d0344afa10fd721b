/**
 * The lexer's output as the parser sees it. The lexer itself is not part of
 * this model: its whole output is a sequence of tokens, and reading past the
 * end of that sequence keeps yielding the end-of-input token.
 */
module Tokens {

  /** The token kinds the parser distinguishes (ILLEGAL stands for every kind it never names). */
  datatype TokenType =
    | ILLEGAL | EOF
    | IDENT | INT | STRING
    | ASSIGN | PLUS | MINUS | BANG | ASTERISK | SLASH
    | LT | GT | EQ | NOT_EQ
    | COMMA | SEMICOLON | LPAREN | RPAREN | LBRACE | RBRACE
    | FUNCTION | LET | TRUE | FALSE | IF | ELSE | RETURN

  /** A kind tag and the source text it was scanned from. */
  datatype Token = Token(kind: TokenType, literal: string)

  const EndOfInput: Token := Token(EOF, "")

  /** The i-th token the lexer hands out; past the end it keeps handing out EOF. */
  function At(ts: seq<Token>, i: nat): Token
  {
    if i < |ts| then ts[i] else EndOfInput
  }

  /** How many tokens of the sequence lie at or after position i (the termination measure). */
  function Remaining(ts: seq<Token>, i: nat): nat
  {
    if i < |ts| then |ts| - i else 0
  }
}
