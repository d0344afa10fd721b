/**
 * The syntax tree the parser builds. Every node keeps the token that
 * introduced it; a sub-tree the parser gave up on is `None` (Go's `nil`).
 */
module Ast {
  import opened Wrappers
  import opened Tokens

  datatype Identifier = Identifier(token: Token, value: string)

  datatype Expression =
    | Ident(ident: Identifier)
    | IntegerLiteral(token: Token, intValue: int)
    | StringLiteral(token: Token, strValue: string)
    | Boolean(token: Token, boolValue: bool)
    | PrefixExpression(token: Token, operator: string, right: Option<Expression>)
    | InfixExpression(token: Token, left: Option<Expression>, operator: string, right: Option<Expression>)
    | IfExpression(token: Token, condition: Option<Expression>, consequence: BlockStatement,
                   alternative: Option<BlockStatement>)
    | FunctionLiteral(token: Token, parameters: Option<seq<Identifier>>, body: BlockStatement)
    | CallExpression(token: Token, callee: Option<Expression>, arguments: Option<seq<Option<Expression>>>)

  datatype BlockStatement = BlockStatement(token: Token, statements: seq<Statement>)

  datatype Statement =
    | LetStatement(token: Token, name: Identifier, value: Option<Expression>)
    | ReturnStatement(token: Token, returnValue: Option<Expression>)
    | ExpressionStatement(token: Token, expression: Option<Expression>)

  datatype Program = Program(statements: seq<Statement>)

  /** The identifier node built from the current token: its text is the token's text. */
  function IdentifierOf(t: Token): Identifier
  {
    Identifier(t, t.literal)
  }
}
