/**
 * The meaning of parser/parser.go as functions. A parser state is the
 * position of the current token in the lexer's output together with the
 * diagnostics recorded so far; every parse routine maps a state to a result
 * and a new state. The `Parser` class proves each of its methods equal to the
 * function of the same name here.
 */
module ParserSpec {
  import opened Wrappers
  import opened Tokens
  import opened Ast
  import Strconv

  // Binding powers, lowest first.
  const LOWEST: nat := 1
  const EQUALS: nat := 2
  const LESSGREATER: nat := 3
  const SUM: nat := 4
  const PRODUCT: nat := 5
  const PREFIX: nat := 6
  const CALL: nat := 7

  /** The precedence table; a kind it does not list binds at LOWEST. */
  function Precedence(k: TokenType): (p: nat)
    ensures LOWEST <= p <= CALL
  {
    match k
    case EQ | NOT_EQ => EQUALS
    case LT | GT => LESSGREATER
    case PLUS | MINUS => SUM
    case ASTERISK | SLASH => PRODUCT
    case LPAREN => CALL
    case _ => LOWEST
  }

  /** The routines registered in the prefix table. */
  datatype PrefixRoutine =
    | ParserIdentifierFn | ParseIntegerLiteralFn | ParsePrefixExpressionFn | ParseBooleanExpressionFn
    | ParseGroupedExpressionFn | ParseIfExpressionFn | ParseFunctionLiteralFn | ParseStringExpressionFn

  /** The routines registered in the infix table. */
  datatype InfixRoutine = ParseInfixExpressionFn | ParseCallExpressionFn

  /** The prefix table, fixed once and for all: the ten kinds `New` registers a prefix routine for. */
  function PrefixRoutineFor(k: TokenType): Option<PrefixRoutine>
  {
    match k
    case IDENT => Some(ParserIdentifierFn)
    case INT => Some(ParseIntegerLiteralFn)
    case BANG | MINUS => Some(ParsePrefixExpressionFn)
    case TRUE | FALSE => Some(ParseBooleanExpressionFn)
    case LPAREN => Some(ParseGroupedExpressionFn)
    case IF => Some(ParseIfExpressionFn)
    case FUNCTION => Some(ParseFunctionLiteralFn)
    case STRING => Some(ParseStringExpressionFn)
    case _ => None
  }

  /** The infix table, fixed once and for all: the nine kinds `New` registers an infix routine for. */
  function InfixRoutineFor(k: TokenType): Option<InfixRoutine>
  {
    match k
    case PLUS | MINUS | ASTERISK | SLASH | EQ | NOT_EQ | LT | GT => Some(ParseInfixExpressionFn)
    case LPAREN => Some(ParseCallExpressionFn)
    case _ => None
  }

  /** The three kinds of diagnostic the parser records. */
  datatype ParseError =
    | ExpectedNext(expected: TokenType, got: TokenType)  // "expected next token to be ...; got ... instead"
    | NoPrefixParseFn(kind: TokenType)                   // "no prefix parse function for ... found"
    | NotAnInteger(literal: string)                      // "could not parse ... as integer"

  /** Position of the current token, and the diagnostics recorded so far. */
  datatype St = St(pos: nat, errors: seq<ParseError>)

  /** A routine's result together with the state it leaves behind. */
  datatype Out<T> = Out(val: T, st: St)

  function Cur(ts: seq<Token>, s: St): Token { At(ts, s.pos) }

  function Peek(ts: seq<Token>, s: St): Token { At(ts, s.pos + 1) }

  /** nextToken: the peek token becomes the current one. */
  function Next(s: St): St { s.(pos := s.pos + 1) }

  function Record(s: St, e: ParseError): St { s.(errors := s.errors + [e]) }

  /** The cursor never moves back and the diagnostics are only ever appended to. */
  predicate Advanced(s: St, t: St)
  {
    s.pos <= t.pos && s.errors <= t.errors
  }

  /** The conditions on which the Pratt loop stops extending an expression. */
  predicate Stops(ts: seq<Token>, s: St, precedence: nat)
  {
    || Peek(ts, s).kind == SEMICOLON
    || Precedence(Peek(ts, s).kind) <= precedence
    || InfixRoutineFor(Peek(ts, s).kind).None?
  }

  /** expectPeek: advance onto the peek token if it has kind t, else record peekError. */
  function ExpectPeek(ts: seq<Token>, s: St, t: TokenType): (r: Out<bool>)
    ensures Advanced(s, r.st) && r.st.pos <= s.pos + 1
    ensures r.val ==> Cur(ts, r.st).kind == t && r.st.errors == s.errors
    ensures !r.val ==> r.st.pos == s.pos && |r.st.errors| == |s.errors| + 1
  {
    if Peek(ts, s).kind == t then Out(true, Next(s))
    else Out(false, Record(s, ExpectedNext(t, Peek(ts, s).kind)))
  }

  /** Consume an optional terminating semicolon: at most one token, and nothing recorded. */
  function SkipSemicolon(ts: seq<Token>, s: St): (t: St)
    ensures Advanced(s, t) && t.errors == s.errors && t.pos <= s.pos + 1
    ensures t.pos == s.pos + 1 <==> Peek(ts, s).kind == SEMICOLON
  {
    if Peek(ts, s).kind == SEMICOLON then Next(s) else s
  }

  function Keep(acc: seq<Statement>, stmt: Option<Statement>): seq<Statement>
  {
    if stmt.Some? then acc + [stmt.value] else acc
  }

  // ---------------------------------------------------------------- program

  /** ParserProgram, run from a given state. */
  function ParserProgram(ts: seq<Token>, s: St): (r: Out<Program>)
    ensures Advanced(s, r.st)
  {
    var loop := ProgramLoop(ts, [], s);
    Out(Program(loop.val), loop.st)
  }

  /** The statement loop of ParserProgram, with the statements kept so far. */
  function ProgramLoop(ts: seq<Token>, acc: seq<Statement>, s: St): (r: Out<seq<Statement>>)
    ensures Advanced(s, r.st)
    decreases Remaining(ts, s.pos), 12
  {
    if Cur(ts, s).kind == EOF then Out(acc, s)
    else
      var stmt := ParserStatement(ts, s);
      ProgramLoop(ts, Keep(acc, stmt.val), Next(stmt.st))
  }

  // ------------------------------------------------------------- statements

  /** A statement is dropped exactly when it is a `let` missing its name or its `=`. */
  predicate FailedLet(ts: seq<Token>, s: St)
  {
    Cur(ts, s).kind == LET && (Peek(ts, s).kind != IDENT || At(ts, s.pos + 2).kind != ASSIGN)
  }

  function ParserStatement(ts: seq<Token>, s: St): (r: Out<Option<Statement>>)
    ensures Advanced(s, r.st)
    decreases Remaining(ts, s.pos), 8
  {
    match Cur(ts, s).kind
    case LET => ParserLetStatement(ts, s)
    case RETURN => ParserReturnStatement(ts, s)
    case _ => ParserExpressionStatement(ts, s)
  }

  function ParserLetStatement(ts: seq<Token>, s: St): (r: Out<Option<Statement>>)
    ensures Advanced(s, r.st)
    decreases Remaining(ts, s.pos), 7
  {
    var ident := ExpectPeek(ts, s, IDENT);
    if !ident.val then Out(None, ident.st)
    else
      var name := IdentifierOf(Cur(ts, ident.st));
      var assign := ExpectPeek(ts, ident.st, ASSIGN);
      if !assign.val then Out(None, assign.st)
      else
        var value := ParserExpression(ts, Next(assign.st), LOWEST);
        Out(Some(LetStatement(Cur(ts, s), name, value.val)), SkipSemicolon(ts, value.st))
  }

  function ParserReturnStatement(ts: seq<Token>, s: St): (r: Out<Option<Statement>>)
    ensures Advanced(s, r.st)
    decreases Remaining(ts, s.pos), 7
  {
    var value := ParserExpression(ts, Next(s), LOWEST);
    Out(Some(ReturnStatement(Cur(ts, s), value.val)), SkipSemicolon(ts, value.st))
  }

  function ParserExpressionStatement(ts: seq<Token>, s: St): (r: Out<Option<Statement>>)
    ensures Advanced(s, r.st)
    decreases Remaining(ts, s.pos), 7
  {
    var value := ParserExpression(ts, s, LOWEST);
    Out(Some(ExpressionStatement(Cur(ts, s), value.val)), SkipSemicolon(ts, value.st))
  }

  // ------------------------------------------------------------ expressions

  /** parserExpression: a prefix routine for the current token, then the Pratt loop. */
  function ParserExpression(ts: seq<Token>, s: St, precedence: nat): (r: Out<Option<Expression>>)
    ensures Advanced(s, r.st)
    decreases Remaining(ts, s.pos), 6
  {
    match PrefixRoutineFor(Cur(ts, s).kind)
    case None => Out(None, Record(s, NoPrefixParseFn(Cur(ts, s).kind)))
    case Some(routine) =>
      var left := ParsePrefix(ts, s, routine);
      PrattLoop(ts, left.val, left.st, precedence)
  }

  /** Call the prefix routine the table holds for the current token. */
  function ParsePrefix(ts: seq<Token>, s: St, routine: PrefixRoutine): (r: Out<Option<Expression>>)
    requires PrefixRoutineFor(Cur(ts, s).kind) == Some(routine)
    ensures Advanced(s, r.st)
    decreases Remaining(ts, s.pos), 5
  {
    match routine
    case ParserIdentifierFn => Out(Some(Ident(IdentifierOf(Cur(ts, s)))), s)
    case ParseIntegerLiteralFn => ParseIntegerLiteral(ts, s)
    case ParsePrefixExpressionFn => ParsePrefixExpression(ts, s)
    case ParseBooleanExpressionFn => Out(Some(Boolean(Cur(ts, s), Cur(ts, s).kind == TRUE)), s)
    case ParseGroupedExpressionFn => ParseGroupedExpression(ts, s)
    case ParseIfExpressionFn => ParseIfExpression(ts, s)
    case ParseFunctionLiteralFn => ParseFunctionLiteral(ts, s)
    case ParseStringExpressionFn => Out(Some(StringLiteral(Cur(ts, s), Cur(ts, s).literal)), s)
  }

  /** The loop of parserExpression, with the expression built so far. */
  function PrattLoop(ts: seq<Token>, left: Option<Expression>, s: St, precedence: nat): (r: Out<Option<Expression>>)
    ensures Advanced(s, r.st)
    decreases Remaining(ts, s.pos), 5
  {
    var kind := Peek(ts, s).kind;
    if kind == SEMICOLON || precedence >= Precedence(kind) then Out(left, s)
    else match InfixRoutineFor(kind)
      case None => Out(left, s)
      case Some(routine) =>
        var next := match routine
          case ParseInfixExpressionFn => ParseInfixExpression(ts, left, Next(s))
          case ParseCallExpressionFn => ParseCallExpression(ts, left, Next(s));
        PrattLoop(ts, next.val, next.st, precedence)
  }

  function ParseIntegerLiteral(ts: seq<Token>, s: St): (r: Out<Option<Expression>>)
    ensures Advanced(s, r.st) && r.st.pos == s.pos
    ensures r.val.Some? ==> r.st == s && r.val.value.IntegerLiteral? && r.val.value.token == Cur(ts, s)
    ensures r.val.None? ==> r.st == Record(s, NotAnInteger(Cur(ts, s).literal))
  {
    match Strconv.ParseInt64(Cur(ts, s).literal)
    case None => Out(None, Record(s, NotAnInteger(Cur(ts, s).literal)))
    case Some(v) => Out(Some(IntegerLiteral(Cur(ts, s), v)), s)
  }

  function ParsePrefixExpression(ts: seq<Token>, s: St): (r: Out<Option<Expression>>)
    requires PrefixRoutineFor(Cur(ts, s).kind) == Some(ParsePrefixExpressionFn)
    ensures Advanced(s, r.st)
    decreases Remaining(ts, s.pos), 4
  {
    var right := ParserExpression(ts, Next(s), PREFIX);
    Out(Some(PrefixExpression(Cur(ts, s), Cur(ts, s).literal, right.val)), right.st)
  }

  function ParseInfixExpression(ts: seq<Token>, left: Option<Expression>, s: St): (r: Out<Option<Expression>>)
    ensures Advanced(s, r.st)
    decreases Remaining(ts, s.pos), 7
  {
    var right := ParserExpression(ts, Next(s), Precedence(Cur(ts, s).kind));
    Out(Some(InfixExpression(Cur(ts, s), left, Cur(ts, s).literal, right.val)), right.st)
  }

  function ParseGroupedExpression(ts: seq<Token>, s: St): (r: Out<Option<Expression>>)
    requires PrefixRoutineFor(Cur(ts, s).kind) == Some(ParseGroupedExpressionFn)
    ensures Advanced(s, r.st)
    decreases Remaining(ts, s.pos), 4
  {
    var exp := ParserExpression(ts, Next(s), LOWEST);
    var close := ExpectPeek(ts, exp.st, RPAREN);
    Out(if close.val then exp.val else None, close.st)
  }

  function ParseIfExpression(ts: seq<Token>, s: St): (r: Out<Option<Expression>>)
    ensures Advanced(s, r.st)
    decreases Remaining(ts, s.pos), 4
  {
    var lparen := ExpectPeek(ts, s, LPAREN);
    if !lparen.val then Out(None, lparen.st)
    else
      var condition := ParserExpression(ts, Next(lparen.st), LOWEST);
      var rparen := ExpectPeek(ts, condition.st, RPAREN);
      if !rparen.val then Out(None, rparen.st)
      else
        var lbrace := ExpectPeek(ts, rparen.st, LBRACE);
        if !lbrace.val then Out(None, lbrace.st)
        else
          var consequence := ParseBlockStatement(ts, lbrace.st);
          var alternative := ParseAlternative(ts, consequence.st);
          match alternative.val
          case None => Out(None, alternative.st)
          case Some(block) => Out(Some(IfExpression(Cur(ts, s), condition.val, consequence.val, block)), alternative.st)
  }

  /**
   * The optional `else { ... }` after an if's consequence: `Some(None)` when no
   * `else` follows, `None` when the `else` is not followed by `{`.
   */
  function ParseAlternative(ts: seq<Token>, s: St): (r: Out<Option<Option<BlockStatement>>>)
    ensures Advanced(s, r.st)
    decreases Remaining(ts, s.pos), 4
  {
    if Peek(ts, s).kind != ELSE then Out(Some(None), s)
    else
      var lbrace := ExpectPeek(ts, Next(s), LBRACE);
      if !lbrace.val then Out(None, lbrace.st)
      else
        var block := ParseBlockStatement(ts, lbrace.st);
        Out(Some(Some(block.val)), block.st)
  }

  function ParseBlockStatement(ts: seq<Token>, s: St): (r: Out<BlockStatement>)
    ensures Advanced(s, r.st)
    decreases Remaining(ts, s.pos), 10
  {
    var body := BlockLoop(ts, [], Next(s));
    Out(BlockStatement(Cur(ts, s), body.val), body.st)
  }

  /** The statement loop of parseBlockStatement, with the statements kept so far. */
  function BlockLoop(ts: seq<Token>, acc: seq<Statement>, s: St): (r: Out<seq<Statement>>)
    ensures Advanced(s, r.st)
    decreases Remaining(ts, s.pos), 9
  {
    var kind := Cur(ts, s).kind;
    if kind == RBRACE || kind == EOF then Out(acc, s)
    else
      var stmt := ParserStatement(ts, s);
      BlockLoop(ts, Keep(acc, stmt.val), Next(stmt.st))
  }

  function ParseFunctionLiteral(ts: seq<Token>, s: St): (r: Out<Option<Expression>>)
    ensures Advanced(s, r.st)
    decreases Remaining(ts, s.pos), 4
  {
    var lparen := ExpectPeek(ts, s, LPAREN);
    if !lparen.val then Out(None, lparen.st)
    else
      var parameters := ParseParameters(ts, lparen.st);
      var lbrace := ExpectPeek(ts, parameters.st, LBRACE);
      if !lbrace.val then Out(None, lbrace.st)
      else
        var body := ParseBlockStatement(ts, lbrace.st);
        Out(Some(FunctionLiteral(Cur(ts, s), parameters.val, body.val)), body.st)
  }

  function ParseParameters(ts: seq<Token>, s: St): (r: Out<Option<seq<Identifier>>>)
    ensures Advanced(s, r.st)
  {
    if Peek(ts, s).kind == RPAREN then Out(Some([]), Next(s))
    else
      var first := Next(s);
      var more := ParametersLoop(ts, [IdentifierOf(Cur(ts, first))], first);
      var close := ExpectPeek(ts, more.st, RPAREN);
      Out(if close.val then Some(more.val) else None, close.st)
  }

  /** The comma loop of parseParameters, with the identifiers collected so far. */
  function ParametersLoop(ts: seq<Token>, acc: seq<Identifier>, s: St): (r: Out<seq<Identifier>>)
    ensures Advanced(s, r.st)
    decreases Remaining(ts, s.pos)
  {
    if Peek(ts, s).kind != COMMA then Out(acc, s)
    else
      var s2 := Next(Next(s));
      ParametersLoop(ts, acc + [IdentifierOf(Cur(ts, s2))], s2)
  }

  function ParseCallExpression(ts: seq<Token>, callee: Option<Expression>, s: St): (r: Out<Option<Expression>>)
    ensures Advanced(s, r.st)
    decreases Remaining(ts, s.pos), 8
  {
    var arguments := ParseCallArguments(ts, s);
    Out(Some(CallExpression(Cur(ts, s), callee, arguments.val)), arguments.st)
  }

  function ParseCallArguments(ts: seq<Token>, s: St): (r: Out<Option<seq<Option<Expression>>>>)
    ensures Advanced(s, r.st)
    decreases Remaining(ts, s.pos), 7
  {
    if Peek(ts, s).kind == RPAREN then Out(Some([]), Next(s))
    else
      var first := ParserExpression(ts, Next(s), LOWEST);
      var more := ArgumentsLoop(ts, [first.val], first.st);
      var close := ExpectPeek(ts, more.st, RPAREN);
      Out(if close.val then Some(more.val) else None, close.st)
  }

  /** The comma loop of parseCallArguments, with the arguments collected so far. */
  function ArgumentsLoop(ts: seq<Token>, acc: seq<Option<Expression>>, s: St): (r: Out<seq<Option<Expression>>>)
    ensures Advanced(s, r.st)
    decreases Remaining(ts, s.pos), 6
  {
    if Peek(ts, s).kind != COMMA then Out(acc, s)
    else
      var arg := ParserExpression(ts, Next(Next(s)), LOWEST);
      ArgumentsLoop(ts, acc + [arg.val], arg.st)
  }
}
