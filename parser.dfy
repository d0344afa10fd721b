/**
 * The parser object of parser/parser.go. Its fields are the ones the Go
 * struct updates in place: the current and peek tokens, the error list, and
 * the lexer, here its output `tokens` and the number of tokens it has handed
 * out so far. Every parse routine is a method whose postcondition equates its
 * result and the parser's new state with the function of the same name in
 * ParserSpec, applied to the state it started from.
 */
module Parser {
  import opened Wrappers
  import opened Tokens
  import opened Ast
  import opened ParserSpec
  import Strconv

  class Parser {
    const tokens: seq<Token>
    var read: nat
    var errors: seq<ParseError>
    var curToken: Token
    var peekToken: Token

    /** The two lookahead fields hold the last two tokens the lexer handed out. */
    ghost predicate Valid()
      reads this
    {
      read >= 2 && curToken == At(tokens, read - 2) && peekToken == At(tokens, read - 1)
    }

    /** The abstract parser state: position of curToken and the errors so far. */
    ghost function State(): St
      reads this
    {
      St(if read < 2 then 0 else read - 2, errors)
    }

    /** New: prime the two lookahead fields; no error yet. */
    constructor (ts: seq<Token>)
      ensures Valid() && tokens == ts
      ensures curToken == At(ts, 0) && peekToken == At(ts, 1) && errors == []
      ensures State() == St(0, [])
    {
      tokens := ts;
      read := 0;
      errors := [];
      curToken := EndOfInput;
      peekToken := EndOfInput;
      new;
      NextToken();
      NextToken();
    }

    function Errors(): (e: seq<ParseError>)
      reads this
      ensures e == State().errors
    {
      errors
    }

    method NextToken()
      modifies this
      ensures curToken == old(peekToken) && peekToken == At(tokens, old(read))
      ensures read == old(read) + 1 && errors == old(errors)
      ensures old(Valid()) ==> Valid() && State() == Next(old(State()))
    {
      curToken := peekToken;
      peekToken := At(tokens, read);
      read := read + 1;
    }

    method PeekError(t: TokenType)
      requires Valid()
      modifies this
      ensures Valid() && State() == Record(old(State()), ExpectedNext(t, old(peekToken).kind))
    {
      errors := errors + [ExpectedNext(t, peekToken.kind)];
    }

    method NoPrefixParseFnError(t: TokenType)
      requires Valid()
      modifies this
      ensures Valid() && State() == Record(old(State()), NoPrefixParseFn(t))
    {
      errors := errors + [NoPrefixParseFn(t)];
    }

    function CurTokenIs(t: TokenType): (b: bool)
      reads this
      ensures Valid() ==> (b <==> Cur(tokens, State()).kind == t)
    {
      curToken.kind == t
    }

    function PeekTokenIs(t: TokenType): (b: bool)
      reads this
      ensures Valid() ==> (b <==> Peek(tokens, State()).kind == t)
    {
      peekToken.kind == t
    }

    function PeekPrecedence(): (p: nat)
      reads this
      ensures LOWEST <= p <= CALL
      ensures Valid() ==> p == Precedence(Peek(tokens, State()).kind)
    {
      Precedence(peekToken.kind)
    }

    function CurPrecedence(): (p: nat)
      reads this
      ensures LOWEST <= p <= CALL
      ensures Valid() ==> p == Precedence(Cur(tokens, State()).kind)
    {
      Precedence(curToken.kind)
    }

    method ExpectPeek(t: TokenType) returns (ok: bool)
      requires Valid()
      modifies this
      ensures Valid() && Out(ok, State()) == ParserSpec.ExpectPeek(tokens, old(State()), t)
    {
      if PeekTokenIs(t) {
        NextToken();
        ok := true;
      } else {
        PeekError(t);
        ok := false;
      }
    }

    method ParserProgram() returns (program: Program)
      requires Valid()
      modifies this
      ensures Valid() && curToken.kind == EOF
      ensures Out(program, State()) == ParserSpec.ParserProgram(tokens, old(State()))
    {
      ghost var s0 := State();
      var statements: seq<Statement> := [];
      while curToken.kind != EOF
        invariant Valid()
        invariant ProgramLoop(tokens, statements, State()) == ProgramLoop(tokens, [], s0)
        decreases Remaining(tokens, State().pos)
      {
        var stmt := ParserStatement();
        if stmt.Some? {
          statements := statements + [stmt.value];
        }
        NextToken();
      }
      program := Program(statements);
    }

    method ParserStatement() returns (stmt: Option<Statement>)
      requires Valid()
      modifies this
      ensures Valid() && Out(stmt, State()) == ParserSpec.ParserStatement(tokens, old(State()))
      decreases Remaining(tokens, State().pos), 8
    {
      match curToken.kind {
        case LET => stmt := ParserLetStatement();
        case RETURN => stmt := ParserReturnStatement();
        case _ => stmt := ParserExpressionStatement();
      }
    }

    method ParserLetStatement() returns (stmt: Option<Statement>)
      requires Valid()
      modifies this
      ensures Valid() && Out(stmt, State()) == ParserSpec.ParserLetStatement(tokens, old(State()))
      decreases Remaining(tokens, State().pos), 7
    {
      var letToken := curToken;
      var ok := ExpectPeek(IDENT);
      if !ok {
        return None;
      }
      var name := Identifier(curToken, curToken.literal);
      ok := ExpectPeek(ASSIGN);
      if !ok {
        return None;
      }
      NextToken();
      var value := ParserExpression(LOWEST);
      if PeekTokenIs(SEMICOLON) {
        NextToken();
      }
      return Some(LetStatement(letToken, name, value));
    }

    method ParserReturnStatement() returns (stmt: Option<Statement>)
      requires Valid()
      modifies this
      ensures Valid() && Out(stmt, State()) == ParserSpec.ParserReturnStatement(tokens, old(State()))
      decreases Remaining(tokens, State().pos), 7
    {
      var returnToken := curToken;
      NextToken();
      var value := ParserExpression(LOWEST);
      if PeekTokenIs(SEMICOLON) {
        NextToken();
      }
      return Some(ReturnStatement(returnToken, value));
    }

    method ParserExpressionStatement() returns (stmt: Option<Statement>)
      requires Valid()
      modifies this
      ensures Valid() && Out(stmt, State()) == ParserSpec.ParserExpressionStatement(tokens, old(State()))
      decreases Remaining(tokens, State().pos), 7
    {
      var first := curToken;
      var expression := ParserExpression(LOWEST);
      if PeekTokenIs(SEMICOLON) {
        NextToken();
      }
      return Some(ExpressionStatement(first, expression));
    }

    method ParserExpression(precedence: nat) returns (leftexp: Option<Expression>)
      requires Valid()
      modifies this
      ensures Valid() && Out(leftexp, State()) == ParserSpec.ParserExpression(tokens, old(State()), precedence)
      decreases Remaining(tokens, State().pos), 6
    {
      var prefix := PrefixRoutineFor(curToken.kind);
      if prefix.None? {
        NoPrefixParseFnError(curToken.kind);
        return None;
      }
      leftexp := ParsePrefix(prefix.value);
      leftexp := PrattLoop(leftexp, precedence);
    }

    /**
     * The `for` loop of parserExpression: while the peek token is not `;` and
     * binds tighter than `precedence`, hand `leftexp` to its infix routine.
     */
    method PrattLoop(left: Option<Expression>, precedence: nat) returns (leftexp: Option<Expression>)
      requires Valid()
      modifies this
      ensures Valid() && Out(leftexp, State()) == ParserSpec.PrattLoop(tokens, left, old(State()), precedence)
      decreases Remaining(tokens, State().pos), 5
    {
      ghost var s0 := State();
      leftexp := left;
      while !PeekTokenIs(SEMICOLON) && precedence < PeekPrecedence()
        invariant Valid() && s0.pos <= State().pos
        invariant ParserSpec.PrattLoop(tokens, leftexp, State(), precedence) == ParserSpec.PrattLoop(tokens, left, s0, precedence)
        decreases Remaining(tokens, State().pos)
      {
        ghost var before, leftBefore := State(), leftexp;
        assert Peek(tokens, before) == peekToken;
        var infix := InfixRoutineFor(peekToken.kind);
        if infix.None? {
          assert ParserSpec.PrattLoop(tokens, leftexp, before, precedence) == Out(leftexp, before);
          return leftexp;
        }
        NextToken();
        match infix.value {
          case ParseInfixExpressionFn => leftexp := ParseInfixExpression(leftexp);
          case ParseCallExpressionFn => leftexp := ParseCallExpression(leftexp);
        }
        assert ParserSpec.PrattLoop(tokens, leftBefore, before, precedence) == ParserSpec.PrattLoop(tokens, leftexp, State(), precedence);
      }
      assert Peek(tokens, State()) == peekToken;
      assert ParserSpec.PrattLoop(tokens, leftexp, State(), precedence) == Out(leftexp, State());
    }

    /** Run the prefix routine the table holds for the current token. */
    method ParsePrefix(routine: PrefixRoutine) returns (left: Option<Expression>)
      requires Valid() && PrefixRoutineFor(curToken.kind) == Some(routine)
      modifies this
      ensures Valid() && Out(left, State()) == ParserSpec.ParsePrefix(tokens, old(State()), routine)
      decreases Remaining(tokens, State().pos), 5
    {
      match routine {
        case ParserIdentifierFn => left := ParserIdentifier();
        case ParseIntegerLiteralFn => left := ParseIntegerLiteral();
        case ParsePrefixExpressionFn => left := ParsePrefixExpression();
        case ParseBooleanExpressionFn => left := ParseBooleanExpression();
        case ParseGroupedExpressionFn => left := ParseGroupedExpression();
        case ParseIfExpressionFn => left := ParseIfExpression();
        case ParseFunctionLiteralFn => left := ParseFunctionLiteral();
        case ParseStringExpressionFn => left := ParseStringExpression();
      }
    }

    function ParserIdentifier(): (r: Option<Expression>)
      reads this
      ensures Valid() && curToken.kind == IDENT ==> Out(r, State()) == ParserSpec.ParsePrefix(tokens, State(), ParserIdentifierFn)
    {
      Some(Ident(Identifier(curToken, curToken.literal)))
    }

    method ParseIntegerLiteral() returns (lit: Option<Expression>)
      requires Valid()
      modifies this
      ensures Valid() && Out(lit, State()) == ParserSpec.ParseIntegerLiteral(tokens, old(State()))
    {
      var value := Strconv.ParseInt64(curToken.literal);
      if value.None? {
        errors := errors + [NotAnInteger(curToken.literal)];
        return None;
      }
      return Some(IntegerLiteral(curToken, value.value));
    }

    method ParsePrefixExpression() returns (expression: Option<Expression>)
      requires Valid() && PrefixRoutineFor(curToken.kind) == Some(ParsePrefixExpressionFn)
      modifies this
      ensures Valid() && Out(expression, State()) == ParserSpec.ParsePrefixExpression(tokens, old(State()))
      decreases Remaining(tokens, State().pos), 4
    {
      var operator := curToken;
      NextToken();
      var right := ParserExpression(PREFIX);
      return Some(PrefixExpression(operator, operator.literal, right));
    }

    method ParseInfixExpression(left: Option<Expression>) returns (expression: Option<Expression>)
      requires Valid()
      modifies this
      ensures Valid() && Out(expression, State()) == ParserSpec.ParseInfixExpression(tokens, left, old(State()))
      decreases Remaining(tokens, State().pos), 7
    {
      var operator := curToken;
      var precedence := CurPrecedence();
      NextToken();
      var right := ParserExpression(precedence);
      return Some(InfixExpression(operator, left, operator.literal, right));
    }

    function ParseBooleanExpression(): (r: Option<Expression>)
      reads this
      ensures Valid() && curToken.kind in {TRUE, FALSE} ==> Out(r, State()) == ParserSpec.ParsePrefix(tokens, State(), ParseBooleanExpressionFn)
    {
      Some(Boolean(curToken, CurTokenIs(TRUE)))
    }

    method ParseGroupedExpression() returns (exp: Option<Expression>)
      requires Valid() && PrefixRoutineFor(curToken.kind) == Some(ParseGroupedExpressionFn)
      modifies this
      ensures Valid() && Out(exp, State()) == ParserSpec.ParseGroupedExpression(tokens, old(State()))
      decreases Remaining(tokens, State().pos), 4
    {
      NextToken();
      exp := ParserExpression(LOWEST);
      var ok := ExpectPeek(RPAREN);
      if !ok {
        return None;
      }
    }

    method ParseIfExpression() returns (expression: Option<Expression>)
      requires Valid()
      modifies this
      ensures Valid() && Out(expression, State()) == ParserSpec.ParseIfExpression(tokens, old(State()))
      decreases Remaining(tokens, State().pos), 4
    {
      var ifToken := curToken;
      var ok := ExpectPeek(LPAREN);
      if !ok {
        return None;
      }
      NextToken();
      var condition := ParserExpression(LOWEST);
      ok := ExpectPeek(RPAREN);
      if !ok {
        return None;
      }
      ok := ExpectPeek(LBRACE);
      if !ok {
        return None;
      }
      var consequence := ParseBlockStatement();
      var alternative := ParseAlternative();
      if alternative.None? {
        return None;
      }
      expression := Some(IfExpression(ifToken, condition, consequence, alternative.value));
    }

    /** The `else` branch of parseIfExpression: `Some(None)` when there is none. */
    method ParseAlternative() returns (alternative: Option<Option<BlockStatement>>)
      requires Valid()
      modifies this
      ensures Valid() && Out(alternative, State()) == ParserSpec.ParseAlternative(tokens, old(State()))
      decreases Remaining(tokens, State().pos), 4
    {
      if !PeekTokenIs(ELSE) {
        return Some(None);
      }
      NextToken();
      var ok := ExpectPeek(LBRACE);
      if !ok {
        return None;
      }
      var block := ParseBlockStatement();
      return Some(Some(block));
    }

    method ParseBlockStatement() returns (block: BlockStatement)
      requires Valid()
      modifies this
      ensures Valid() && Out(block, State()) == ParserSpec.ParseBlockStatement(tokens, old(State()))
      decreases Remaining(tokens, State().pos), 10
    {
      ghost var s0 := State();
      var blockToken := curToken;
      var statements: seq<Statement> := [];
      NextToken();
      ghost var s1 := State();
      while !CurTokenIs(RBRACE) && !CurTokenIs(EOF)
        invariant Valid() && s0.pos < State().pos
        invariant BlockLoop(tokens, statements, State()) == BlockLoop(tokens, [], s1)
        decreases Remaining(tokens, State().pos)
      {
        var stmt := ParserStatement();
        if stmt.Some? {
          statements := statements + [stmt.value];
        }
        NextToken();
      }
      block := BlockStatement(blockToken, statements);
    }

    method ParseFunctionLiteral() returns (funLit: Option<Expression>)
      requires Valid()
      modifies this
      ensures Valid() && Out(funLit, State()) == ParserSpec.ParseFunctionLiteral(tokens, old(State()))
      decreases Remaining(tokens, State().pos), 4
    {
      var fnToken := curToken;
      var ok := ExpectPeek(LPAREN);
      if !ok {
        return None;
      }
      var parameters := ParseParameters();
      ok := ExpectPeek(LBRACE);
      if !ok {
        return None;
      }
      var body := ParseBlockStatement();
      return Some(FunctionLiteral(fnToken, parameters, body));
    }

    method ParseParameters() returns (identifiers: Option<seq<Identifier>>)
      requires Valid()
      modifies this
      ensures Valid() && Out(identifiers, State()) == ParserSpec.ParseParameters(tokens, old(State()))
    {
      if PeekTokenIs(RPAREN) {
        NextToken();
        return Some([]);
      }
      NextToken();
      var list := [Identifier(curToken, curToken.literal)];
      ghost var s1, first := State(), list;
      while PeekTokenIs(COMMA)
        invariant Valid()
        invariant ParametersLoop(tokens, list, State()) == ParametersLoop(tokens, first, s1)
        decreases Remaining(tokens, State().pos)
      {
        NextToken();
        NextToken();
        list := list + [Identifier(curToken, curToken.literal)];
      }
      assert ParametersLoop(tokens, list, State()) == Out(list, State());
      var ok := ExpectPeek(RPAREN);
      if !ok {
        return None;
      }
      return Some(list);
    }

    method ParseCallExpression(callee: Option<Expression>) returns (callExp: Option<Expression>)
      requires Valid()
      modifies this
      ensures Valid() && Out(callExp, State()) == ParserSpec.ParseCallExpression(tokens, callee, old(State()))
      decreases Remaining(tokens, State().pos), 8
    {
      var lparen := curToken;
      var arguments := ParseCallArguments();
      return Some(CallExpression(lparen, callee, arguments));
    }

    method ParseCallArguments() returns (args: Option<seq<Option<Expression>>>)
      requires Valid()
      modifies this
      ensures Valid() && Out(args, State()) == ParserSpec.ParseCallArguments(tokens, old(State()))
      decreases Remaining(tokens, State().pos), 7
    {
      if PeekTokenIs(RPAREN) {
        NextToken();
        return Some([]);
      }
      NextToken();
      var arg := ParserExpression(LOWEST);
      var list := ParseMoreArguments([arg]);
      var ok := ExpectPeek(RPAREN);
      if !ok {
        return None;
      }
      return Some(list);
    }

    /** The comma loop of parseCallArguments: while a comma comes next, skip it and append the following argument. */
    method ParseMoreArguments(first: seq<Option<Expression>>) returns (list: seq<Option<Expression>>)
      requires Valid()
      modifies this
      ensures Valid() && Out(list, State()) == ArgumentsLoop(tokens, first, old(State()))
      decreases Remaining(tokens, State().pos), 6
    {
      ghost var s0 := State();
      list := first;
      while PeekTokenIs(COMMA)
        invariant Valid() && s0.pos <= State().pos
        invariant ArgumentsLoop(tokens, list, State()) == ArgumentsLoop(tokens, first, s0)
        decreases Remaining(tokens, State().pos)
      {
        ghost var before, listBefore := State(), list;
        NextToken();
        NextToken();
        var arg := ParserExpression(LOWEST);
        list := list + [arg];
        assert ArgumentsLoop(tokens, listBefore, before) == ArgumentsLoop(tokens, list, State());
      }
      assert ArgumentsLoop(tokens, list, State()) == Out(list, State());
    }

    function ParseStringExpression(): (r: Option<Expression>)
      reads this
      ensures Valid() && curToken.kind == STRING ==> Out(r, State()) == ParserSpec.ParsePrefix(tokens, State(), ParseStringExpressionFn)
    {
      Some(StringLiteral(curToken, curToken.literal))
    }
  }

  /**
   * What the callers in the tests do: build a parser over the lexer's output,
   * parse the whole program, and read the errors.
   */
  method Parse(ts: seq<Token>) returns (program: Program, errors: seq<ParseError>)
    ensures program == ParserSpec.ParserProgram(ts, St(0, [])).val
    ensures errors == ParserSpec.ParserProgram(ts, St(0, [])).st.errors
  {
    var p := new Parser(ts);
    program := p.ParserProgram();
    errors := p.Errors();
  }
}
