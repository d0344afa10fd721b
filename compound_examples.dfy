/**
 * The compound forms of parser/parser_test.go (an if-expression with an
 * `else`, a function literal with two parameters) stated over the token
 * sequences the lexer turns them into.
 */
module CompoundExamples {
  import opened Wrappers
  import opened Tokens
  import opened Ast
  import opened ParserSpec
  import opened ParserProperties
  import opened PrecedenceProperties
  import opened ParserExamples

  /** An expression closed by `;` is one expression statement, ending on the `;`. */
  lemma ExpressionStatementStep(ts: seq<Token>, s: St, e: Expression, t: St)
    requires Cur(ts, s).kind != LET && Cur(ts, s).kind != RETURN
    requires ParserExpression(ts, s, LOWEST) == Out(Some(e), t) && Peek(ts, t).kind == SEMICOLON
    ensures ParserStatement(ts, s) == Out(Some(ExpressionStatement(Cur(ts, s), Some(e))), Next(t))
  {
  }

  /** A kept statement is appended to the block, and the block loop goes on after its last token. */
  lemma BlockLoopStep(ts: seq<Token>, acc: seq<Statement>, s: St, stmt: Statement, t: St)
    requires Cur(ts, s).kind != RBRACE && Cur(ts, s).kind != EOF
    requires ParserStatement(ts, s) == Out(Some(stmt), t)
    ensures BlockLoop(ts, acc, s) == BlockLoop(ts, acc + [stmt], Next(t))
  {
  }

  /**
   * `{ e; }`: a block holding one expression statement whose expression ends
   * before a `;` that is followed by `}`; the block ends on that `}`.
   */
  lemma BlockOfOneStatement(ts: seq<Token>, s: St, e: Expression, t: St)
    requires Cur(ts, s).kind == LBRACE
    requires At(ts, s.pos + 1).kind !in {LET, RETURN, RBRACE, EOF}
    requires ParserExpression(ts, Next(s), LOWEST) == Out(Some(e), t)
    requires Peek(ts, t).kind == SEMICOLON && At(ts, t.pos + 2).kind == RBRACE
    ensures ParseBlockStatement(ts, s)
              == Out(BlockStatement(Cur(ts, s), [ExpressionStatement(At(ts, s.pos + 1), Some(e))]), Next(Next(t)))
  {
    var first := Next(s);
    assert Cur(ts, first) == At(ts, s.pos + 1);
    ExpressionStatementStep(ts, first, e, t);
    assert Peek(ts, Next(t)) == At(ts, t.pos + 2);
    BlockOfStatement(ts, s, ExpressionStatement(At(ts, s.pos + 1), Some(e)), Next(t));
  }

  /** `{` then one kept statement then `}`: a block of that statement, ending on the `}`. */
  lemma BlockOfStatement(ts: seq<Token>, s: St, stmt: Statement, t: St)
    requires Cur(ts, Next(s)).kind != RBRACE && Cur(ts, Next(s)).kind != EOF
    requires ParserStatement(ts, Next(s)) == Out(Some(stmt), t) && Peek(ts, t).kind == RBRACE
    ensures ParseBlockStatement(ts, s) == Out(BlockStatement(Cur(ts, s), [stmt]), Next(t))
  {
    BlockLoopStep(ts, [], Next(s), stmt, t);
    assert [] + [stmt] == [stmt];
    BlockLoopEnds(ts, [stmt], Next(t));
  }

  /** `{ atom; }` is a block of one expression statement holding the atom. */
  lemma BlockOfOneAtom(ts: seq<Token>, s: St)
    requires Cur(ts, s).kind == LBRACE && IsAtom(At(ts, s.pos + 1))
    requires At(ts, s.pos + 2).kind == SEMICOLON && At(ts, s.pos + 3).kind == RBRACE
    ensures ParseBlockStatement(ts, s)
              == Out(BlockStatement(Cur(ts, s), [ExpressionStatement(At(ts, s.pos + 1), Some(Atom(At(ts, s.pos + 1))))]),
                     St(s.pos + 3, s.errors))
  {
    AtomExpression(ts, St(s.pos + 1, s.errors), LOWEST);
    BlockOfOneStatement(ts, s, Atom(At(ts, s.pos + 1)), St(s.pos + 1, s.errors));
  }

  /** A program that is one expression ending on its last token is one expression statement. */
  lemma WholeExpressionProgram(ts: seq<Token>, e: Expression)
    requires |ts| > 0 && At(ts, 0).kind !in {LET, RETURN, EOF}
    requires ParserExpression(ts, St(0, []), LOWEST) == Out(Some(e), St(|ts| - 1, []))
    ensures Parsed(ts).val == Program([ExpressionStatement(At(ts, 0), Some(e))])
    ensures Parsed(ts).st.errors == []
  {
    OneExpressionProgram(ts, e, |ts| - 1);
  }

  /** A program that is one if-expression, running to the last token, is that one expression statement. */
  lemma {:induction false} IfProgram(ts: seq<Token>, e: Expression)
    requires |ts| > 0 && At(ts, 0).kind == IF
    requires ParseIfExpression(ts, St(0, [])) == Out(Some(e), St(|ts| - 1, []))
    ensures Parsed(ts).val == Program([ExpressionStatement(At(ts, 0), Some(e))])
    ensures Parsed(ts).st.errors == []
  {
    CompoundPrefix(ts, St(0, []));
    PrefixFormIsWholeExpression(ts, St(0, []), ParseIfExpressionFn, e, St(|ts| - 1, []));
    WholeExpressionProgram(ts, e);
  }

  /** A program that is one function literal, running to the last token, is that one expression statement. */
  lemma {:induction false} FunctionLiteralProgram(ts: seq<Token>, e: Expression)
    requires |ts| > 0 && At(ts, 0).kind == FUNCTION
    requires ParseFunctionLiteral(ts, St(0, [])) == Out(Some(e), St(|ts| - 1, []))
    ensures Parsed(ts).val == Program([ExpressionStatement(At(ts, 0), Some(e))])
    ensures Parsed(ts).st.errors == []
  {
    CompoundPrefix(ts, St(0, []));
    PrefixFormIsWholeExpression(ts, St(0, []), ParseFunctionLiteralFn, e, St(|ts| - 1, []));
    WholeExpressionProgram(ts, e);
  }

  // ---------------------------------------------------------- if / else

  /** The tokens of `if(x < y) { y; } else { x; }`. */
  const IfElseTokens := [If, LParen, Name("x"), Less, Name("y"), RParen,
                         LBrace, Name("y"), Semi, RBrace, Else, LBrace, Name("x"), Semi, RBrace]

  function ThenBlock(): BlockStatement
  {
    BlockStatement(LBrace, [ExpressionStatement(Name("y"), Some(Var("y")))])
  }

  function ElseBlock(): BlockStatement
  {
    BlockStatement(LBrace, [ExpressionStatement(Name("x"), Some(Var("x")))])
  }

  /** The condition is `x < y`, and it ends before the `)`. */
  lemma IfElseCondition()
    ensures ParserExpression(IfElseTokens, St(2, []), LOWEST) == Out(Some(Infix(Less, Var("x"), Var("y"))), St(4, []))
  {
    EqualPrecedenceGroupsLeft(IfElseTokens, St(2, []), 1, LESSGREATER, LOWEST);
  }

  /** The consequence `{ y; }` ends on its `}`, and the `else { x; }` after it is the alternative. */
  lemma IfElseBranches()
    ensures ParseBlockStatement(IfElseTokens, St(6, [])) == Out(ThenBlock(), St(9, []))
    ensures ParseAlternative(IfElseTokens, St(9, [])) == Out(Some(Some(ElseBlock())), St(14, []))
  {
    BlockOfOneAtom(IfElseTokens, St(6, []));
    BlockOfOneAtom(IfElseTokens, St(11, []));
  }

  /** The if-expression has condition `x < y`, consequence `y` and alternative `x`. */
  lemma IfElseExpression()
    ensures ParseIfExpression(IfElseTokens, St(0, []))
              == Out(Some(IfExpression(If, Some(Infix(Less, Var("x"), Var("y"))), ThenBlock(), Some(ElseBlock()))), St(14, []))
  {
    IfElseCondition();
    IfElseBranches();
  }

  /** `if(x < y) { y; } else { x; }` is one expression statement holding that if-expression, with no diagnostic. */
  lemma IfElse()
    ensures Parsed(IfElseTokens).val
              == Program([ExpressionStatement(If,
                   Some(IfExpression(If, Some(Infix(Less, Var("x"), Var("y"))), ThenBlock(), Some(ElseBlock()))))])
    ensures Parsed(IfElseTokens).st.errors == []
  {
    IfElseExpression();
    IfProgram(IfElseTokens, IfExpression(If, Some(Infix(Less, Var("x"), Var("y"))), ThenBlock(), Some(ElseBlock())));
  }

  // -------------------------------------------------------- function literal

  /** The tokens of `fn(x,y) {x + y;}`. */
  const FnTokens := [Fn, LParen, Name("x"), Comma, Name("y"), RParen, LBrace, Name("x"), Plus, Name("y"), Semi, RBrace]

  function FnBody(): BlockStatement
  {
    BlockStatement(LBrace, [ExpressionStatement(Name("x"), Some(Infix(Plus, Var("x"), Var("y"))))])
  }

  /** The parameters are x and y, in that order, and the list ends on its `)`. */
  lemma FnParameters()
    ensures ParseParameters(FnTokens, St(1, [])) == Out(Some([IdentifierOf(Name("x")), IdentifierOf(Name("y"))]), St(5, []))
  {
    assert CommaList(FnTokens, 4, 0);
    assert CommaList(FnTokens, 2, 1);
    ParametersInOrder(FnTokens, St(1, []), 1);
    assert ListedNames(FnTokens, 2, 1) == [IdentifierOf(Name("y"))];
    assert [IdentifierOf(Name("x"))] + [IdentifierOf(Name("y"))] == [IdentifierOf(Name("x")), IdentifierOf(Name("y"))];
  }

  /** The body is the one statement `x + y`, and it ends on its `}`. */
  lemma FnBodyBlock()
    ensures ParseBlockStatement(FnTokens, St(6, [])) == Out(FnBody(), St(11, []))
  {
    EqualPrecedenceGroupsLeft(FnTokens, St(7, []), 1, SUM, LOWEST);
    BlockOfOneStatement(FnTokens, St(6, []), Infix(Plus, Var("x"), Var("y")), St(9, []));
  }

  /** The function literal takes the parameters x, y and the body block, and ends on the last `}`. */
  lemma FnLiteral()
    ensures ParseFunctionLiteral(FnTokens, St(0, []))
              == Out(Some(FunctionLiteral(Fn, Some([IdentifierOf(Name("x")), IdentifierOf(Name("y"))]), FnBody())), St(11, []))
  {
    FnParameters();
    FnBodyBlock();
    assert Next(St(5, [])) == St(6, []);
    FunctionLiteralShape(FnTokens, St(0, []));
  }

  /** `fn(x,y) {x + y;}` is one expression statement holding a function literal with parameters x, y and body x + y. */
  lemma FunctionLiteralExample()
    ensures Parsed(FnTokens).val
              == Program([ExpressionStatement(Fn,
                   Some(FunctionLiteral(Fn, Some([IdentifierOf(Name("x")), IdentifierOf(Name("y"))]), FnBody())))])
    ensures Parsed(FnTokens).st.errors == []
  {
    var e := FunctionLiteral(Fn, Some([IdentifierOf(Name("x")), IdentifierOf(Name("y"))]), FnBody());
    FnLiteral();
    FunctionLiteralProgram(FnTokens, e);
  }

  // ---------------------------------------------------------------- call

  /** The tokens of `f(a, b)`. */
  const CallTokens := [Name("f"), LParen, Name("a"), Comma, Name("b"), RParen]

  /** The arguments are a and b, in that order, and the list ends on its `)`. */
  lemma CallArguments()
    ensures ParseCallArguments(CallTokens, St(1, [])) == Out(Some([Some(Var("a")), Some(Var("b"))]), St(5, []))
  {
    assert AtomCommaList(CallTokens, 4, 0);
    assert AtomCommaList(CallTokens, 2, 1);
    ArgumentsInOrder(CallTokens, St(1, []), 1);
    assert Atom(Name("a")) == Var("a") && Atom(Name("b")) == Var("b");
    assert ListedAtoms(CallTokens, 2, 1) == [Some(Var("b"))];
    assert [Some(Var("a"))] + [Some(Var("b"))] == [Some(Var("a")), Some(Var("b"))];
  }

  /** After the callee, the loop takes `(a, b)` as its one call and stops at the end of input. */
  lemma CallLoop(e: Expression)
    requires e == CallExpression(LParen, Some(Var("f")), Some([Some(Var("a")), Some(Var("b"))]))
    ensures PrattLoop(CallTokens, Some(Var("f")), St(0, []), LOWEST) == Out(Some(e), St(5, []))
  {
    CallArguments();
    assert Next(St(0, [])) == St(1, []);
    assert ParseCallExpression(CallTokens, Some(Var("f")), St(1, [])) == Out(Some(e), St(5, []));
    CallStep(CallTokens, Some(Var("f")), St(0, []), LOWEST, Out(Some(e), St(5, [])));
    assert At(CallTokens, 6) == EndOfInput;
    PrattLoopStops(CallTokens, Some(e), St(5, []), LOWEST);
  }

  /** The callee `f` followed by `(a, b)` is one call expression, and nothing follows it. */
  lemma CallWhole()
    ensures ParserExpression(CallTokens, St(0, []), LOWEST)
              == Out(Some(CallExpression(LParen, Some(Var("f")), Some([Some(Var("a")), Some(Var("b"))]))), St(5, []))
  {
    CallLoop(CallExpression(LParen, Some(Var("f")), Some([Some(Var("a")), Some(Var("b"))])));
    assert PrefixRoutineFor(IDENT) == Some(ParserIdentifierFn) && Cur(CallTokens, St(0, [])) == Name("f");
  }

  /** `f(a, b)` is one expression statement holding a call of f with arguments a and b, with no diagnostic. */
  lemma CallExample()
    ensures Parsed(CallTokens).val
              == Program([ExpressionStatement(Name("f"),
                   Some(CallExpression(LParen, Some(Var("f")), Some([Some(Var("a")), Some(Var("b"))]))))])
    ensures Parsed(CallTokens).st.errors == []
  {
    CallWhole();
    WholeExpressionProgram(CallTokens, CallExpression(LParen, Some(Var("f")), Some([Some(Var("a")), Some(Var("b"))])));
  }
}
