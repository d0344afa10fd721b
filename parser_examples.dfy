/**
 * The programs of parser/parser_test.go, stated over the token sequences the
 * lexer turns them into, and what ParserProgram makes of each: the
 * statements it keeps and the diagnostics it records.
 */
module ParserExamples {
  import opened Wrappers
  import opened Tokens
  import opened Ast
  import opened ParserSpec
  import opened ParserProperties
  import opened PrecedenceProperties

  // ---------------------------------------------------------------- tokens

  function Name(x: string): Token { Token(IDENT, x) }
  function Number(x: string): Token { Token(INT, x) }

  const Plus := Token(PLUS, "+")
  const Minus := Token(MINUS, "-")
  const Bang := Token(BANG, "!")
  const Times := Token(ASTERISK, "*")
  const Over := Token(SLASH, "/")
  const Less := Token(LT, "<")
  const Greater := Token(GT, ">")
  const Equals := Token(EQ, "==")
  const Assign := Token(ASSIGN, "=")
  const Comma := Token(COMMA, ",")
  const Semi := Token(SEMICOLON, ";")
  const LParen := Token(LPAREN, "(")
  const RParen := Token(RPAREN, ")")
  const LBrace := Token(LBRACE, "{")
  const RBrace := Token(RBRACE, "}")
  const Let := Token(LET, "let")
  const Return := Token(RETURN, "return")
  const If := Token(IF, "if")
  const Else := Token(ELSE, "else")
  const Fn := Token(FUNCTION, "fn")
  const True := Token(TRUE, "true")
  const False := Token(FALSE, "false")

  /** The nodes the tests expect. */
  function Var(x: string): Expression { Ident(Identifier(Name(x), x)) }
  function Neg(op: Token, e: Expression): Expression { PrefixExpression(op, op.literal, Some(e)) }

  /** What the parser makes of a whole token sequence, from a freshly created parser. */
  function Parsed(ts: seq<Token>): Out<Program>
  {
    ParserProgram(ts, St(0, []))
  }

  /** The statement loop of ParserProgram from state s, with the statements acc already kept. */
  function Loop(ts: seq<Token>, acc: seq<Statement>, s: St): Out<seq<Statement>>
  {
    ProgramLoop(ts, acc, s)
  }

  /** The token of the integer literal n, written in decimal as the lexer reads it. */
  function Numeral(n: nat): Token { Number(Strconv.DecimalString(n)) }

  function Int(n: nat): Expression { IntegerLiteral(Numeral(n), n) }

  /** A numeral within 64 bits is an atom standing for its own value. */
  lemma NumeralAtom(n: nat)
    requires n <= Strconv.MaxInt64
    ensures IsAtom(Numeral(n)) && Atom(Numeral(n)) == Int(n)
  {
    Strconv.ParseInt64OfDecimal(n);
  }

  /** The literal texts of the numerals in the examples. */
  lemma NumeralTexts()
    ensures Numeral(1).literal == "1" && Numeral(2).literal == "2" && Numeral(3).literal == "3"
    ensures Numeral(4).literal == "4" && Numeral(5).literal == "5"
    ensures Numeral(10).literal == "10" && Numeral(838383).literal == "838383" && Numeral(993322).literal == "993322"
  {
    assert Strconv.DecimalString(10) == "10";
    assert Strconv.DecimalString(838383) == "838383";
    assert Strconv.DecimalString(993322) == "993322";
  }

  // ------------------------------------------------------ program helpers

  /** A program that is one expression, optionally closed by `;`, is one expression statement. */
  lemma OneExpressionProgram(ts: seq<Token>, e: Expression, n: nat)
    requires At(ts, 0).kind != LET && At(ts, 0).kind != RETURN && At(ts, 0).kind != EOF
    requires ParserExpression(ts, St(0, []), LOWEST) == Out(Some(e), St(n, []))
    requires Cur(ts, Next(SkipSemicolon(ts, St(n, [])))).kind == EOF
    ensures Parsed(ts).val == Program([ExpressionStatement(At(ts, 0), Some(e))])
    ensures Parsed(ts).st.errors == []
  {
    var stmt := ExpressionStatement(At(ts, 0), Some(e));
    var rest := Next(SkipSemicolon(ts, St(n, [])));
    assert ParserStatement(ts, St(0, [])) == Out(Some(stmt), SkipSemicolon(ts, St(n, [])));
    assert Keep([], Some(stmt)) == [stmt];
    assert ProgramLoop(ts, [], St(0, [])) == ProgramLoop(ts, [stmt], rest);
    ProgramLoopEndsAtEof(ts, [stmt], rest);
  }

  // ------------------------------------------------------------ precedence

  /** `-a * b` is `((-a) * b)`: the prefix operator binds tighter. */
  lemma NegationBeforeProduct()
    ensures var ts := [Minus, Name("a"), Times, Name("b")];
            && Parsed(ts).val == Program([ExpressionStatement(Minus, Some(Infix(Times, Neg(Minus, Var("a")), Var("b"))))])
            && Parsed(ts).st.errors == []
  {
    var ts := [Minus, Name("a"), Times, Name("b")];
    var neg := Neg(Minus, Var("a"));
    PrefixBindsTighter(ts, St(0, []), LOWEST);
    OperatorAtomStep(ts, neg, St(1, []), LOWEST);
    PrattLoopStops(ts, Some(Infix(Times, neg, Var("b"))), St(3, []), LOWEST);
    OneExpressionProgram(ts, Infix(Times, neg, Var("b")), 3);
  }

  /** `!-a` is `(!(-a))`: a prefix operator's operand may itself be a prefix expression. */
  lemma NestedPrefix()
    ensures var ts := [Bang, Minus, Name("a")];
            && Parsed(ts).val == Program([ExpressionStatement(Bang, Some(Neg(Bang, Neg(Minus, Var("a")))))])
            && Parsed(ts).st.errors == []
  {
    var ts := [Bang, Minus, Name("a")];
    var inner := Neg(Minus, Var("a"));
    PrefixBindsTighter(ts, St(1, []), PREFIX);
    PrattLoopStops(ts, Some(inner), St(2, []), PREFIX);
    PrefixStep(ts, St(0, []), LOWEST, inner, St(2, []));
    PrattLoopStops(ts, Some(Neg(Bang, inner)), St(2, []), LOWEST);
    OneExpressionProgram(ts, Neg(Bang, inner), 2);
  }

  /** `a + b - c` is `((a + b) - c)`: operators of one precedence group to the left. */
  lemma SumsGroupLeft()
    ensures var ts := [Name("a"), Plus, Name("b"), Minus, Name("c")];
            && Parsed(ts).val == Program([ExpressionStatement(Name("a"), Some(Infix(Minus, Infix(Plus, Var("a"), Var("b")), Var("c"))))])
            && Parsed(ts).st.errors == []
  {
    var ts := [Name("a"), Plus, Name("b"), Minus, Name("c")];
    EqualPrecedenceGroupsLeft(ts, St(0, []), 2, SUM, LOWEST);
    OneExpressionProgram(ts, Infix(Minus, Infix(Plus, Var("a"), Var("b")), Var("c")), 4);
  }

  /** `a * b / c` is `((a * b) / c)`. */
  lemma ProductsGroupLeft()
    ensures var ts := [Name("a"), Times, Name("b"), Over, Name("c")];
            && Parsed(ts).val == Program([ExpressionStatement(Name("a"), Some(Infix(Over, Infix(Times, Var("a"), Var("b")), Var("c"))))])
            && Parsed(ts).st.errors == []
  {
    var ts := [Name("a"), Times, Name("b"), Over, Name("c")];
    TwoOperators(ts, St(0, []), LOWEST);
    OneExpressionProgram(ts, Infix(Over, Infix(Times, Var("a"), Var("b")), Var("c")), 4);
  }

  /** `a + b / c` is `(a + (b / c))`: the tighter operator takes the operand between them. */
  lemma ProductBeforeSum()
    ensures var ts := [Name("a"), Plus, Name("b"), Over, Name("c")];
            && Parsed(ts).val == Program([ExpressionStatement(Name("a"), Some(Infix(Plus, Var("a"), Infix(Over, Var("b"), Var("c")))))])
            && Parsed(ts).st.errors == []
  {
    var ts := [Name("a"), Plus, Name("b"), Over, Name("c")];
    TwoOperators(ts, St(0, []), LOWEST);
    OneExpressionProgram(ts, Infix(Plus, Var("a"), Infix(Over, Var("b"), Var("c"))), 4);
  }

  /** `3 > 5 == false` is `((3 > 5) == false)`. */
  lemma ComparisonBeforeEquality()
    ensures var ts := [Numeral(3), Greater, Numeral(5), Equals, False];
            && Parsed(ts).val
                 == Program([ExpressionStatement(Numeral(3), Some(Infix(Equals, Infix(Greater, Int(3), Int(5)), Boolean(False, false))))])
            && Parsed(ts).st.errors == []
  {
    var ts := [Numeral(3), Greater, Numeral(5), Equals, False];
    NumeralAtom(3);
    NumeralAtom(5);
    TwoOperators(ts, St(0, []), LOWEST);
    OneExpressionProgram(ts, Infix(Equals, Infix(Greater, Int(3), Int(5)), Boolean(False, false)), 4);
  }

  /** The tokens of `1 + (2 + 3) + 4`. */
  const GroupedSum := [Numeral(1), Plus, LParen, Numeral(2), Plus, Numeral(3), RParen, Plus, Numeral(4)]

  /** Inside the parentheses, `2 + 3` is parsed up to the `)`. */
  lemma GroupInside()
    ensures ParserExpression(GroupedSum, St(3, []), LOWEST) == Out(Some(Infix(Plus, Int(2), Int(3))), St(5, []))
  {
    NumeralAtom(2);
    NumeralAtom(3);
    EqualPrecedenceGroupsLeft(GroupedSum, St(3, []), 1, SUM, LOWEST);
  }

  /** Inside `1 + (2 + 3) + 4`, the right operand of the first `+` is the whole group. */
  lemma GroupIsRightOperand()
    ensures ParserExpression(GroupedSum, St(2, []), SUM) == Out(Some(Infix(Plus, Int(2), Int(3))), St(6, []))
  {
    var group := Infix(Plus, Int(2), Int(3));
    GroupInside();
    GroupIsOneOperand(GroupedSum, St(2, []), SUM, group, St(5, []));
    PrattLoopStops(GroupedSum, Some(group), St(6, []), SUM);
  }

  /** `1 + (2 + 3) + 4` is `((1 + (2 + 3)) + 4)`: a parenthesised group is one operand. */
  lemma ParenthesesGroup()
    ensures && Parsed(GroupedSum).val
                 == Program([ExpressionStatement(Numeral(1), Some(Infix(Plus, Infix(Plus, Int(1), Infix(Plus, Int(2), Int(3))), Int(4))))])
            && Parsed(GroupedSum).st.errors == []
  {
    var ts := GroupedSum;
    NumeralAtom(1);
    NumeralAtom(4);
    var group := Infix(Plus, Int(2), Int(3));
    GroupIsRightOperand();
    AtomPrefix(ts, St(0, []));
    OperatorStep(ts, Int(1), St(0, []), LOWEST, group, St(6, []));
    OperatorAtomStep(ts, Infix(Plus, Int(1), group), St(6, []), LOWEST);
    PrattLoopStops(ts, Some(Infix(Plus, Infix(Plus, Int(1), group), Int(4))), St(8, []), LOWEST);
    OneExpressionProgram(ts, Infix(Plus, Infix(Plus, Int(1), group), Int(4)), 8);
  }

  /** `-(5 + 5)` is `(-(5 + 5))`: a group is a complete operand for a prefix operator too. */
  lemma NegatedGroup()
    ensures var ts := [Minus, LParen, Numeral(5), Plus, Numeral(5), RParen];
            && Parsed(ts).val == Program([ExpressionStatement(Minus, Some(Neg(Minus, Infix(Plus, Int(5), Int(5)))))])
            && Parsed(ts).st.errors == []
  {
    var ts := [Minus, LParen, Numeral(5), Plus, Numeral(5), RParen];
    var group := Infix(Plus, Int(5), Int(5));
    NumeralAtom(5);
    EqualPrecedenceGroupsLeft(ts, St(2, []), 1, SUM, LOWEST);
    GroupIsOneOperand(ts, St(1, []), PREFIX, group, St(4, []));
    PrattLoopStops(ts, Some(group), St(5, []), PREFIX);
    PrefixStep(ts, St(0, []), LOWEST, group, St(5, []));
    PrattLoopStops(ts, Some(Neg(Minus, group)), St(5, []), LOWEST);
    OneExpressionProgram(ts, Neg(Minus, group), 5);
  }

  /** `5;` is one expression statement holding the integer 5, with the literal text as its token. */
  lemma IntegerStatement()
    ensures var ts := [Numeral(5), Semi];
            && Parsed(ts).val == Program([ExpressionStatement(Numeral(5), Some(Int(5)))])
            && Parsed(ts).st.errors == []
  {
    var ts := [Numeral(5), Semi];
    NumeralAtom(5);
    AtomExpression(ts, St(0, []), LOWEST);
    OneExpressionProgram(ts, Int(5), 0);
  }

  // ------------------------------------------------------------ statements

  /** A kept statement is appended, and the loop goes on after its last token. */
  lemma ProgramLoopStep(ts: seq<Token>, acc: seq<Statement>, s: St, stmt: Statement, t: St)
    requires Cur(ts, s).kind != EOF && ParserStatement(ts, s) == Out(Some(stmt), t)
    ensures ProgramLoop(ts, acc, s) == ProgramLoop(ts, acc + [stmt], Next(t))
  {
  }

  /** `let name = atom;` at position i. */
  predicate LetOfAtomAt(ts: seq<Token>, i: nat)
  {
    && At(ts, i).kind == LET && At(ts, i + 1).kind == IDENT && At(ts, i + 2).kind == ASSIGN
    && IsAtom(At(ts, i + 3)) && At(ts, i + 4).kind == SEMICOLON
  }

  function LetOfAtomStatement(ts: seq<Token>, i: nat): Statement
    requires LetOfAtomAt(ts, i)
  {
    LetStatement(At(ts, i), IdentifierOf(At(ts, i + 1)), Some(Atom(At(ts, i + 3))))
  }

  /** `let name = atom;` is one let statement, ending on its `;`. */
  lemma LetOfAtom(ts: seq<Token>, s: St)
    requires LetOfAtomAt(ts, s.pos)
    ensures ParserStatement(ts, s) == Out(Some(LetOfAtomStatement(ts, s.pos)), St(s.pos + 4, s.errors))
  {
    var v := St(s.pos + 3, s.errors);
    AtomExpression(ts, v, LOWEST);
    assert SkipSemicolon(ts, v) == St(s.pos + 4, s.errors);
    LetStatementShape(ts, s);
    assert ParserStatement(ts, s) == ParserLetStatement(ts, s);
  }

  /** The statement loop keeps it and goes on after its `;`. */
  lemma LetOfAtomStep(ts: seq<Token>, acc: seq<Statement>, s: St, r: Out<seq<Statement>>)
    requires LetOfAtomAt(ts, s.pos)
    requires Loop(ts, acc + [LetOfAtomStatement(ts, s.pos)], St(s.pos + 5, s.errors)) == r
    ensures Loop(ts, acc, s) == r
  {
    LetOfAtom(ts, s);
    ProgramLoopStep(ts, acc, s, LetOfAtomStatement(ts, s.pos), St(s.pos + 4, s.errors));
  }

  /** n such statements, one after the other from position i. */
  predicate LetsAt(ts: seq<Token>, i: nat, n: nat)
    decreases n
  {
    n == 0 || (LetOfAtomAt(ts, i) && LetsAt(ts, i + 5, n - 1))
  }

  function LetsFrom(ts: seq<Token>, i: nat, n: nat): (stmts: seq<Statement>)
    requires LetsAt(ts, i, n)
    ensures |stmts| == n
    decreases n
  {
    if n == 0 then [] else [LetOfAtomStatement(ts, i)] + LetsFrom(ts, i + 5, n - 1)
  }

  /** The first of n such statements, and the n - 1 after it. */
  lemma LetsUnfold(ts: seq<Token>, acc: seq<Statement>, i: nat, n: nat)
    requires 0 < n && LetsAt(ts, i, n) && At(ts, i + 5 * n).kind == EOF
    ensures LetOfAtomAt(ts, i) && LetsAt(ts, i + 5, n - 1) && At(ts, i + 5 + 5 * (n - 1)).kind == EOF
    ensures acc + [LetOfAtomStatement(ts, i)] + LetsFrom(ts, i + 5, n - 1) == acc + LetsFrom(ts, i, n)
  {
    assert LetsFrom(ts, i, n) == [LetOfAtomStatement(ts, i)] + LetsFrom(ts, i + 5, n - 1);
  }

  /** n complete `let`s that end the input are all kept, in source order, with no diagnostic. */
  lemma {:induction false} LetsInOrder(ts: seq<Token>, acc: seq<Statement>, s: St, n: nat)
    requires LetsAt(ts, s.pos, n) && At(ts, s.pos + 5 * n).kind == EOF
    ensures Loop(ts, acc, s) == Out(acc + LetsFrom(ts, s.pos, n), St(s.pos + 5 * n, s.errors))
    decreases n
  {
    if n == 0 {
      assert acc + [] == acc;
    } else {
      var first := LetOfAtomStatement(ts, s.pos);
      var rest := St(s.pos + 5, s.errors);
      var end := St(s.pos + 5 * n, s.errors);
      LetsUnfold(ts, acc, s.pos, n);
      assert rest.pos + 5 * (n - 1) == end.pos;
      LetsInOrder(ts, acc + [first], rest, n - 1);
      LetOfAtomStep(ts, acc, s, Out(acc + LetsFrom(ts, s.pos, n), end));
    }
  }

  /** `return atom;` at position i. */
  predicate ReturnOfAtomAt(ts: seq<Token>, i: nat)
  {
    At(ts, i).kind == RETURN && IsAtom(At(ts, i + 1)) && At(ts, i + 2).kind == SEMICOLON
  }

  function ReturnOfAtomStatement(ts: seq<Token>, i: nat): Statement
    requires ReturnOfAtomAt(ts, i)
  {
    ReturnStatement(At(ts, i), Some(Atom(At(ts, i + 1))))
  }

  /** `return atom;` is one return statement, ending on its `;`. */
  lemma ReturnOfAtom(ts: seq<Token>, s: St)
    requires ReturnOfAtomAt(ts, s.pos)
    ensures ParserStatement(ts, s) == Out(Some(ReturnOfAtomStatement(ts, s.pos)), St(s.pos + 2, s.errors))
  {
    AtomExpression(ts, Next(s), LOWEST);
    assert SkipSemicolon(ts, Next(s)) == St(s.pos + 2, s.errors);
    ReturnStatementShape(ts, s);
    assert ParserStatement(ts, s) == ParserReturnStatement(ts, s);
  }

  /** The statement loop keeps it and goes on after its `;`. */
  lemma ReturnOfAtomStep(ts: seq<Token>, acc: seq<Statement>, s: St, r: Out<seq<Statement>>)
    requires ReturnOfAtomAt(ts, s.pos)
    requires Loop(ts, acc + [ReturnOfAtomStatement(ts, s.pos)], St(s.pos + 3, s.errors)) == r
    ensures Loop(ts, acc, s) == r
  {
    ReturnOfAtom(ts, s);
    ProgramLoopStep(ts, acc, s, ReturnOfAtomStatement(ts, s.pos), St(s.pos + 2, s.errors));
  }

  predicate ReturnsAt(ts: seq<Token>, i: nat, n: nat)
    decreases n
  {
    n == 0 || (ReturnOfAtomAt(ts, i) && ReturnsAt(ts, i + 3, n - 1))
  }

  function ReturnsFrom(ts: seq<Token>, i: nat, n: nat): (stmts: seq<Statement>)
    requires ReturnsAt(ts, i, n)
    ensures |stmts| == n
    decreases n
  {
    if n == 0 then [] else [ReturnOfAtomStatement(ts, i)] + ReturnsFrom(ts, i + 3, n - 1)
  }

  /** The first of n such statements, and the n - 1 after it. */
  lemma ReturnsUnfold(ts: seq<Token>, acc: seq<Statement>, i: nat, n: nat)
    requires 0 < n && ReturnsAt(ts, i, n) && At(ts, i + 3 * n).kind == EOF
    ensures ReturnOfAtomAt(ts, i) && ReturnsAt(ts, i + 3, n - 1) && At(ts, i + 3 + 3 * (n - 1)).kind == EOF
    ensures acc + [ReturnOfAtomStatement(ts, i)] + ReturnsFrom(ts, i + 3, n - 1) == acc + ReturnsFrom(ts, i, n)
  {
    assert ReturnsFrom(ts, i, n) == [ReturnOfAtomStatement(ts, i)] + ReturnsFrom(ts, i + 3, n - 1);
  }

  /** n `return`s that end the input are all kept, in source order, with no diagnostic. */
  lemma {:induction false} ReturnsInOrder(ts: seq<Token>, acc: seq<Statement>, s: St, n: nat)
    requires ReturnsAt(ts, s.pos, n) && At(ts, s.pos + 3 * n).kind == EOF
    ensures Loop(ts, acc, s) == Out(acc + ReturnsFrom(ts, s.pos, n), St(s.pos + 3 * n, s.errors))
    decreases n
  {
    if n == 0 {
      assert acc + [] == acc;
    } else {
      var first := ReturnOfAtomStatement(ts, s.pos);
      var rest := St(s.pos + 3, s.errors);
      var end := St(s.pos + 3 * n, s.errors);
      ReturnsUnfold(ts, acc, s.pos, n);
      assert rest.pos + 3 * (n - 1) == end.pos;
      ReturnsInOrder(ts, acc + [first], rest, n - 1);
      ReturnOfAtomStep(ts, acc, s, Out(acc + ReturnsFrom(ts, s.pos, n), end));
    }
  }

  /** A token past a prefix is the same token of the rest. */
  lemma AtShift(p: seq<Token>, q: seq<Token>, j: nat)
    ensures At(p + q, |p| + j) == At(q, j)
  {
  }

  /** `let name = v;` for an atom v. */
  function LetTokens(name: string, v: Token): seq<Token>
  {
    [Let, Name(name), Assign, v, Semi]
  }

  /** One `let name = v;` after the other, for each pair (name, v) of defs. */
  function LetsTokens(defs: seq<(string, Token)>): (ts: seq<Token>)
    ensures |ts| == 5 * |defs|
  {
    if defs == [] then [] else LetTokens(defs[0].0, defs[0].1) + LetsTokens(defs[1..])
  }

  /** The let statement binding each name of defs to its atom, in order. */
  function LetStatements(defs: seq<(string, Token)>): seq<Statement>
    requires forall d | d in defs :: IsAtom(d.1)
  {
    if defs == [] then []
    else [LetStatement(Let, IdentifierOf(Name(defs[0].0)), Some(Atom(defs[0].1)))] + LetStatements(defs[1..])
  }

  /** Complete `let`s stay complete, and stand for the same statements, behind any prefix. */
  lemma {:induction false} LetsShift(p: seq<Token>, q: seq<Token>, i: nat, n: nat)
    requires LetsAt(q, i, n)
    ensures LetsAt(p + q, |p| + i, n) && LetsFrom(p + q, |p| + i, n) == LetsFrom(q, i, n)
    decreases n
  {
    if n > 0 {
      AtShift(p, q, i);
      AtShift(p, q, i + 1);
      AtShift(p, q, i + 2);
      AtShift(p, q, i + 3);
      AtShift(p, q, i + 4);
      LetsShift(p, q, i + 5, n - 1);
    }
  }

  /** `let name = v;` in front of k complete `let`s makes k + 1 of them, the new one first. */
  lemma LetsPrepend(name: string, v: Token, rest: seq<Token>, k: nat)
    requires IsAtom(v) && LetsAt(rest, 0, k)
    ensures LetsAt(LetTokens(name, v) + rest, 0, k + 1)
    ensures LetsFrom(LetTokens(name, v) + rest, 0, k + 1)
              == [LetStatement(Let, IdentifierOf(Name(name)), Some(Atom(v)))] + LetsFrom(rest, 0, k)
  {
    LetsShift(LetTokens(name, v), rest, 0, k);
  }

  /** The tokens of `let`s of atoms are that many complete `let`s standing for their let statements. */
  lemma {:induction false} LetsOfAtomsWellFormed(defs: seq<(string, Token)>)
    requires forall d | d in defs :: IsAtom(d.1)
    ensures LetsAt(LetsTokens(defs), 0, |defs|)
    ensures LetsFrom(LetsTokens(defs), 0, |defs|) == LetStatements(defs)
  {
    if defs != [] {
      assert defs[0] in defs && forall d | d in defs[1..] :: d in defs;
      LetsOfAtomsWellFormed(defs[1..]);
      LetsPrepend(defs[0].0, defs[0].1, LetsTokens(defs[1..]), |defs| - 1);
    }
  }

  /** `let`s of atoms give their let statements, in order, and no diagnostic. */
  lemma LetsOfAtoms(defs: seq<(string, Token)>)
    requires forall d | d in defs :: IsAtom(d.1)
    ensures Parsed(LetsTokens(defs)).val == Program(LetStatements(defs))
    ensures Parsed(LetsTokens(defs)).st.errors == []
  {
    LetsOfAtomsWellFormed(defs);
    LetsProgram(LetsTokens(defs), |defs|);
  }

  /** A program made of n complete `let`s of atoms is exactly those lets, with no errors. */
  lemma LetsProgram(ts: seq<Token>, n: nat)
    requires LetsAt(ts, 0, n) && |ts| == 5 * n
    ensures Parsed(ts) == Out(Program(LetsFrom(ts, 0, n)), St(5 * n, []))
  {
    LetsInOrder(ts, [], St(0, []), n);
    assert [] + LetsFrom(ts, 0, n) == LetsFrom(ts, 0, n);
  }

  /** Three `let`s of 64-bit numerals bind x, y and foobar to those numbers, in order. */
  lemma ThreeNumeralLets(a: nat, b: nat, c: nat)
    requires a <= Strconv.MaxInt64 && b <= Strconv.MaxInt64 && c <= Strconv.MaxInt64
    ensures Parsed(LetsTokens([("x", Numeral(a)), ("y", Numeral(b)), ("foobar", Numeral(c))])).val == Program([
              LetStatement(Let, IdentifierOf(Name("x")), Some(Int(a))),
              LetStatement(Let, IdentifierOf(Name("y")), Some(Int(b))),
              LetStatement(Let, IdentifierOf(Name("foobar")), Some(Int(c)))])
    ensures Parsed(LetsTokens([("x", Numeral(a)), ("y", Numeral(b)), ("foobar", Numeral(c))])).st.errors == []
  {
    var defs := [("x", Numeral(a)), ("y", Numeral(b)), ("foobar", Numeral(c))];
    NumeralAtom(a);
    NumeralAtom(b);
    NumeralAtom(c);
    assert LetStatements(defs[2..]) == [LetStatement(Let, IdentifierOf(Name("foobar")), Some(Int(c)))];
    assert LetStatements(defs[1..]) == [LetStatement(Let, IdentifierOf(Name("y")), Some(Int(b)))] + LetStatements(defs[2..]);
    LetsOfAtoms(defs);
  }

  /** `let x = 5; let y = 10; let foobar = 838383;` gives the three let statements, with their names and values. */
  lemma ThreeLets()
    ensures Parsed(LetsTokens([("x", Numeral(5)), ("y", Numeral(10)), ("foobar", Numeral(838383))])).val == Program([
              LetStatement(Let, IdentifierOf(Name("x")), Some(Int(5))),
              LetStatement(Let, IdentifierOf(Name("y")), Some(Int(10))),
              LetStatement(Let, IdentifierOf(Name("foobar")), Some(Int(838383)))])
    ensures Parsed(LetsTokens([("x", Numeral(5)), ("y", Numeral(10)), ("foobar", Numeral(838383))])).st.errors == []
  {
    ThreeNumeralLets(5, 10, 838383);
  }

  /** `return v;` for an atom v. */
  function ReturnTokens(v: Token): seq<Token>
  {
    [Return, v, Semi]
  }

  /** One `return v;` after the other, for each atom v of vs. */
  function ReturnsTokens(vs: seq<Token>): (ts: seq<Token>)
    ensures |ts| == 3 * |vs|
  {
    if vs == [] then [] else ReturnTokens(vs[0]) + ReturnsTokens(vs[1..])
  }

  /** The return statement of each atom of vs, in order. */
  function ReturnStatements(vs: seq<Token>): seq<Statement>
    requires forall v | v in vs :: IsAtom(v)
  {
    if vs == [] then [] else [ReturnStatement(Return, Some(Atom(vs[0])))] + ReturnStatements(vs[1..])
  }

  /** Complete `return`s stay complete, and stand for the same statements, behind any prefix. */
  lemma {:induction false} ReturnsShift(p: seq<Token>, q: seq<Token>, i: nat, n: nat)
    requires ReturnsAt(q, i, n)
    ensures ReturnsAt(p + q, |p| + i, n) && ReturnsFrom(p + q, |p| + i, n) == ReturnsFrom(q, i, n)
    decreases n
  {
    if n > 0 {
      AtShift(p, q, i);
      AtShift(p, q, i + 1);
      AtShift(p, q, i + 2);
      ReturnsShift(p, q, i + 3, n - 1);
    }
  }

  /** `return v;` in front of k complete `return`s makes k + 1 of them, the new one first. */
  lemma ReturnsPrepend(v: Token, rest: seq<Token>, k: nat)
    requires IsAtom(v) && ReturnsAt(rest, 0, k)
    ensures ReturnsAt(ReturnTokens(v) + rest, 0, k + 1)
    ensures ReturnsFrom(ReturnTokens(v) + rest, 0, k + 1) == [ReturnStatement(Return, Some(Atom(v)))] + ReturnsFrom(rest, 0, k)
  {
    ReturnsShift(ReturnTokens(v), rest, 0, k);
  }

  /** The tokens of `return`s of atoms are that many complete `return`s standing for their return statements. */
  lemma {:induction false} ReturnsOfAtomsWellFormed(vs: seq<Token>)
    requires forall v | v in vs :: IsAtom(v)
    ensures ReturnsAt(ReturnsTokens(vs), 0, |vs|)
    ensures ReturnsFrom(ReturnsTokens(vs), 0, |vs|) == ReturnStatements(vs)
  {
    if vs != [] {
      assert vs[0] in vs && forall v | v in vs[1..] :: v in vs;
      ReturnsOfAtomsWellFormed(vs[1..]);
      ReturnsPrepend(vs[0], ReturnsTokens(vs[1..]), |vs| - 1);
    }
  }

  /** `return`s of atoms give their return statements, in order, and no diagnostic. */
  lemma ReturnsOfAtoms(vs: seq<Token>)
    requires forall v | v in vs :: IsAtom(v)
    ensures Parsed(ReturnsTokens(vs)).val == Program(ReturnStatements(vs))
    ensures Parsed(ReturnsTokens(vs)).st.errors == []
  {
    ReturnsOfAtomsWellFormed(vs);
    assert [] + ReturnStatements(vs) == ReturnStatements(vs);
    ReturnsInOrder(ReturnsTokens(vs), [], St(0, []), |vs|);
  }

  /** Three `return`s of 64-bit numerals return those numbers, in order. */
  lemma ThreeNumeralReturns(a: nat, b: nat, c: nat)
    requires a <= Strconv.MaxInt64 && b <= Strconv.MaxInt64 && c <= Strconv.MaxInt64
    ensures Parsed(ReturnsTokens([Numeral(a), Numeral(b), Numeral(c)])).val == Program([
              ReturnStatement(Return, Some(Int(a))),
              ReturnStatement(Return, Some(Int(b))),
              ReturnStatement(Return, Some(Int(c)))])
    ensures Parsed(ReturnsTokens([Numeral(a), Numeral(b), Numeral(c)])).st.errors == []
  {
    var vs := [Numeral(a), Numeral(b), Numeral(c)];
    NumeralAtom(a);
    NumeralAtom(b);
    NumeralAtom(c);
    assert ReturnStatements(vs[2..]) == [ReturnStatement(Return, Some(Int(c)))];
    assert ReturnStatements(vs[1..]) == [ReturnStatement(Return, Some(Int(b)))] + ReturnStatements(vs[2..]);
    ReturnsOfAtoms(vs);
  }

  /** `return 5; return 10; return 993322;` gives the three return statements, with their values. */
  lemma ThreeReturns()
    ensures Parsed(ReturnsTokens([Numeral(5), Numeral(10), Numeral(993322)])).val == Program([
              ReturnStatement(Return, Some(Int(5))),
              ReturnStatement(Return, Some(Int(10))),
              ReturnStatement(Return, Some(Int(993322)))])
    ensures Parsed(ReturnsTokens([Numeral(5), Numeral(10), Numeral(993322)])).st.errors == []
  {
    ThreeNumeralReturns(5, 10, 993322);
  }

  /** An atom closed by `;` is one expression statement, ending on the `;`. */
  lemma AtomStatement(ts: seq<Token>, s: St)
    requires IsAtom(Cur(ts, s)) && Peek(ts, s).kind == SEMICOLON
    ensures ParserStatement(ts, s) == Out(Some(ExpressionStatement(Cur(ts, s), Some(Atom(Cur(ts, s))))), Next(s))
  {
    AtomExpression(ts, s, LOWEST);
  }

  /** The loop keeps that statement and goes on after the `;`. */
  lemma AtomStatementStep(ts: seq<Token>, acc: seq<Statement>, s: St)
    requires IsAtom(Cur(ts, s)) && Peek(ts, s).kind == SEMICOLON
    ensures ProgramLoop(ts, acc, s)
              == ProgramLoop(ts, acc + [ExpressionStatement(Cur(ts, s), Some(Atom(Cur(ts, s))))], St(s.pos + 2, s.errors))
  {
    AtomStatement(ts, s);
    assert Cur(ts, s).kind != EOF && Next(Next(s)) == St(s.pos + 2, s.errors);
    ProgramLoopStep(ts, acc, s, ExpressionStatement(Cur(ts, s), Some(Atom(Cur(ts, s)))), Next(s));
  }

  /** A statement-start token with no prefix routine is kept as an empty expression statement after one diagnostic. */
  lemma NoPrefixStatementStep(ts: seq<Token>, acc: seq<Statement>, s: St)
    requires Cur(ts, s).kind !in {LET, RETURN, EOF} && PrefixRoutineFor(Cur(ts, s).kind).None?
    requires Peek(ts, s).kind != SEMICOLON
    ensures ProgramLoop(ts, acc, s)
              == ProgramLoop(ts, acc + [ExpressionStatement(Cur(ts, s), None)], St(s.pos + 1, s.errors + [NoPrefixParseFn(Cur(ts, s).kind)]))
  {
    ExpressionStatementShape(ts, s);
    ProgramLoopStep(ts, acc, s, ExpressionStatement(Cur(ts, s), None), Record(s, NoPrefixParseFn(Cur(ts, s).kind)));
  }

  /** A `let` not followed by a name is dropped after one diagnostic; the loop resumes after the `let`. */
  lemma LetWithoutNameStep(ts: seq<Token>, acc: seq<Statement>, s: St)
    requires Cur(ts, s).kind == LET && Peek(ts, s).kind != IDENT
    ensures ProgramLoop(ts, acc, s) == ProgramLoop(ts, acc, St(s.pos + 1, s.errors + [ExpectedNext(IDENT, Peek(ts, s).kind)]))
  {
    LetStatementShape(ts, s);
  }

  /** A `let name` not followed by `=` is dropped after one diagnostic; the loop resumes after the name. */
  lemma LetWithoutAssignStep(ts: seq<Token>, acc: seq<Statement>, s: St)
    requires Cur(ts, s).kind == LET && Peek(ts, s).kind == IDENT && At(ts, s.pos + 2).kind != ASSIGN
    ensures ProgramLoop(ts, acc, s)
              == ProgramLoop(ts, acc, St(s.pos + 2, s.errors + [ExpectedNext(ASSIGN, At(ts, s.pos + 2).kind)]))
  {
    LetStatementShape(ts, s);
  }

  /**
   * `let = 5;` loses its statement after a diagnostic about the missing name;
   * parsing resumes at `=`, which has no prefix routine, and then at `5`.
   */
  lemma LetWithoutName(ts: seq<Token>)
    requires ts == [Let, Assign, Numeral(5), Semi]
    ensures Parsed(ts).val == Program([ExpressionStatement(Assign, None),
                                       ExpressionStatement(Numeral(5), Some(Int(5)))])
    ensures Parsed(ts).st.errors == [ExpectedNext(IDENT, ASSIGN), NoPrefixParseFn(ASSIGN)]
  {
    NumeralAtom(5);
    var e1, e2 := ExpectedNext(IDENT, ASSIGN), NoPrefixParseFn(ASSIGN);
    var bad, five := ExpressionStatement(Assign, None), ExpressionStatement(Numeral(5), Some(Int(5)));
    assert ProgramLoop(ts, [], St(0, [])) == ProgramLoop(ts, [], St(1, [e1])) by {
      LetWithoutNameStep(ts, [], St(0, []));
      assert [] + [e1] == [e1];
    }
    assert ProgramLoop(ts, [], St(1, [e1])) == ProgramLoop(ts, [bad], St(2, [e1, e2])) by {
      NoPrefixStatementStep(ts, [], St(1, [e1]));
      assert [e1] + [e2] == [e1, e2] && [] + [bad] == [bad];
    }
    assert ProgramLoop(ts, [bad], St(2, [e1, e2])) == ProgramLoop(ts, [bad, five], St(4, [e1, e2])) by {
      AtomStatementStep(ts, [bad], St(2, [e1, e2]));
      assert [bad] + [five] == [bad, five];
    }
    assert ProgramLoop(ts, [bad, five], St(4, [e1, e2])) == Out([bad, five], St(4, [e1, e2])) by {
      ProgramLoopEndsAtEof(ts, [bad, five], St(4, [e1, e2]));
    }
  }

  /** `let x 5;` loses its statement after a diagnostic about the missing `=`; `5;` is then parsed on its own. */
  lemma LetWithoutAssign(ts: seq<Token>)
    requires ts == [Let, Name("x"), Numeral(5), Semi]
    ensures Parsed(ts).val == Program([ExpressionStatement(Numeral(5), Some(Int(5)))])
    ensures Parsed(ts).st.errors == [ExpectedNext(ASSIGN, INT)]
  {
    NumeralAtom(5);
    var e := ExpectedNext(ASSIGN, INT);
    var five := ExpressionStatement(Numeral(5), Some(Int(5)));
    assert ProgramLoop(ts, [], St(0, [])) == ProgramLoop(ts, [], St(2, [e])) by {
      LetWithoutAssignStep(ts, [], St(0, []));
      assert [] + [e] == [e];
    }
    assert ProgramLoop(ts, [], St(2, [e])) == ProgramLoop(ts, [five], St(4, [e])) by {
      AtomStatementStep(ts, [], St(2, [e]));
      assert [] + [five] == [five];
    }
    assert ProgramLoop(ts, [five], St(4, [e])) == Out([five], St(4, [e])) by {
      ProgramLoopEndsAtEof(ts, [five], St(4, [e]));
    }
  }
}
