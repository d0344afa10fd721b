/**
 * What parser/parser.go promises about every input: where each routine
 * leaves the cursor, which diagnostics it records, which statements the
 * program keeps and in which order, and when the Pratt loop stops.
 */
module ParserProperties {
  import opened Wrappers
  import opened Tokens
  import opened Ast
  import opened ParserSpec
  import Strconv

  // ------------------------------------------------------------ expectPeek

  /** expectPeek either advances onto the expected token or records one diagnostic and stays put. */
  lemma ExpectPeekOutcome(ts: seq<Token>, s: St, t: TokenType)
    ensures var r := ExpectPeek(ts, s, t);
            && (r.val <==> Peek(ts, s).kind == t)
            && (r.val ==> r.st == Next(s) && Cur(ts, r.st).kind == t)
            && (!r.val ==> r.st.pos == s.pos && r.st.errors == s.errors + [ExpectedNext(t, Peek(ts, s).kind)])
  {
  }

  // --------------------------------------------------------------- program

  /** The statement loop runs until the current token is EOF, and only there. */
  lemma {:induction false} ProgramLoopEndsAtEof(ts: seq<Token>, acc: seq<Statement>, s: St)
    ensures Cur(ts, ProgramLoop(ts, acc, s).st).kind == EOF
    ensures Cur(ts, s).kind == EOF ==> ProgramLoop(ts, acc, s) == Out(acc, s)
    decreases Remaining(ts, s.pos)
  {
    if Cur(ts, s).kind != EOF {
      var stmt := ParserStatement(ts, s);
      ProgramLoopEndsAtEof(ts, Keep(acc, stmt.val), Next(stmt.st));
    }
  }

  /** Kept statements are appended after the ones already kept, in source order. */
  lemma {:induction false} ProgramLoopAppends(ts: seq<Token>, acc: seq<Statement>, s: St)
    ensures ProgramLoop(ts, acc, s).val == acc + ProgramLoop(ts, [], s).val
    decreases Remaining(ts, s.pos)
  {
    if Cur(ts, s).kind != EOF {
      var stmt := ParserStatement(ts, s);
      var rest := Next(stmt.st);
      ProgramLoopAppends(ts, Keep(acc, stmt.val), rest);
      ProgramLoopAppends(ts, Keep([], stmt.val), rest);
      assert Keep(acc, stmt.val) == acc + Keep([], stmt.val);
    }
  }

  /** Each iteration consumes at least one token, so at most one statement per token is kept. */
  lemma {:induction false} ProgramLoopLength(ts: seq<Token>, acc: seq<Statement>, s: St)
    ensures |ProgramLoop(ts, acc, s).val| <= |acc| + Remaining(ts, s.pos)
    decreases Remaining(ts, s.pos)
  {
    if Cur(ts, s).kind != EOF {
      var stmt := ParserStatement(ts, s);
      ProgramLoopLength(ts, Keep(acc, stmt.val), Next(stmt.st));
    }
  }

  /**
   * ParserProgram stops at EOF, keeps at most one statement per token, and
   * lists the first statement (when kept) before those of the rest of the input.
   */
  lemma ParserProgramShape(ts: seq<Token>, s: St)
    ensures Cur(ts, ParserProgram(ts, s).st).kind == EOF
    ensures |ParserProgram(ts, s).val.statements| <= Remaining(ts, s.pos)
    ensures Cur(ts, s).kind == EOF ==> ParserProgram(ts, s) == Out(Program([]), s)
    ensures Cur(ts, s).kind != EOF ==>
              var stmt := ParserStatement(ts, s);
              ParserProgram(ts, s).val.statements
                == Keep([], stmt.val) + ParserProgram(ts, Next(stmt.st)).val.statements
  {
    ProgramLoopEndsAtEof(ts, [], s);
    ProgramLoopLength(ts, [], s);
    if Cur(ts, s).kind != EOF {
      var stmt := ParserStatement(ts, s);
      ProgramLoopAppends(ts, Keep([], stmt.val), Next(stmt.st));
    }
  }

  // ------------------------------------------------------------ statements

  /**
   * parserStatement dispatches on the current token, and only a `let` that
   * lacks its name or its `=` yields no statement.
   */
  lemma StatementShape(ts: seq<Token>, s: St)
    ensures var r := ParserStatement(ts, s);
            && (r.val.None? <==> FailedLet(ts, s))
            && (r.val.Some? ==> r.val.value.token == Cur(ts, s))
            && (r.val.Some? && Cur(ts, s).kind == LET ==> r.val.value.LetStatement?)
            && (r.val.Some? && Cur(ts, s).kind == RETURN ==> r.val.value.ReturnStatement?)
            && (r.val.Some? && Cur(ts, s).kind != LET && Cur(ts, s).kind != RETURN ==> r.val.value.ExpressionStatement?)
  {
  }

  /**
   * A `let` fails at the first missing piece with exactly one diagnostic; a
   * complete one binds the name after `let` to the expression after `=`.
   */
  lemma LetStatementShape(ts: seq<Token>, s: St)
    ensures var r := ParserLetStatement(ts, s);
            && (Peek(ts, s).kind != IDENT ==>
                  r == Out(None, Record(s, ExpectedNext(IDENT, Peek(ts, s).kind))))
            && (Peek(ts, s).kind == IDENT && At(ts, s.pos + 2).kind != ASSIGN ==>
                  r == Out(None, Record(Next(s), ExpectedNext(ASSIGN, At(ts, s.pos + 2).kind))))
            && (Peek(ts, s).kind == IDENT && At(ts, s.pos + 2).kind == ASSIGN ==>
                  var value := ParserExpression(ts, St(s.pos + 3, s.errors), LOWEST);
                  r == Out(Some(LetStatement(Cur(ts, s), IdentifierOf(Peek(ts, s)), value.val)),
                           SkipSemicolon(ts, value.st)))
  {
    var ident := ExpectPeek(ts, s, IDENT);
    if ident.val {
      var assign := ExpectPeek(ts, ident.st, ASSIGN);
      assert ident.st == St(s.pos + 1, s.errors);
      if assign.val {
        assert Next(assign.st) == St(s.pos + 3, s.errors);
      }
    }
  }

  /**
   * A `return` statement is always built, around its own token and the
   * expression parsed after it, even a missing one. It records no diagnostic
   * of its own, ends on that expression or on the `;` right after it, and
   * consumes at least one token.
   */
  lemma ReturnStatementShape(ts: seq<Token>, s: St)
    ensures var value := ParserExpression(ts, Next(s), LOWEST);
            var r := ParserReturnStatement(ts, s);
            && r.val == Some(ReturnStatement(Cur(ts, s), value.val))
            && r.st.errors == value.st.errors
            && (Peek(ts, value.st).kind == SEMICOLON ==> r.st == Next(value.st))
            && (Peek(ts, value.st).kind != SEMICOLON ==> r.st == value.st)
    ensures s.pos < ParserReturnStatement(ts, s).st.pos
  {
  }

  /**
   * An expression statement is always built; with no prefix routine for its
   * first token it wraps an absent expression after one diagnostic.
   */
  lemma ExpressionStatementShape(ts: seq<Token>, s: St)
    ensures ParserExpressionStatement(ts, s).val.Some?
    ensures PrefixRoutineFor(Cur(ts, s).kind).None? ==>
              ParserExpressionStatement(ts, s)
                == Out(Some(ExpressionStatement(Cur(ts, s), None)), SkipSemicolon(ts, Record(s, NoPrefixParseFn(Cur(ts, s).kind))))
  {
  }

  // ----------------------------------------------------------- expressions

  /**
   * The kinds `New` registers: ten with a prefix routine, nine with an infix
   * routine, and among those only `(` with the call routine.
   */
  lemma RoutineTables(k: TokenType)
    ensures PrefixRoutineFor(k).Some? <==> k in {IDENT, INT, BANG, MINUS, TRUE, FALSE, LPAREN, IF, FUNCTION, STRING}
    ensures InfixRoutineFor(k).Some? <==> k in {PLUS, MINUS, ASTERISK, SLASH, EQ, NOT_EQ, LT, GT, LPAREN}
    ensures InfixRoutineFor(k) == Some(ParseCallExpressionFn) <==> k == LPAREN
  {
  }

  /** Every kind with an infix routine binds above LOWEST, and only those do; only `(` binds at CALL. */
  lemma InfixTableAgreesWithPrecedence(k: TokenType)
    ensures InfixRoutineFor(k).Some? <==> Precedence(k) > LOWEST
    ensures InfixRoutineFor(k) == Some(ParseCallExpressionFn) <==> Precedence(k) == CALL
    ensures InfixRoutineFor(k) == Some(ParseInfixExpressionFn) ==> EQUALS <= Precedence(k) <= PRODUCT
  {
  }

  /**
   * The `infix == nil` exit of the Pratt loop is never taken: the loop only
   * runs on a peek token that binds tighter than a precedence of at least LOWEST.
   */
  lemma MissingInfixUnreachable(k: TokenType, precedence: nat)
    requires LOWEST <= precedence < Precedence(k)
    ensures InfixRoutineFor(k).Some?
  {
    InfixTableAgreesWithPrecedence(k);
  }

  /** The Pratt loop stops on `;`, on a peek token that binds no tighter, or on one with no infix routine. */
  lemma {:induction false} PrattLoopStops(ts: seq<Token>, left: Option<Expression>, s: St, precedence: nat)
    ensures Stops(ts, PrattLoop(ts, left, s, precedence).st, precedence)
    ensures Stops(ts, s, precedence) ==> PrattLoop(ts, left, s, precedence) == Out(left, s)
    decreases Remaining(ts, s.pos)
  {
    var kind := Peek(ts, s).kind;
    if kind != SEMICOLON && precedence < Precedence(kind) && InfixRoutineFor(kind).Some? {
      var next := match InfixRoutineFor(kind).value
        case ParseInfixExpressionFn => ParseInfixExpression(ts, left, Next(s))
        case ParseCallExpressionFn => ParseCallExpression(ts, left, Next(s));
      PrattLoopStops(ts, next.val, next.st, precedence);
    }
  }

  /**
   * parserExpression records "no prefix parse function" and yields nothing when
   * the current token has no prefix routine; otherwise it stops where the Pratt loop stops.
   */
  lemma ExpressionStops(ts: seq<Token>, s: St, precedence: nat)
    ensures PrefixRoutineFor(Cur(ts, s).kind).None? ==>
              ParserExpression(ts, s, precedence) == Out(None, Record(s, NoPrefixParseFn(Cur(ts, s).kind)))
    ensures PrefixRoutineFor(Cur(ts, s).kind).Some? ==> Stops(ts, ParserExpression(ts, s, precedence).st, precedence)
  {
    match PrefixRoutineFor(Cur(ts, s).kind)
    case None =>
    case Some(routine) =>
      var left := ParsePrefix(ts, s, routine);
      PrattLoopStops(ts, left.val, left.st, precedence);
  }

  /** `if` and `fn` are dispatched to their own routines. */
  lemma CompoundPrefix(ts: seq<Token>, s: St)
    ensures Cur(ts, s).kind == IF ==> ParsePrefix(ts, s, ParseIfExpressionFn) == ParseIfExpression(ts, s)
    ensures Cur(ts, s).kind == FUNCTION ==> ParsePrefix(ts, s, ParseFunctionLiteralFn) == ParseFunctionLiteral(ts, s)
  {
  }

  /** A prefix form that ends on the last token is the whole expression. */
  lemma PrefixFormIsWholeExpression(ts: seq<Token>, s: St, routine: PrefixRoutine, e: Expression, t: St)
    requires PrefixRoutineFor(Cur(ts, s).kind) == Some(routine)
    requires ParsePrefix(ts, s, routine) == Out(Some(e), t) && |ts| <= t.pos + 1
    ensures ParserExpression(ts, s, LOWEST) == Out(Some(e), t)
  {
    assert Peek(ts, t) == EndOfInput;
    PrattLoopStops(ts, Some(e), t, LOWEST);
  }

  // ----------------------------------------------------------------- atoms

  /** A token that its prefix routine turns into a node on its own, without further tokens. */
  predicate IsAtom(t: Token)
  {
    || t.kind == IDENT || t.kind == STRING || t.kind == TRUE || t.kind == FALSE
    || (t.kind == INT && Strconv.ParseInt64(t.literal).Some?)
  }

  /** The node an atom stands for: an identifier, a string, a boolean or a 64-bit integer. */
  function Atom(t: Token): Expression
    requires IsAtom(t)
  {
    match t.kind
    case IDENT => Ident(Identifier(t, t.literal))
    case STRING => StringLiteral(t, t.literal)
    case INT => IntegerLiteral(t, Strconv.ParseInt64(t.literal).value)
    case _ => Boolean(t, t.kind == TRUE)
  }

  /** An atom's prefix routine builds its node, consumes nothing more and records nothing. */
  lemma AtomPrefix(ts: seq<Token>, s: St)
    requires IsAtom(Cur(ts, s))
    ensures PrefixRoutineFor(Cur(ts, s).kind).Some?
    ensures ParsePrefix(ts, s, PrefixRoutineFor(Cur(ts, s).kind).value) == Out(Some(Atom(Cur(ts, s))), s)
  {
  }

  /** An atom followed by a token the loop stops at is a whole expression. */
  lemma AtomExpression(ts: seq<Token>, s: St, precedence: nat)
    requires IsAtom(Cur(ts, s)) && Stops(ts, s, precedence)
    ensures ParserExpression(ts, s, precedence) == Out(Some(Atom(Cur(ts, s))), s)
  {
    AtomPrefix(ts, s);
    PrattLoopStops(ts, Some(Atom(Cur(ts, s))), s, precedence);
  }

  /** The literal text of any 64-bit value parses back to that value, leaving the state as it was. */
  lemma IntegerLiteralOfDecimal(ts: seq<Token>, s: St, n: nat)
    requires Cur(ts, s) == Token(INT, Strconv.DecimalString(n)) && n <= Strconv.MaxInt64
    ensures ParseIntegerLiteral(ts, s) == Out(Some(IntegerLiteral(Cur(ts, s), n)), s)
  {
    Strconv.ParseInt64OfDecimal(n);
  }

  /** Digit text past the 64-bit maximum yields nothing and records "could not parse". */
  lemma IntegerLiteralOverflow(ts: seq<Token>, s: St, n: nat)
    requires Cur(ts, s) == Token(INT, Strconv.DecimalString(n)) && n > Strconv.MaxInt64
    ensures ParseIntegerLiteral(ts, s) == Out(None, Record(s, NotAnInteger(Strconv.DecimalString(n))))
  {
    Strconv.ParseInt64Overflow(n);
  }

  /**
   * Any digit text, leading zeros included, is the integer of its base-10
   * value when that fits 64 bits, and otherwise yields nothing after
   * "could not parse".
   */
  lemma IntegerLiteralOfDigits(ts: seq<Token>, s: St)
    requires Cur(ts, s).literal != [] && Strconv.AllDigits(Cur(ts, s).literal)
    ensures var lit := Cur(ts, s).literal;
            ParseIntegerLiteral(ts, s)
              == if Strconv.DigitsValue(lit) <= Strconv.MaxInt64 then Out(Some(IntegerLiteral(Cur(ts, s), Strconv.DigitsValue(lit))), s)
                 else Out(None, Record(s, NotAnInteger(lit)))
  {
    var lit := Cur(ts, s).literal;
    assert Strconv.IsDigit(lit[0]);
    assert Strconv.Unsigned(lit) == lit;
  }

  /** `true` and `false` are the only tokens with the boolean routine, and the value is `kind == TRUE`. */
  lemma BooleanValue(ts: seq<Token>, s: St)
    requires PrefixRoutineFor(Cur(ts, s).kind) == Some(ParseBooleanExpressionFn)
    ensures Cur(ts, s).kind == TRUE || Cur(ts, s).kind == FALSE
    ensures ParsePrefix(ts, s, ParseBooleanExpressionFn).val == Some(Boolean(Cur(ts, s), Cur(ts, s).kind == TRUE))
  {
  }

  /**
   * A prefix operator takes as its operand only what binds at PREFIX or
   * tighter: an atom followed by anything but `(` is the whole operand.
   */
  lemma PrefixOperandIsAtom(ts: seq<Token>, s: St)
    requires Cur(ts, s).kind == BANG || Cur(ts, s).kind == MINUS
    requires IsAtom(At(ts, s.pos + 1)) && At(ts, s.pos + 2).kind != LPAREN
    ensures ParsePrefixExpression(ts, s)
              == Out(Some(PrefixExpression(Cur(ts, s), Cur(ts, s).literal, Some(Atom(At(ts, s.pos + 1))))),
                     St(s.pos + 1, s.errors))
  {
    InfixTableAgreesWithPrecedence(At(ts, s.pos + 2).kind);
    AtomExpression(ts, Next(s), PREFIX);
  }

  // -------------------------------------------------------------- grouping

  /** A group ends on its `)`; a missing `)` yields nothing after one diagnostic naming RPAREN. */
  lemma GroupedShape(ts: seq<Token>, s: St)
    requires PrefixRoutineFor(Cur(ts, s).kind) == Some(ParseGroupedExpressionFn)
    ensures var inner := ParserExpression(ts, Next(s), LOWEST);
            var r := ParseGroupedExpression(ts, s);
            && (Peek(ts, inner.st).kind == RPAREN ==> r == Out(inner.val, Next(inner.st)))
            && (Peek(ts, inner.st).kind != RPAREN ==>
                  r == Out(None, Record(inner.st, ExpectedNext(RPAREN, Peek(ts, inner.st).kind))))
  {
  }

  // ---------------------------------------------------------------- blocks

  /** The block loop runs until `}` or EOF, and returns at once when it starts on one. */
  lemma {:induction false} BlockLoopEnds(ts: seq<Token>, acc: seq<Statement>, s: St)
    ensures Cur(ts, BlockLoop(ts, acc, s).st).kind == RBRACE || Cur(ts, BlockLoop(ts, acc, s).st).kind == EOF
    ensures Cur(ts, s).kind == RBRACE || Cur(ts, s).kind == EOF ==> BlockLoop(ts, acc, s) == Out(acc, s)
    decreases Remaining(ts, s.pos)
  {
    var kind := Cur(ts, s).kind;
    if kind != RBRACE && kind != EOF {
      var stmt := ParserStatement(ts, s);
      BlockLoopEnds(ts, Keep(acc, stmt.val), Next(stmt.st));
    }
  }

  /** The block loop keeps its statements after those already kept, in source order. */
  lemma {:induction false} BlockLoopAppends(ts: seq<Token>, acc: seq<Statement>, s: St)
    ensures BlockLoop(ts, acc, s).val == acc + BlockLoop(ts, [], s).val
    decreases Remaining(ts, s.pos)
  {
    var kind := Cur(ts, s).kind;
    if kind != RBRACE && kind != EOF {
      var stmt := ParserStatement(ts, s);
      var rest := Next(stmt.st);
      assert BlockLoop(ts, acc, s) == BlockLoop(ts, Keep(acc, stmt.val), rest);
      assert BlockLoop(ts, [], s) == BlockLoop(ts, Keep([], stmt.val), rest);
      BlockLoopAppends(ts, Keep(acc, stmt.val), rest);
      BlockLoopAppends(ts, Keep([], stmt.val), rest);
      assert Keep(acc, stmt.val) == acc + Keep([], stmt.val);
    }
  }

  /**
   * A block keeps its `{` token and ends on `}` or on EOF; `{ }` and `{` at
   * the end of input are empty blocks.
   */
  lemma BlockShape(ts: seq<Token>, s: St)
    ensures var r := ParseBlockStatement(ts, s);
            && r.val.token == Cur(ts, s)
            && s.pos < r.st.pos
            && (Cur(ts, r.st).kind == RBRACE || Cur(ts, r.st).kind == EOF)
    ensures Peek(ts, s).kind == RBRACE || Peek(ts, s).kind == EOF ==>
              ParseBlockStatement(ts, s) == Out(BlockStatement(Cur(ts, s), []), Next(s))
  {
    BlockLoopEnds(ts, [], Next(s));
  }

  // ------------------------------------------------------------------- if

  /**
   * An `else` branch is parsed exactly when `else` follows the consequence; an
   * `else` without `{` yields nothing after one diagnostic naming LBRACE.
   */
  lemma AlternativeShape(ts: seq<Token>, s: St)
    ensures var r := ParseAlternative(ts, s);
            && (r.val == Some(None) <==> Peek(ts, s).kind != ELSE)
            && (r.val == Some(None) ==> r.st == s)
            && (r.val.None? ==> r.st == Record(Next(s), ExpectedNext(LBRACE, At(ts, s.pos + 2).kind)))
            && (r.val.Some? && r.val.value.Some? ==>
                  r.val.value.value.token == At(ts, s.pos + 2)
                  && (Cur(ts, r.st).kind == RBRACE || Cur(ts, r.st).kind == EOF))
    ensures Peek(ts, s).kind == ELSE && At(ts, s.pos + 2).kind != LBRACE ==>
              ParseAlternative(ts, s) == Out(None, Record(Next(s), ExpectedNext(LBRACE, At(ts, s.pos + 2).kind)))
    ensures Peek(ts, s).kind == ELSE && At(ts, s.pos + 2).kind == LBRACE ==>
              var block := ParseBlockStatement(ts, St(s.pos + 2, s.errors));
              ParseAlternative(ts, s) == Out(Some(Some(block.val)), block.st)
  {
    if Peek(ts, s).kind == ELSE && At(ts, s.pos + 2).kind == LBRACE {
      BlockShape(ts, St(s.pos + 2, s.errors));
    }
  }

  /**
   * An if-expression keeps the `if` token and ends on the last `}` (or EOF);
   * it has an alternative exactly when `else` follows its consequence.
   */
  lemma IfShape(ts: seq<Token>, s: St)
    ensures var r := ParseIfExpression(ts, s);
            r.val.Some? ==>
              && r.val.value.IfExpression? && r.val.value.token == Cur(ts, s)
              && (Cur(ts, r.st).kind == RBRACE || Cur(ts, r.st).kind == EOF)
              && (r.val.value.alternative.None? ==> Peek(ts, r.st).kind != ELSE)
  {
    var lparen := ExpectPeek(ts, s, LPAREN);
    if lparen.val {
      var condition := ParserExpression(ts, Next(lparen.st), LOWEST);
      var rparen := ExpectPeek(ts, condition.st, RPAREN);
      if rparen.val {
        var lbrace := ExpectPeek(ts, rparen.st, LBRACE);
        if lbrace.val {
          var consequence := ParseBlockStatement(ts, lbrace.st);
          BlockShape(ts, lbrace.st);
          AlternativeShape(ts, consequence.st);
        }
      }
    }
  }

  /** A missing `)` after the condition: nothing, after one diagnostic naming RPAREN. */
  lemma IfMissingRParen(ts: seq<Token>, s: St, c: St)
    requires Peek(ts, s).kind == LPAREN && ParserExpression(ts, St(s.pos + 2, s.errors), LOWEST).st == c
    requires Peek(ts, c).kind != RPAREN
    ensures ParseIfExpression(ts, s) == Out(None, Record(c, ExpectedNext(RPAREN, Peek(ts, c).kind)))
  {
    assert Next(ExpectPeek(ts, s, LPAREN).st) == St(s.pos + 2, s.errors);
  }

  /** A missing `{` after the `)`: nothing, after one diagnostic naming LBRACE. */
  lemma IfMissingLBrace(ts: seq<Token>, s: St, c: St)
    requires Peek(ts, s).kind == LPAREN && ParserExpression(ts, St(s.pos + 2, s.errors), LOWEST).st == c
    requires Peek(ts, c).kind == RPAREN && At(ts, c.pos + 2).kind != LBRACE
    ensures ParseIfExpression(ts, s) == Out(None, Record(Next(c), ExpectedNext(LBRACE, At(ts, c.pos + 2).kind)))
  {
    var lparen := ExpectPeek(ts, s, LPAREN);
    assert lparen == Out(true, Next(s));
    assert Next(lparen.st) == St(s.pos + 2, s.errors);
    var rparen := ExpectPeek(ts, c, RPAREN);
    assert rparen == Out(true, Next(c));
    assert Peek(ts, Next(c)) == At(ts, c.pos + 2);
    var lbrace := ExpectPeek(ts, rparen.st, LBRACE);
    assert lbrace == Out(false, Record(Next(c), ExpectedNext(LBRACE, At(ts, c.pos + 2).kind)));
    assert ParseIfExpression(ts, s) == Out(None, lbrace.st);
  }

  /** `if (condition) {`: the node is built from the consequence block and what follows it. */
  lemma IfWithBlock(ts: seq<Token>, s: St, condition: Out<Option<Expression>>)
    requires Peek(ts, s).kind == LPAREN && ParserExpression(ts, St(s.pos + 2, s.errors), LOWEST) == condition
    requires Peek(ts, condition.st).kind == RPAREN && At(ts, condition.st.pos + 2).kind == LBRACE
    ensures var consequence := ParseBlockStatement(ts, St(condition.st.pos + 2, condition.st.errors));
            var alternative := ParseAlternative(ts, consequence.st);
            ParseIfExpression(ts, s)
              == if alternative.val.Some? then Out(Some(IfExpression(Cur(ts, s), condition.val, consequence.val, alternative.val.value)), alternative.st)
                 else Out(None, alternative.st)
  {
    var c := condition.st;
    var lparen := ExpectPeek(ts, s, LPAREN);
    assert lparen == Out(true, Next(s));
    assert Next(lparen.st) == St(s.pos + 2, s.errors);
    var rparen := ExpectPeek(ts, c, RPAREN);
    assert rparen == Out(true, Next(c));
    assert Peek(ts, Next(c)) == At(ts, c.pos + 2);
    assert ExpectPeek(ts, rparen.st, LBRACE) == Out(true, St(c.pos + 2, c.errors));
  }

  /**
   * The exits of parseIfExpression: a missing `(`, `)` or `{` yields nothing
   * after one diagnostic naming it; otherwise the node holds the condition, the
   * consequence and, when `else` follows the consequence, the alternative.
   */
  lemma IfExits(ts: seq<Token>, s: St)
    ensures Peek(ts, s).kind != LPAREN ==>
              ParseIfExpression(ts, s) == Out(None, Record(s, ExpectedNext(LPAREN, Peek(ts, s).kind)))
    ensures Peek(ts, s).kind == LPAREN ==>
              var condition := ParserExpression(ts, St(s.pos + 2, s.errors), LOWEST);
              var c := condition.st;
              && (Peek(ts, c).kind != RPAREN ==>
                    ParseIfExpression(ts, s) == Out(None, Record(c, ExpectedNext(RPAREN, Peek(ts, c).kind))))
              && (Peek(ts, c).kind == RPAREN && At(ts, c.pos + 2).kind != LBRACE ==>
                    ParseIfExpression(ts, s) == Out(None, Record(Next(c), ExpectedNext(LBRACE, At(ts, c.pos + 2).kind))))
              && (Peek(ts, c).kind == RPAREN && At(ts, c.pos + 2).kind == LBRACE ==>
                    var consequence := ParseBlockStatement(ts, St(c.pos + 2, c.errors));
                    var r := ParseIfExpression(ts, s);
                    && (r.val.Some? ==>
                          r.val.value == IfExpression(Cur(ts, s), condition.val, consequence.val, r.val.value.alternative))
                    && (Peek(ts, consequence.st).kind != ELSE ==>
                          r == Out(Some(IfExpression(Cur(ts, s), condition.val, consequence.val, None)), consequence.st))
                    && (r.val.Some? && r.val.value.alternative.Some? ==> Peek(ts, consequence.st).kind == ELSE))
  {
    if Peek(ts, s).kind == LPAREN {
      var condition := ParserExpression(ts, St(s.pos + 2, s.errors), LOWEST);
      var c := condition.st;
      if Peek(ts, c).kind != RPAREN {
        IfMissingRParen(ts, s, c);
      } else if At(ts, c.pos + 2).kind != LBRACE {
        IfMissingLBrace(ts, s, c);
      } else {
        IfWithBlock(ts, s, condition);
        var consequence := ParseBlockStatement(ts, St(c.pos + 2, c.errors));
        AlternativeShape(ts, consequence.st);
      }
    }
  }

  // ------------------------------------------------------- function literals

  /** The comma loop of parseParameters records nothing and stops before a token that is not `,`. */
  lemma {:induction false} ParametersLoopShape(ts: seq<Token>, acc: seq<Identifier>, s: St)
    ensures var r := ParametersLoop(ts, acc, s);
            && r.st.errors == s.errors && Peek(ts, r.st).kind != COMMA
            && r.val == acc + ParametersLoop(ts, [], s).val
    decreases Remaining(ts, s.pos)
  {
    if Peek(ts, s).kind == COMMA {
      var s2 := Next(Next(s));
      var name := IdentifierOf(Cur(ts, s2));
      ParametersLoopShape(ts, acc + [name], s2);
      ParametersLoopShape(ts, [name], s2);
      assert [] + [name] == [name];
      assert acc + [name] + ParametersLoop(ts, [], s2).val == acc + ([name] + ParametersLoop(ts, [], s2).val);
    }
  }

  /**
   * parseParameters ends on the closing `)` with no diagnostic, or yields no
   * list after exactly one diagnostic, naming RPAREN.
   */
  lemma ParametersShape(ts: seq<Token>, s: St)
    ensures var r := ParseParameters(ts, s);
            && (r.val.Some? ==> Cur(ts, r.st).kind == RPAREN && r.st.errors == s.errors)
            && (r.val.None? ==> exists got :: r.st.errors == s.errors + [ExpectedNext(RPAREN, got)])
    ensures Peek(ts, s).kind == RPAREN ==> ParseParameters(ts, s) == Out(Some([]), Next(s))
  {
    if Peek(ts, s).kind != RPAREN {
      var first := Next(s);
      var more := ParametersLoop(ts, [IdentifierOf(Cur(ts, first))], first);
      ParametersLoopShape(ts, [IdentifierOf(Cur(ts, first))], first);
      var close := ExpectPeek(ts, more.st, RPAREN);
      if !close.val {
        assert close.st.errors == s.errors + [ExpectedNext(RPAREN, Peek(ts, more.st).kind)];
      }
    }
  }

  /** `token, token, ...`: `n` more names after the one at position i, each behind a comma. */
  predicate CommaList(ts: seq<Token>, i: nat, n: nat)
    decreases n
  {
    if n == 0 then At(ts, i + 1).kind != COMMA
    else At(ts, i + 1).kind == COMMA && CommaList(ts, i + 2, n - 1)
  }

  /** The `n` names after the one at position i of a comma list, in order. */
  function ListedNames(ts: seq<Token>, i: nat, n: nat): (names: seq<Identifier>)
    ensures |names| == n
    decreases n
  {
    if n == 0 then [] else [IdentifierOf(At(ts, i + 2))] + ListedNames(ts, i + 2, n - 1)
  }

  /** One turn of the comma loop: the name two tokens on is appended. */
  lemma ParametersLoopStep(ts: seq<Token>, acc: seq<Identifier>, s: St)
    requires Peek(ts, s).kind == COMMA
    ensures ParametersLoop(ts, acc, s) == ParametersLoop(ts, acc + [IdentifierOf(At(ts, s.pos + 2))], St(s.pos + 2, s.errors))
  {
  }

  /** The comma loop collects the listed names in order and stops on the last one. */
  lemma {:induction false} ParametersLoopCollects(ts: seq<Token>, acc: seq<Identifier>, s: St, n: nat)
    requires CommaList(ts, s.pos, n)
    ensures ParametersLoop(ts, acc, s) == Out(acc + ListedNames(ts, s.pos, n), St(s.pos + 2 * n, s.errors))
    decreases n
  {
    if n > 0 {
      var s2 := St(s.pos + 2, s.errors);
      var name := IdentifierOf(At(ts, s.pos + 2));
      var r := Out(acc + ListedNames(ts, s.pos, n), St(s.pos + 2 * n, s.errors));
      assert ListedNames(ts, s.pos, n) == [name] + ListedNames(ts, s2.pos, n - 1);
      assert acc + [name] + ListedNames(ts, s2.pos, n - 1) == acc + ([name] + ListedNames(ts, s2.pos, n - 1));
      assert Out(acc + [name] + ListedNames(ts, s2.pos, n - 1), St(s2.pos + 2 * (n - 1), s2.errors)) == r;
      ParametersLoopCollects(ts, acc + [name], s2, n - 1);
      ParametersLoopStep(ts, acc, s);
    } else {
      assert acc + [] == acc;
    }
  }

  /** `(x1, ..., xk)` gives the parameters x1 ... xk in order and ends on `)` with no diagnostic. */
  lemma ParametersInOrder(ts: seq<Token>, s: St, n: nat)
    requires Peek(ts, s).kind != RPAREN && CommaList(ts, s.pos + 1, n) && At(ts, s.pos + 2 * n + 2).kind == RPAREN
    ensures ParseParameters(ts, s)
              == Out(Some([IdentifierOf(Peek(ts, s))] + ListedNames(ts, s.pos + 1, n)), St(s.pos + 2 * n + 2, s.errors))
  {
    ParametersLoopCollects(ts, [IdentifierOf(Peek(ts, s))], Next(s), n);
  }

  /**
   * A function literal keeps its `fn` token and ends on the body's `}` (or
   * EOF). A missing `(` or a missing `{` after the parameters yields nothing
   * after one diagnostic naming it; a parameter list that lost its `)` still
   * gives a literal, with an absent list.
   */
  lemma FunctionLiteralShape(ts: seq<Token>, s: St)
    ensures var r := ParseFunctionLiteral(ts, s);
            r.val.Some? ==>
              && r.val.value.FunctionLiteral? && r.val.value.token == Cur(ts, s)
              && (Cur(ts, r.st).kind == RBRACE || Cur(ts, r.st).kind == EOF)
    ensures Peek(ts, s).kind != LPAREN ==>
              ParseFunctionLiteral(ts, s) == Out(None, Record(s, ExpectedNext(LPAREN, Peek(ts, s).kind)))
    ensures Peek(ts, s).kind == LPAREN ==>
              var parameters := ParseParameters(ts, Next(s));
              var p := parameters.st;
              && (Peek(ts, p).kind != LBRACE ==>
                    ParseFunctionLiteral(ts, s) == Out(None, Record(p, ExpectedNext(LBRACE, Peek(ts, p).kind))))
              && (Peek(ts, p).kind == LBRACE ==>
                    var body := ParseBlockStatement(ts, Next(p));
                    ParseFunctionLiteral(ts, s) == Out(Some(FunctionLiteral(Cur(ts, s), parameters.val, body.val)), body.st))
  {
    if Peek(ts, s).kind == LPAREN {
      var parameters := ParseParameters(ts, Next(s));
      if Peek(ts, parameters.st).kind == LBRACE {
        BlockShape(ts, Next(parameters.st));
      }
    }
  }

  // ----------------------------------------------------------------- calls

  /** The comma loop of parseCallArguments stops before a token that is not `,` and only appends. */
  lemma {:induction false} ArgumentsLoopShape(ts: seq<Token>, acc: seq<Option<Expression>>, s: St)
    ensures var r := ArgumentsLoop(ts, acc, s);
            Peek(ts, r.st).kind != COMMA && r.val == acc + ArgumentsLoop(ts, [], s).val
    decreases Remaining(ts, s.pos)
  {
    if Peek(ts, s).kind == COMMA {
      var arg := ParserExpression(ts, Next(Next(s)), LOWEST);
      ArgumentsLoopShape(ts, acc + [arg.val], arg.st);
      ArgumentsLoopShape(ts, [arg.val], arg.st);
      assert [] + [arg.val] == [arg.val];
      assert acc + [arg.val] + ArgumentsLoop(ts, [], arg.st).val == acc + ([arg.val] + ArgumentsLoop(ts, [], arg.st).val);
    }
  }

  /**
   * parseCallArguments ends on `)`, or gives no list and the last diagnostic
   * it records is the missing `)`; `()` is the empty list.
   */
  lemma ArgumentsShape(ts: seq<Token>, s: St)
    ensures var args := ParseCallArguments(ts, s);
            && (args.val.Some? ==> Cur(ts, args.st).kind == RPAREN)
            && (args.val.None? ==>
                  && |args.st.errors| > |s.errors|
                  && s.errors <= args.st.errors[..|args.st.errors| - 1]
                  && args.st.errors[|args.st.errors| - 1] == ExpectedNext(RPAREN, Peek(ts, args.st).kind))
    ensures Peek(ts, s).kind == RPAREN ==> ParseCallArguments(ts, s) == Out(Some([]), Next(s))
  {
    if Peek(ts, s).kind != RPAREN {
      var first := ParserExpression(ts, Next(s), LOWEST);
      var more := ArgumentsLoop(ts, [first.val], first.st);
      var close := ExpectPeek(ts, more.st, RPAREN);
      assert ParseCallArguments(ts, s) == Out(if close.val then Some(more.val) else None, close.st);
      if !close.val {
        assert close.st == Record(more.st, ExpectedNext(RPAREN, Peek(ts, more.st).kind));
        assert close.st.errors[..|close.st.errors| - 1] == more.st.errors;
      }
    }
  }

  /**
   * A call node is always built, around the `(` and its callee: a missing `)`
   * does not make the call absent, it leaves the argument list absent after an
   * ExpectedNext(RPAREN, _) diagnostic. A present list ends on `)`, and `()`
   * is the call with no arguments.
   */
  lemma CallShape(ts: seq<Token>, callee: Option<Expression>, s: St)
    ensures var r := ParseCallExpression(ts, callee, s);
            && r.val.Some? && r.val.value.CallExpression?
            && r.val.value.token == Cur(ts, s) && r.val.value.callee == callee
            && (r.val.value.arguments.Some? ==> Cur(ts, r.st).kind == RPAREN)
            && (r.val.value.arguments.None? ==>
                  && |r.st.errors| > |s.errors|
                  && s.errors <= r.st.errors[..|r.st.errors| - 1]
                  && r.st.errors[|r.st.errors| - 1] == ExpectedNext(RPAREN, Peek(ts, r.st).kind))
    ensures Peek(ts, s).kind == RPAREN ==>
              ParseCallExpression(ts, callee, s) == Out(Some(CallExpression(Cur(ts, s), callee, Some([]))), Next(s))
  {
    ArgumentsShape(ts, s);
  }

  /** `, a1, ..., an )`: `n` atoms after the token at position i, each behind a comma, then `)`. */
  predicate AtomCommaList(ts: seq<Token>, i: nat, n: nat)
    decreases n
  {
    if n == 0 then At(ts, i + 1).kind == RPAREN
    else At(ts, i + 1).kind == COMMA && IsAtom(At(ts, i + 2)) && AtomCommaList(ts, i + 2, n - 1)
  }

  /** The `n` atoms of such a list, as the argument nodes they stand for, in order. */
  function ListedAtoms(ts: seq<Token>, i: nat, n: nat): (args: seq<Option<Expression>>)
    requires AtomCommaList(ts, i, n)
    ensures |args| == n
    decreases n
  {
    if n == 0 then [] else [Some(Atom(At(ts, i + 2)))] + ListedAtoms(ts, i + 2, n - 1)
  }

  /** Such a list ends on its `)`. */
  lemma {:induction false} AtomCommaListEnds(ts: seq<Token>, i: nat, n: nat)
    requires AtomCommaList(ts, i, n)
    ensures At(ts, i + 2 * n + 1).kind == RPAREN
    decreases n
  {
    if n > 0 {
      AtomCommaListEnds(ts, i + 2, n - 1);
      assert i + 2 + 2 * (n - 1) + 1 == i + 2 * n + 1;
    }
  }

  /** One turn of the argument loop over an atom followed by `,` or `)`: the atom is appended. */
  lemma ArgumentsLoopAtomStep(ts: seq<Token>, acc: seq<Option<Expression>>, s: St)
    requires Peek(ts, s).kind == COMMA && IsAtom(At(ts, s.pos + 2))
    requires At(ts, s.pos + 3).kind == COMMA || At(ts, s.pos + 3).kind == RPAREN
    ensures ArgumentsLoop(ts, acc, s) == ArgumentsLoop(ts, acc + [Some(Atom(At(ts, s.pos + 2)))], St(s.pos + 2, s.errors))
  {
    AtomExpression(ts, St(s.pos + 2, s.errors), LOWEST);
  }

  /** The comma loop of parseCallArguments collects the listed atoms in order and stops before the `)`. */
  lemma {:induction false} ArgumentsLoopCollects(ts: seq<Token>, acc: seq<Option<Expression>>, s: St, n: nat)
    requires AtomCommaList(ts, s.pos, n)
    ensures ArgumentsLoop(ts, acc, s) == Out(acc + ListedAtoms(ts, s.pos, n), St(s.pos + 2 * n, s.errors))
    decreases n
  {
    if n > 0 {
      var s2 := St(s.pos + 2, s.errors);
      var arg := Some(Atom(At(ts, s.pos + 2)));
      var r := Out(acc + ListedAtoms(ts, s.pos, n), St(s.pos + 2 * n, s.errors));
      assert ListedAtoms(ts, s.pos, n) == [arg] + ListedAtoms(ts, s2.pos, n - 1);
      assert acc + [arg] + ListedAtoms(ts, s2.pos, n - 1) == acc + ([arg] + ListedAtoms(ts, s2.pos, n - 1));
      assert Out(acc + [arg] + ListedAtoms(ts, s2.pos, n - 1), St(s2.pos + 2 * (n - 1), s2.errors)) == r;
      assert At(ts, s.pos + 3).kind == COMMA || At(ts, s.pos + 3).kind == RPAREN;
      ArgumentsLoopCollects(ts, acc + [arg], s2, n - 1);
      ArgumentsLoopAtomStep(ts, acc, s);
    } else {
      assert acc + [] == acc;
    }
  }

  /** `(a0, a1, ..., an)` of atoms gives the arguments a0 ... an in order and ends on `)` with no diagnostic. */
  lemma ArgumentsInOrder(ts: seq<Token>, s: St, n: nat)
    requires IsAtom(Peek(ts, s)) && AtomCommaList(ts, s.pos + 1, n)
    ensures ParseCallArguments(ts, s)
              == Out(Some([Some(Atom(Peek(ts, s)))] + ListedAtoms(ts, s.pos + 1, n)), St(s.pos + 2 * n + 2, s.errors))
  {
    var a := Some(Atom(Peek(ts, s)));
    assert Precedence(At(ts, s.pos + 2).kind) == LOWEST;
    AtomExpression(ts, Next(s), LOWEST);
    AtomCommaListEnds(ts, s.pos + 1, n);
    ArgumentsLoopCollects(ts, [a], Next(s), n);
    ArgumentsClosed(ts, s, a, [a] + ListedAtoms(ts, s.pos + 1, n), St(s.pos + 2 * n + 1, s.errors));
  }

  /** A first argument, a comma loop and then `)`: the argument list is what the loop collected. */
  lemma ArgumentsClosed(ts: seq<Token>, s: St, a: Option<Expression>, args: seq<Option<Expression>>, e: St)
    requires Peek(ts, s).kind != RPAREN && ParserExpression(ts, Next(s), LOWEST) == Out(a, Next(s))
    requires ArgumentsLoop(ts, [a], Next(s)) == Out(args, e) && Peek(ts, e).kind == RPAREN
    ensures ParseCallArguments(ts, s) == Out(Some(args), Next(e))
  {
  }

  /** `callee(a1, ..., ak)` over atoms is the call node holding exactly a1 ... ak, with no diagnostic. */
  lemma CallOfAtoms(ts: seq<Token>, callee: Option<Expression>, s: St, n: nat)
    requires IsAtom(Peek(ts, s)) && AtomCommaList(ts, s.pos + 1, n)
    ensures ParseCallExpression(ts, callee, s)
              == Out(Some(CallExpression(Cur(ts, s), callee, Some([Some(Atom(Peek(ts, s)))] + ListedAtoms(ts, s.pos + 1, n)))),
                     St(s.pos + 2 * n + 2, s.errors))
  {
    ArgumentsInOrder(ts, s, n);
  }
}
