/**
 * How the Pratt loop of parser/parser.go groups binary operators: operators
 * of equal precedence group to the left, a tighter one takes the operand
 * before it, prefix operators bind tighter than every binary operator, and a
 * parenthesised group is one operand.
 */
module PrecedenceProperties {
  import opened Wrappers
  import opened Tokens
  import opened Ast
  import opened ParserSpec
  import opened ParserProperties

  /** A kind whose infix routine is parseInfixExpression (every infix kind but `(`). */
  predicate IsBinaryOperator(k: TokenType)
  {
    InfixRoutineFor(k) == Some(ParseInfixExpressionFn)
  }

  /** The node `left op right` with both operands present. */
  function Infix(op: Token, left: Expression, right: Expression): Expression
  {
    InfixExpression(op, Some(left), op.literal, Some(right))
  }

  /**
   * A `(` after a complete operand, below CALL precedence, is one infix step
   * of the loop: the call is built around the operand so far and the loop
   * goes on from where the call ends.
   */
  lemma CallStep(ts: seq<Token>, left: Option<Expression>, s: St, precedence: nat, r: Out<Option<Expression>>)
    requires Peek(ts, s).kind == LPAREN && precedence < CALL
    requires ParseCallExpression(ts, left, Next(s)) == r
    ensures PrattLoop(ts, left, s, precedence) == PrattLoop(ts, r.val, r.st, precedence)
  {
    assert InfixRoutineFor(LPAREN) == Some(ParseCallExpressionFn);
  }

  /**
   * An operator after the current token takes as its right operand exactly
   * what parserExpression at the operator's own precedence returns; the loop
   * then continues from there with the new node on the left.
   */
  lemma OperatorStep(ts: seq<Token>, left: Expression, s: St, precedence: nat, right: Expression, t: St)
    requires IsBinaryOperator(Peek(ts, s).kind) && precedence < Precedence(Peek(ts, s).kind)
    requires ParserExpression(ts, St(s.pos + 2, s.errors), Precedence(Peek(ts, s).kind)) == Out(Some(right), t)
    ensures PrattLoop(ts, Some(left), s, precedence)
              == PrattLoop(ts, Some(Infix(Peek(ts, s), left, right)), t, precedence)
  {
    InfixTableAgreesWithPrecedence(Peek(ts, s).kind);
    assert Next(Next(s)) == St(s.pos + 2, s.errors);
  }

  /** An operator followed by an atom that ends the operand: the atom is the right operand. */
  lemma OperatorAtomStep(ts: seq<Token>, left: Expression, s: St, precedence: nat)
    requires IsBinaryOperator(Peek(ts, s).kind) && precedence < Precedence(Peek(ts, s).kind)
    requires IsAtom(At(ts, s.pos + 2)) && Stops(ts, St(s.pos + 2, s.errors), Precedence(Peek(ts, s).kind))
    ensures PrattLoop(ts, Some(left), s, precedence)
              == PrattLoop(ts, Some(Infix(Peek(ts, s), left, Atom(At(ts, s.pos + 2)))), St(s.pos + 2, s.errors), precedence)
  {
    AtomExpression(ts, St(s.pos + 2, s.errors), Precedence(Peek(ts, s).kind));
    OperatorStep(ts, left, s, precedence, Atom(At(ts, s.pos + 2)), St(s.pos + 2, s.errors));
  }

  /** Positions i+1, i+3, ... hold n binary operators of precedence p, each followed by an atom. */
  predicate IsChain(ts: seq<Token>, i: nat, n: nat, p: nat)
    decreases n
  {
    n == 0
    || (&& IsBinaryOperator(At(ts, i + 1).kind) && Precedence(At(ts, i + 1).kind) == p
        && IsAtom(At(ts, i + 2)) && IsChain(ts, i + 2, n - 1, p))
  }

  /** The chain after position i grouped to the left: `((left o1 a1) o2 a2) ...`. */
  function GroupLeft(ts: seq<Token>, left: Expression, i: nat, n: nat, p: nat): Expression
    requires IsChain(ts, i, n, p)
    decreases n
  {
    if n == 0 then left else GroupLeft(ts, Infix(At(ts, i + 1), left, Atom(At(ts, i + 2))), i + 2, n - 1, p)
  }

  /** Operators of one precedence group to the left, however many there are. */
  lemma {:induction false} ChainGroupsLeft(ts: seq<Token>, left: Expression, s: St, n: nat, p: nat, precedence: nat)
    requires precedence < p && IsChain(ts, s.pos, n, p)
    requires Stops(ts, St(s.pos + 2 * n, s.errors), precedence)
    ensures PrattLoop(ts, Some(left), s, precedence)
              == Out(Some(GroupLeft(ts, left, s.pos, n, p)), St(s.pos + 2 * n, s.errors))
    decreases n
  {
    if n == 0 {
      PrattLoopStops(ts, Some(left), s, precedence);
    } else {
      var operand := St(s.pos + 2, s.errors);
      var next := Infix(Peek(ts, s), left, Atom(At(ts, s.pos + 2)));
      assert GroupLeft(ts, left, s.pos, n, p) == GroupLeft(ts, next, operand.pos, n - 1, p);
      assert St(operand.pos + 2 * (n - 1), operand.errors) == St(s.pos + 2 * n, s.errors);
      assert IsChain(ts, operand.pos, n - 1, p) && Stops(ts, St(operand.pos + 2 * (n - 1), operand.errors), precedence);
      assert Stops(ts, operand, Precedence(Peek(ts, s).kind));
      ChainGroupsLeft(ts, next, operand, n - 1, p, precedence);
      OperatorAtomStep(ts, left, s, precedence);
    }
  }

  /** `a o1 b o2 c ...` with all operators of one precedence is `((a o1 b) o2 c) ...`, with no diagnostic. */
  lemma EqualPrecedenceGroupsLeft(ts: seq<Token>, s: St, n: nat, p: nat, precedence: nat)
    requires IsAtom(Cur(ts, s)) && precedence < p && IsChain(ts, s.pos, n, p)
    requires Stops(ts, St(s.pos + 2 * n, s.errors), precedence)
    ensures ParserExpression(ts, s, precedence)
              == Out(Some(GroupLeft(ts, Atom(Cur(ts, s)), s.pos, n, p)), St(s.pos + 2 * n, s.errors))
  {
    AtomPrefix(ts, s);
    ChainGroupsLeft(ts, Atom(Cur(ts, s)), s, n, p, precedence);
  }

  /**
   * `a o1 b o2 c` groups to the left exactly when o1 binds at least as
   * tightly as o2; otherwise o2 takes b as its left operand.
   */
  lemma TwoOperators(ts: seq<Token>, s: St, precedence: nat)
    requires IsAtom(At(ts, s.pos)) && IsAtom(At(ts, s.pos + 2)) && IsAtom(At(ts, s.pos + 4))
    requires IsBinaryOperator(At(ts, s.pos + 1).kind) && IsBinaryOperator(At(ts, s.pos + 3).kind)
    requires precedence < Precedence(At(ts, s.pos + 1).kind) && precedence < Precedence(At(ts, s.pos + 3).kind)
    requires Stops(ts, St(s.pos + 4, s.errors), precedence)
    ensures var a, o1, b, o2, c := Atom(At(ts, s.pos)), At(ts, s.pos + 1), Atom(At(ts, s.pos + 2)), At(ts, s.pos + 3), Atom(At(ts, s.pos + 4));
            ParserExpression(ts, s, precedence)
              == Out(Some(if Precedence(o1.kind) >= Precedence(o2.kind) then Infix(o2, Infix(o1, a, b), c)
                          else Infix(o1, a, Infix(o2, b, c))),
                     St(s.pos + 4, s.errors))
  {
    var a, o1, b, o2, c := Atom(At(ts, s.pos)), At(ts, s.pos + 1), Atom(At(ts, s.pos + 2)), At(ts, s.pos + 3), Atom(At(ts, s.pos + 4));
    var mid, last := St(s.pos + 2, s.errors), St(s.pos + 4, s.errors);
    AtomPrefix(ts, s);
    if Precedence(o1.kind) >= Precedence(o2.kind) {
      OperatorAtomStep(ts, a, s, precedence);
      OperatorAtomStep(ts, Infix(o1, a, b), mid, precedence);
      PrattLoopStops(ts, Some(Infix(o2, Infix(o1, a, b), c)), last, precedence);
    } else {
      AtomPrefix(ts, mid);
      OperatorAtomStep(ts, b, mid, Precedence(o1.kind));
      PrattLoopStops(ts, Some(Infix(o2, b, c)), last, Precedence(o1.kind));
      OperatorStep(ts, a, s, precedence, Infix(o2, b, c), last);
      PrattLoopStops(ts, Some(Infix(o1, a, Infix(o2, b, c))), last, precedence);
    }
  }

  /**
   * A prefix operator takes as its operand exactly what parserExpression at
   * PREFIX returns, and the loop continues from there with the prefix node on the left.
   */
  lemma PrefixStep(ts: seq<Token>, s: St, precedence: nat, right: Expression, t: St)
    requires Cur(ts, s).kind == BANG || Cur(ts, s).kind == MINUS
    requires ParserExpression(ts, Next(s), PREFIX) == Out(Some(right), t)
    ensures ParserExpression(ts, s, precedence)
              == PrattLoop(ts, Some(PrefixExpression(Cur(ts, s), Cur(ts, s).literal, Some(right))), t, precedence)
  {
    var node := Some(PrefixExpression(Cur(ts, s), Cur(ts, s).literal, Some(right)));
    assert ParsePrefixExpression(ts, s) == Out(node, t);
    assert ParsePrefix(ts, s, ParsePrefixExpressionFn) == Out(node, t);
  }

  /**
   * A prefix operator applied to an atom, followed by anything but `(`, is a
   * complete left operand: any binary operator after it takes the whole
   * prefix expression.
   */
  lemma PrefixBindsTighter(ts: seq<Token>, s: St, precedence: nat)
    requires Cur(ts, s).kind == BANG || Cur(ts, s).kind == MINUS
    requires IsAtom(At(ts, s.pos + 1)) && At(ts, s.pos + 2).kind != LPAREN
    ensures ParserExpression(ts, s, precedence)
              == PrattLoop(ts, Some(PrefixExpression(Cur(ts, s), Cur(ts, s).literal, Some(Atom(At(ts, s.pos + 1))))),
                           St(s.pos + 1, s.errors), precedence)
  {
    PrefixOperandIsAtom(ts, s);
  }

  /** A parenthesised expression is one operand, whatever it contains; the cursor ends on its `)`. */
  lemma GroupIsOneOperand(ts: seq<Token>, s: St, precedence: nat, inner: Expression, t: St)
    requires Cur(ts, s).kind == LPAREN
    requires ParserExpression(ts, Next(s), LOWEST) == Out(Some(inner), t) && Peek(ts, t).kind == RPAREN
    ensures ParserExpression(ts, s, precedence) == PrattLoop(ts, Some(inner), Next(t), precedence)
  {
    GroupedShape(ts, s);
  }
}
