# Pratt parser of GoClang, modelled in Dafny

This project models the parser of GoClang, a small C-like scripting language
(`parser/parser.go`). The parser is a recursive-descent parser that uses
precedence climbing (Pratt parsing) for expressions. It reads lexer tokens with
one token of lookahead (`curToken`, `peekToken`) and builds a `Program` of
`let`, `return` and expression statements. Its diagnostics go into an
append-only list of error strings.

The model has three layers:

- `ParserSpec` (`parser_spec.dfy`) gives the meaning of every parse routine as a
  function. Each function maps a parser state to a result and a new state. The
  state is the position of `curToken` in the lexer's output plus the errors
  recorded so far. Each parse routine ensures that the cursor never moves back
  and that errors are only appended.
- `Parser.Parser` (`parser.dfy`) is the parser object. It is a class with the
  Go struct's mutable fields: `curToken`, `peekToken`, `errors`, and the lexer,
  given as its token sequence plus a count of tokens read. Every Go method that
  moves the cursor or records an error is a Dafny method that has
  `modifies this`. Its postcondition states its result and new state as the
  matching `ParserSpec` function applied to the old state. The methods that
  only look at the fields (`Errors`, `CurTokenIs`, `PeekTokenIs`,
  `PeekPrecedence`, `CurPrecedence`, `ParserIdentifier`,
  `ParseBooleanExpression`, `ParseStringExpression`) are functions that read
  the object. The loops of `ParserProgram`, `parseBlockStatement`,
  `parseParameters`, `parseCallArguments` and `parserExpression` are `while`
  loops. Their invariants tie the statements, arguments or expression built so
  far to the specification.
- `ParserProperties`, `PrecedenceProperties`, `ParserExamples` and
  `CompoundExamples` prove what the parser promises, over every token sequence
  and over the token sequences of the programs in `parser/parser_test.go`.
  The promises cover: where each routine leaves the cursor; which diagnostics
  it records; which statements are kept and in what order; precedence and
  associativity; grouping; `if`/`else`; function literals; and call arguments.

The lexer is an input: a `seq<Token>`. Reading past its end keeps yielding the
`EOF` token, just as the lexer keeps returning `EOF` at the end of its input.
The two function-value tables that `New` fills are replaced by a fixed `match`
on the token kind (`PrefixRoutineFor`, `InfixRoutineFor`). Go's `nil` results
are `Option.None`. Diagnostics are kept structured (`ParseError`): one
constructor for each of the three messages the parser formats.

On malformed input the code behaves as follows:

- A failed sub-expression does not make the enclosing statement fail. An
  expression or `return` statement is always kept, even when its expression is
  absent. Only a `let` that is missing its name or its `=` is dropped.
- A failed operand does not remove the node around it. `-` followed by a token
  with no prefix routine still gives a prefix node whose operand is absent. The
  same goes for an infix node with a failed right-hand side.
- A missing `)` in a parameter or argument list does not make the function
  literal or the call absent. The node is still built, and its list is absent.
- `parseParameters` takes any token as a parameter name. It does not check
  that the token is an identifier.

## Model

| member | source | states |
|---|---|---|
| `Strconv.ParseInt64` | parser/parser.go:213-218 | A value is returned exactly when the text is an optional sign followed by one or more decimal digits and the signed value fits a 64-bit integer. The value is the sign applied to the digits' base-10 value. |
| `Strconv.DigitChar` | parser/parser.go:213 | The character for a digit 0-9 is a decimal digit whose value is that digit. |
| `Strconv.DecimalStringValue` | parser/parser.go:213 | The decimal text of n is a non-empty digit string whose base-10 value is n. |
| `Strconv.ParseInt64OfDecimal` | parser/parser.go:213-222 | The decimal text of every value up to 2^63-1 parses back to that value. |
| `Strconv.ParseInt64OfNegative` | parser/parser.go:213-222 | A `-` before the decimal text of n gives -n, down to -2^63. |
| `Strconv.ParseInt64Overflow` | parser/parser.go:213-217 | Decimal text above 2^63-1 is refused. |
| `ParserSpec.Precedence` | parser/parser.go:245-269 | Every token kind gets a binding power from LOWEST (1) to CALL (7). Kinds that are not in the table get LOWEST. |
| `ParserSpec.ParserProgram` | parser/parser.go:75-87 | Parsing a program never moves the cursor back and only appends errors. |
| `ParserSpec.ProgramLoop` | parser/parser.go:79-85 | The statement loop never moves the cursor back and only appends errors. |
| `ParserSpec.ParserStatement` | parser/parser.go:89-98 | Statement dispatch never moves the cursor back and only appends errors. |
| `ParserSpec.ParserLetStatement` | parser/parser.go:100-122 | Parsing a `let` never moves the cursor back and only appends errors. |
| `ParserSpec.ParserReturnStatement` | parser/parser.go:124-134 | Parsing a `return` never moves the cursor back and only appends errors. |
| `ParserSpec.ParserExpressionStatement` | parser/parser.go:136-144 | Parsing an expression statement never moves the cursor back and only appends errors. |
| `ParserSpec.ParserExpression` | parser/parser.go:162-179 | Parsing an expression never moves the cursor back and only appends errors. |
| `ParserSpec.ParsePrefix` | parser/parser.go:163-168 | Calling the prefix routine for the current token never moves the cursor back and only appends errors. |
| `ParserSpec.PrattLoop` | parser/parser.go:170-178 | The infix loop never moves the cursor back and only appends errors. |
| `ParserSpec.ParsePrefixExpression` | parser/parser.go:225-233 | A prefix expression never moves the cursor back and only appends errors. |
| `ParserSpec.ParseInfixExpression` | parser/parser.go:235-243 | An infix expression never moves the cursor back and only appends errors. |
| `ParserSpec.ParseGroupedExpression` | parser/parser.go:276-286 | A grouped expression never moves the cursor back and only appends errors. |
| `ParserSpec.ParseIfExpression` | parser/parser.go:288-321 | An if-expression never moves the cursor back and only appends errors. |
| `ParserSpec.ParseAlternative` | parser/parser.go:309-318 | The `else` branch never moves the cursor back and only appends errors. |
| `ParserSpec.ParseBlockStatement` | parser/parser.go:323-338 | A block never moves the cursor back and only appends errors. |
| `ParserSpec.BlockLoop` | parser/parser.go:329-335 | The block's statement loop never moves the cursor back and only appends errors. |
| `ParserSpec.ParseFunctionLiteral` | parser/parser.go:340-356 | A function literal never moves the cursor back and only appends errors. |
| `ParserSpec.ParseParameters` | parser/parser.go:358-381 | A parameter list never moves the cursor back and only appends errors. |
| `ParserSpec.ParametersLoop` | parser/parser.go:370-375 | The parameter comma loop never moves the cursor back and only appends errors. |
| `ParserSpec.ParseCallExpression` | parser/parser.go:383-387 | A call expression never moves the cursor back and only appends errors. |
| `ParserSpec.ExpectPeek` | parser/parser.go:190-198 | On success the peek token has the expected kind, the cursor moves one token and nothing is recorded. On failure the cursor stays and exactly one error is appended. |
| `ParserSpec.SkipSemicolon` | parser/parser.go:116-118 | The optional `;` after a statement is consumed exactly when it is the peek token. At most one token is eaten and nothing is recorded. |
| `ParserSpec.ParseIntegerLiteral` | parser/parser.go:210-223 | The cursor does not move. A node keeps the current token and the state; a failure records exactly `NotAnInteger(literal)`. |
| `ParserSpec.ParseCallArguments` | parser/parser.go:389-411 | An argument list never moves the cursor back and only appends errors. |
| `ParserSpec.ArgumentsLoop` | parser/parser.go:400-404 | The argument comma loop never moves the cursor back and only appends errors. |
| `Parser.Parser.constructor` | parser/parser.go:22-27 | `New` reads two tokens. `curToken` is token 0, `peekToken` is token 1, and there are no errors. |
| `Parser.Parser.Errors` | parser/parser.go:61-63 | Returns the errors recorded so far, in the order they were recorded. |
| `Parser.Parser.PeekError` | parser/parser.go:65-68 | Appends exactly one "expected next token to be t; got <peek kind>" diagnostic. The cursor does not move. |
| `Parser.Parser.NextToken` | parser/parser.go:70-73 | The peek token becomes the current token. The next token from the lexer becomes the peek token. The abstract state advances by one position. |
| `Parser.Parser.ParserProgram` | parser/parser.go:75-87 | Returns the program and the final state that `ParserSpec.ParserProgram` gives, and stops with `curToken` at EOF. |
| `Parser.Parser.ParserStatement` | parser/parser.go:89-98 | Result and new state equal `ParserSpec.ParserStatement`. |
| `Parser.Parser.ParserLetStatement` | parser/parser.go:100-122 | Result and new state equal `ParserSpec.ParserLetStatement`. |
| `Parser.Parser.ParserReturnStatement` | parser/parser.go:124-134 | Result and new state equal `ParserSpec.ParserReturnStatement`. |
| `Parser.Parser.ParserExpressionStatement` | parser/parser.go:136-144 | Result and new state equal `ParserSpec.ParserExpressionStatement`. |
| `Parser.Parser.NoPrefixParseFnError` | parser/parser.go:157-160 | Appends exactly one "no prefix parse function for <kind>" diagnostic. The cursor does not move. |
| `Parser.Parser.ParserExpression` | parser/parser.go:162-179 | Result and new state equal `ParserSpec.ParserExpression`. |
| `Parser.Parser.PrattLoop` | parser/parser.go:170-178 | The infix loop's result and new state equal `ParserSpec.PrattLoop`. |
| `Parser.Parser.ParsePrefix` | parser/parser.go:163-168 | Calling the registered prefix routine matches `ParserSpec.ParsePrefix`. |
| `Parser.Parser.CurTokenIs` | parser/parser.go:182-184 | True exactly when the token at the cursor has kind t. |
| `Parser.Parser.PeekTokenIs` | parser/parser.go:186-188 | True exactly when the token after the cursor has kind t. |
| `Parser.Parser.ExpectPeek` | parser/parser.go:190-198 | Result and new state equal `ParserSpec.ExpectPeek`. |
| `Parser.Parser.ParserIdentifier` | parser/parser.go:206-208 | The identifier node for the current token, as `ParserSpec.ParsePrefix` gives it. The cursor does not move. |
| `Parser.Parser.ParseIntegerLiteral` | parser/parser.go:210-223 | Result and new state equal `ParserSpec.ParseIntegerLiteral`. |
| `Parser.Parser.ParsePrefixExpression` | parser/parser.go:225-233 | Result and new state equal `ParserSpec.ParsePrefixExpression`. |
| `Parser.Parser.ParseInfixExpression` | parser/parser.go:235-243 | Result and new state equal `ParserSpec.ParseInfixExpression`. |
| `Parser.Parser.PeekPrecedence` | parser/parser.go:257-262 | The binding power of the token after the cursor, from LOWEST to CALL. |
| `Parser.Parser.CurPrecedence` | parser/parser.go:264-269 | The binding power of the token at the cursor, from LOWEST to CALL. |
| `Parser.Parser.ParseBooleanExpression` | parser/parser.go:272-274 | The boolean node for `true`/`false`, as `ParserSpec.ParsePrefix` gives it. |
| `Parser.Parser.ParseGroupedExpression` | parser/parser.go:276-286 | Result and new state equal `ParserSpec.ParseGroupedExpression`. |
| `Parser.Parser.ParseIfExpression` | parser/parser.go:288-321 | Result and new state equal `ParserSpec.ParseIfExpression`. |
| `Parser.Parser.ParseAlternative` | parser/parser.go:309-318 | The `else` branch's result and new state equal `ParserSpec.ParseAlternative`. |
| `Parser.Parser.ParseBlockStatement` | parser/parser.go:323-338 | Result and new state equal `ParserSpec.ParseBlockStatement`. |
| `Parser.Parser.ParseFunctionLiteral` | parser/parser.go:340-356 | Result and new state equal `ParserSpec.ParseFunctionLiteral`. |
| `Parser.Parser.ParseParameters` | parser/parser.go:358-381 | Result and new state equal `ParserSpec.ParseParameters`. |
| `Parser.Parser.ParseCallExpression` | parser/parser.go:383-387 | Result and new state equal `ParserSpec.ParseCallExpression`. |
| `Parser.Parser.ParseCallArguments` | parser/parser.go:389-411 | Result and new state equal `ParserSpec.ParseCallArguments`. |
| `Parser.Parser.ParseMoreArguments` | parser/parser.go:400-404 | The comma loop's result and new state equal `ParserSpec.ArgumentsLoop`. |
| `Parser.Parser.ParseStringExpression` | parser/parser.go:413-415 | The string node for the current token, as `ParserSpec.ParsePrefix` gives it. |
| `Parser.Parse` | parser/parser_test.go:17-21 | A fresh parser over a token sequence returns exactly the program and the errors of `ParserSpec.ParserProgram` from position 0 with no errors. |
| `ParserProperties.ExpectPeekOutcome` | parser/parser.go:190-198 | `expectPeek(t)` succeeds exactly when the peek kind is t. On success it advances one token and adds no error. On failure it appends exactly `ExpectedNext(t, peek kind)` and the cursor stays put. |
| `ParserProperties.ProgramLoopEndsAtEof` | parser/parser.go:79-85 | The statement loop stops with the current token at EOF. When it starts at EOF, it returns at once. |
| `ParserProperties.ProgramLoopAppends` | parser/parser.go:79-85 | Statements are appended after the ones already kept, in source order. |
| `ParserProperties.ProgramLoopLength` | parser/parser.go:79-85 | Every iteration consumes a token, so the loop keeps at most one statement per remaining token. |
| `ParserProperties.ParserProgramShape` | parser/parser.go:75-87 | `ParserProgram` ends at EOF and keeps at most one statement per token. Its statements are the first statement, when kept, followed by those of the rest of the input. |
| `ParserProperties.StatementShape` | parser/parser.go:89-111 | A statement is dropped exactly when it is a `let` missing its name or its `=`. A kept statement has the kind its first token selects and keeps that token. |
| `ParserProperties.LetStatementShape` | parser/parser.go:100-122 | A `let` without a name, or without a `=`, yields nothing after one "expected" diagnostic at that point. A complete one binds the name to the expression after `=` and eats an optional `;`. |
| `ParserProperties.ReturnStatementShape` | parser/parser.go:124-134 | A `return` statement is always built, holding its own token and the expression parsed after it (absent included); it adds no diagnostic of its own, ends on the `;` exactly when one follows the expression, and consumes at least one token. |
| `ParserProperties.ExpressionStatementShape` | parser/parser.go:136-144 | An expression statement is always built. With no prefix routine it wraps an absent expression after one diagnostic. |
| `ParserProperties.RoutineTables` | parser/parser.go:29-49 | A prefix routine exists exactly for the ten kinds `New` registers one for, an infix routine exactly for the nine kinds it registers, and only `(` is routed to the call routine. |
| `ParserProperties.InfixTableAgreesWithPrecedence` | parser/parser.go:245-255 | A kind has an infix routine exactly when it binds above LOWEST. Only `(` binds at CALL. Binary operators bind between EQUALS and PRODUCT. |
| `ParserProperties.MissingInfixUnreachable` | parser/parser.go:170-174 | The `infix == nil` exit is never taken for a minimum precedence of at least LOWEST. |
| `ParserProperties.PrattLoopStops` | parser/parser.go:170-178 | The infix loop stops on a `;`, on a peek token that binds no tighter than the minimum, or on one with no infix routine. It never consumes the `;`. |
| `ParserProperties.ExpressionStops` | parser/parser.go:162-179 | With no prefix routine: one "no prefix parse function" diagnostic and an absent result. Otherwise the expression stops where the infix loop stops. |
| `ParserProperties.AtomPrefix` | parser/parser.go:206-223 | An identifier, string, boolean or in-range integer token becomes its node. Nothing more is consumed and nothing is recorded. |
| `ParserProperties.AtomExpression` | parser/parser.go:162-179 | An atom followed by a stopping token is a whole expression. |
| `ParserProperties.IntegerLiteralOfDecimal` | parser/parser.go:210-223 | An integer literal's value is the base-10 value of its text, and the node keeps the token. |
| `ParserProperties.IntegerLiteralOfDigits` | parser/parser.go:210-223 | Any non-empty digit text is a literal of its base-10 value when that fits 64 bits. Otherwise the result is absent and `NotAnInteger(text)` is recorded. |
| `ParserProperties.IntegerLiteralOverflow` | parser/parser.go:213-217 | Text beyond 2^63-1 gives an absent result and records `NotAnInteger(text)`. |
| `ParserProperties.BooleanValue` | parser/parser.go:272-274 | Only `true`/`false` reach the boolean routine. Its value is `kind == TRUE`. |
| `ParserProperties.PrefixOperandIsAtom` | parser/parser.go:225-233 | A prefix operator followed by an atom and then anything but `(` takes just the atom as its operand. |
| `ParserProperties.GroupedShape` | parser/parser.go:276-286 | A group ends on its `)`. Without the `)` it is absent, after one diagnostic naming RPAREN. |
| `ParserProperties.BlockLoopEnds` | parser/parser.go:329-335 | The block loop stops only on `}` or EOF. |
| `ParserProperties.BlockLoopAppends` | parser/parser.go:329-335 | A block keeps its statements in source order. |
| `ParserProperties.BlockShape` | parser/parser.go:323-338 | A block keeps its `{` token, always consumes at least one token, and ends on `}` or on EOF. `{}`, or `{` followed by EOF, is an empty block. |
| `ParserProperties.AlternativeShape` | parser/parser.go:309-318 | An `else` branch is parsed exactly when `else` follows. An `else` without `{` is absent, after exactly `ExpectedNext(LBRACE, kind)` with the cursor on the `else`. `else {` gives the block parsed from that `{`. |
| `ParserProperties.IfShape` | parser/parser.go:288-321 | An if-expression keeps its token and ends on `}` or EOF. It has no alternative only when no `else` follows. |
| `ParserProperties.IfMissingRParen` | parser/parser.go:297-301 | A condition not followed by `)` makes the if-expression absent after exactly `ExpectedNext(RPAREN, kind)`. |
| `ParserProperties.IfMissingLBrace` | parser/parser.go:303-305 | A `)` not followed by `{` makes the if-expression absent after exactly `ExpectedNext(LBRACE, kind)`, with the cursor on the `)`. |
| `ParserProperties.IfWithBlock` | parser/parser.go:307-320 | After `(condition) {`, the node holds the condition, the block parsed from that `{` and the alternative; an `else` without `{` makes it absent. |
| `ParserProperties.IfExits` | parser/parser.go:288-321 | Each of a missing `(`, `)` or `{` gives an absent result after one diagnostic naming it. A complete if-expression holds the condition and the consequence, has no alternative when no `else` follows the consequence, and has one only when `else` follows. |
| `ParserProperties.ParametersLoopShape` | parser/parser.go:370-375 | The parameter comma loop records nothing, stops before a non-`,`, and only appends. |
| `ParserProperties.ParametersShape` | parser/parser.go:358-381 | A parameter list ends on `)` with no diagnostic, or is absent after exactly one diagnostic naming RPAREN. `()` gives the empty list. |
| `ParserProperties.ParametersLoopStep` | parser/parser.go:370-375 | A `,` appends the token after it as the next parameter and moves two tokens on. |
| `ParserProperties.ParametersLoopCollects` | parser/parser.go:370-375 | The comma loop collects the listed names in order and stops on the last one. |
| `ParserProperties.ParametersInOrder` | parser/parser.go:358-381 | `(x1, ..., xk)` gives x1 ... xk in order. It ends on `)` and records no diagnostic. |
| `ParserProperties.FunctionLiteralShape` | parser/parser.go:340-356 | A built function literal keeps `fn` and ends on `}` or EOF. A missing `(` or a missing `{` after the parameters gives an absent result after exactly one diagnostic naming it. Otherwise the literal is built around whatever the list gave, an absent list included, and the block after it. |
| `ParserProperties.ArgumentsLoopShape` | parser/parser.go:400-404 | The argument comma loop stops before a non-`,` and only appends. |
| `ParserProperties.ArgumentsShape` | parser/parser.go:389-411 | An argument list ends on `)`, or is absent and the last diagnostic it appends is `ExpectedNext(RPAREN, kind)`. `()` gives the empty list. |
| `ParserProperties.CallShape` | parser/parser.go:383-411 | A call node is always built with the `(` token and its callee, so a missing `)` never makes the call absent: it leaves the argument list absent, with the old diagnostics kept and `ExpectedNext(RPAREN, kind)` appended last. A present list ends on `)`, and `f()` is the call with no arguments. |
| `ParserProperties.CallOfAtoms` | parser/parser.go:383-411 | `callee(a1, ..., ak)` over atoms is the call node holding exactly a1 ... ak in order, ending on `)` with no new diagnostic. |
| `ParserProperties.ArgumentsLoopAtomStep` | parser/parser.go:400-404 | A `,` followed by an atom that ends the argument appends that atom and moves two tokens on. |
| `ParserProperties.ArgumentsLoopCollects` | parser/parser.go:400-404 | The comma loop collects the listed atoms in order, records nothing and stops on the last one. |
| `ParserProperties.ArgumentsInOrder` | parser/parser.go:389-411 | `(a1, ..., ak)` of atoms gives a1 ... ak in order. It ends on `)` and records no diagnostic. |
| `PrecedenceProperties.CallStep` | parser/parser.go:170-178 | A `(` after an operand, below call precedence, is one turn of the infix loop: the call is built around the operand so far, and the loop continues from where the call ends. |
| `PrecedenceProperties.OperatorStep` | parser/parser.go:235-243 | A binary operator takes as its right operand exactly the expression parsed at its own precedence. The loop then continues with the new node on the left. |
| `PrecedenceProperties.OperatorAtomStep` | parser/parser.go:235-243 | An operator followed by an atom that ends the operand takes that atom as its right operand. |
| `PrecedenceProperties.ChainGroupsLeft` | parser/parser.go:170-178 | Any number of operators of one precedence nest to the left: `((a o1 b) o2 c) ...`. |
| `PrecedenceProperties.EqualPrecedenceGroupsLeft` | parser/parser.go:162-179 | `a o1 b o2 c ...` with operators of one precedence is left-nested and records no diagnostic. |
| `PrecedenceProperties.TwoOperators` | parser/parser.go:170-178 | `a o1 b o2 c` nests to the left exactly when o1 binds at least as tightly as o2. Otherwise it is `a o1 (b o2 c)`. |
| `PrecedenceProperties.PrefixStep` | parser/parser.go:225-233 | A prefix operator's operand is what `parserExpression(PREFIX)` returns. The loop continues with the prefix node. |
| `PrecedenceProperties.PrefixBindsTighter` | parser/parser.go:225-233 | `-a` followed by a binary operator becomes the left operand of that operator. |
| `PrecedenceProperties.GroupIsOneOperand` | parser/parser.go:276-286 | A parenthesised expression is a single operand, whatever it contains. |
| `ParserExamples.NegationBeforeProduct` | parser/parser_test.go:265 | `-a * b` is Infix(Prefix(-, a), *, b) with no diagnostic. |
| `ParserExamples.NestedPrefix` | parser/parser_test.go:266 | `!-a` is Prefix(!, Prefix(-, a)). |
| `ParserExamples.SumsGroupLeft` | parser/parser_test.go:268 | `a + b - c` is Infix(Infix(a, +, b), -, c). |
| `ParserExamples.ProductsGroupLeft` | parser/parser_test.go:270 | `a * b / c` is Infix(Infix(a, *, b), /, c). |
| `ParserExamples.ProductBeforeSum` | parser/parser_test.go:271 | `a + b / c` is Infix(a, +, Infix(b, /, c)). |
| `ParserExamples.ComparisonBeforeEquality` | parser/parser_test.go:274 | `3 > 5 == false` is Infix(Infix(3, >, 5), ==, false). |
| `ParserExamples.GroupInside` | parser/parser.go:276-286 | Inside `1 + (2 + 3) + 4`, the expression after `(` is Infix(2, +, 3). It stops before the `)`. |
| `ParserExamples.ParenthesesGroup` | parser/parser_test.go:276 | `1 + (2 + 3) + 4` is Infix(Infix(1, +, Infix(2, +, 3)), +, 4). |
| `ParserExamples.NegatedGroup` | parser/parser_test.go:279 | `-(5 + 5)` is Prefix(-, Infix(5, +, 5)). |
| `ParserExamples.IntegerStatement` | parser/parser_test.go:146-173 | `5;` is one expression statement holding IntegerLiteral 5. The node keeps the token `5`. |
| `ParserExamples.LetsInOrder` | parser/parser.go:79-85 | An input that ends with n consecutive `let name = atom;` statements keeps all n, in source order, after the statements kept before them. The loop stops on the EOF after the last `;` with no new diagnostic. |
| `ParserExamples.ReturnsInOrder` | parser/parser.go:79-85 | An input that ends with n consecutive `return atom;` statements keeps all n, in source order, after the statements kept before them. The loop stops on the EOF after the last `;` with no new diagnostic. |
| `ParserExamples.NumeralAtom` | parser/parser.go:210-223 | The decimal text of any number up to the 64-bit maximum is an integer token that parses to an IntegerLiteral of that number, keeping the token. |
| `ParserExamples.LetsOfAtoms` | parser/parser.go:75-122 | Any program made of `let name = atom;` statements parses to those let statements, one per `let`, in order, each binding its name to its atom. No errors are recorded. |
| `ParserExamples.ReturnsOfAtoms` | parser/parser.go:75-134 | Any program made of `return atom;` statements parses to those return statements, one per `return`, in order, each holding its atom. No errors are recorded. |
| `ParserExamples.ThreeNumeralLets` | parser/parser_test.go:10-44 | `let x = a; let y = b; let foobar = c;` for any 64-bit numbers a, b, c gives three let statements binding x, y and foobar to a, b and c. No errors are recorded. |
| `ParserExamples.ThreeNumeralReturns` | parser/parser_test.go:84-111 | `return a; return b; return c;` for any 64-bit numbers gives three return statements holding a, b and c, in order. No errors are recorded. |
| `ParserExamples.ThreeLets` | parser/parser_test.go:10-44 | The three `let`s give three let statements named x, y and foobar, with values 5, 10 and 838383. No errors are recorded. |
| `ParserExamples.ThreeReturns` | parser/parser_test.go:84-111 | `return 5; return 10; return 993322;` gives three return statements holding 5, 10 and 993322, in order. No errors are recorded. |
| `ParserExamples.NoPrefixStatementStep` | parser/parser.go:136-144 | A statement starting with a token that has no prefix routine is kept with an absent expression after one diagnostic. Parsing goes on with the next token. |
| `ParserExamples.LetWithoutName` | parser/parser.go:100-105 | `let = 5;` loses the `let` after `ExpectedNext(IDENT, ASSIGN)`. Then `=` gives `NoPrefixParseFn(ASSIGN)`, and `5` is still parsed. |
| `ParserExamples.LetWithoutAssign` | parser/parser.go:107-111 | `let x 5;` loses the `let` after `ExpectedNext(ASSIGN, INT)`. `5;` is then its own statement. |
| `CompoundExamples.BlockOfOneStatement` | parser/parser.go:323-338 | `{ e; }` is a block holding one expression statement, and the block ends on its `}`. |
| `CompoundExamples.IfElse` | parser/parser_test.go:332-379 | `if(x < y) { y; } else { x; }` is one if-expression. Its condition is Infix(x, <, y), its consequence is `y` and its alternative is `x`. No errors are recorded. |
| `CompoundExamples.FunctionLiteralExample` | parser/parser_test.go:381-420 | `fn(x,y) {x + y;}` has parameters [x, y] in order and a body of one statement, Infix(x, +, y). No errors are recorded. |
| `CompoundExamples.CallArguments` | parser/parser.go:389-411 | In `f(a, b)`, the arguments are [a, b] in order and the list ends on `)`. |
| `CompoundExamples.CallExample` | parser/parser.go:383-411 | `f(a, b)` is one expression statement holding a call of f with arguments [a, b]. No errors are recorded. |

## Left out

- The lexer is not part of this model. Its output is the input token sequence, and reading past the end yields EOF. The tests' source texts are restated over the tokens they lex to.
- The AST's `String()` and `TokenLiteral()` methods are not part of this model. Precedence results are stated on the tree structure, not on printed text. For the same reason, the print-then-reparse idempotence property is not modelled: it needs both the printer and the lexer.
- The exact text of the diagnostics (`fmt.Sprintf` and the rendering of token kinds) is not modelled. Each message is a `ParseError` constructor that carries the token kinds or the literal it would print.
- `strconv.ParseInt` is modelled only as far as base 10 and 64 bits go: an optional sign, decimal digits, and a range check. Its error values are not modelled.
- The evaluator and the runtime objects exercised by `evaluator/evaluator_test.go` are not part of this model.
- `registerPrefix` and `registerInfix` fill two Go maps of function values. They are replaced by the fixed tables `PrefixRoutineFor` and `InfixRoutineFor`, which hold exactly what `New` registers.
- Aliasing of AST nodes is not modelled. The nodes are immutable values, whereas the Go parser builds them as pointers and fills in their fields after construction.
