# Monkey interpreter core, modelled in Dafny

This project models the interpreter of the Monkey teaching language written in
TypeScript: its scanner and keyword table, the older single-character scanner,
the Pratt parser, the syntax tree, the runtime values, the scopes and the
tree-walking evaluator. It then proves the properties the interpreter's code
promises about them.

Each part is modelled in the form of its source:

- **Scanner.** `Scanner.Lexer` (src/lexer.ts) is a class with fields
  `position`, `readPosition` and `ch`, and while loops in its methods.
  `Scanner.Scan` is a pure function that states which token one `nextToken`
  call returns and where it leaves the machine. `Scanner.Lexer.NextToken` is
  proved equal to it.
- **Legacy scanner.** `LegacyScanner.Lexer` (src/lexer/index.ts) is a second,
  simpler state machine. Its `SyntaxError` throw becomes a `Result` value.
- **Keyword table.** `Tokens` holds the kinds, the keyword table and
  `lookupIdentifier` (src/token.ts).
- **Parser.** `Parsing.Parser` (src/parser.ts) is a class holding
  `curToken`, `peekToken`, an index into the token list its lexer yields, and
  the `errors` list.
  - Every parsing method is proved to return, and to leave the parser in,
    exactly what a pure `...Step` function says.
  - The precedence, associativity, error and abort properties are lemmas
    about those functions.
  - A JavaScript `throw` is the outcome `Thrown`.
  - A let/return skip loop that would never end, because no `;` follows, is
    the outcome `Spins`.
- **Values.** `Objects` holds the values of src/object.ts, with `type()` as
  `TypeName` and `inspect()` as `Inspect`.
- **Scopes.** `Environments` models src/environment.ts twice:
  - as an arena, a sequence of frames in which every frame's enclosing frame
    comes earlier;
  - as the mutable class `Environment`, whose chain of stores is proved to be
    such an arena. Its `Get` and `Set` are proved against `Lookup` and `Bind`.
- **Evaluator.** `Evaluator` models src/evaluator.ts.
  - It is a set of mutually recursive functions over an arena plus an
    allocation counter. The counter gives strings, closures and return
    signals the identity that `===` compares.
  - An arena is closed when every stored value's allocation numbers are
    below the counter and its captured scopes exist. Evaluation keeps this
    invariant, so a new allocation differs from every reachable value.
  - Evaluation carries fuel, one unit per nested expression, because guest
    programs may recurse for ever.
  - The loops of `evalProgram`, `evalBlockStatement` and `extendFunctionEnv`
    are methods proved equal to those functions.

src/ast.ts defines only `Identifier`, `LetStatement` and `Program`. The other
node kinds (`ExpressionStatement`, `ReturnStatement`, `IntegerLiteral`,
`PrefixExpression`, `InfixExpression`, `IfExpression`, `FunctionLiteral`,
`CallExpression`, `StringLiteral`, `BlockStatement` and the boolean node) are
built in `Ast` from the fields that src/parser.ts writes and src/evaluator.ts
reads.

`Identifier` holds only its name, and its token literal is that name. Its
one-parameter constructor (src/ast.ts:17-25) would, under JavaScript's
positional binding, receive the token that src/parser.ts:84 and :156-162 pass
first as its `value`. The model keeps the name instead, because that is what
the tests read as `value` (test/parser.test.ts:83, :242 and :267), and
src/parser.ts:1-13 imports `Identifier` from src/ast.ts, whose export list at
src/ast.ts:62 does not include it, so that pairing does not build as written.

Where src/ast.ts and its users disagree in other ways, the model follows the
users:

- a let statement's value is optional, because the parser never fills it in;
- the parser's `BooleanExpression` and the evaluator's `BooleanLiteral` are one
  node.

## Model

| member | source | states |
|---|---|---|
| Tokens.IsKeywords | src/token.ts:15-20 | holds exactly for the seven words `fn let if else return true false`, case-sensitively |
| Tokens.LookupIdentifier | src/token.ts:22-27 | IDENT exactly for non-keywords; otherwise the keyword's kind from the table; never any kind other than IDENT or a keyword kind |
| Tokens.KeywordsMapToTheirKinds | src/token.ts:5-13 | `fn let if else return true false` map to FUNCTION, LET, IF, ELSE, RETURN, TRUE, FALSE respectively |
| Tokens.KeywordKindDeterminesWord | src/token.ts:5-13 | the keyword table is injective: two words with the same keyword kind are the same word |
| Tokens.LookupIsExact | src/token.ts:22-27 | `Fn`, `LET`, `True` and the empty word are identifiers |
| Scanner.IsLetter | src/lexer.ts:187-190 | `[a-zA-Z_]`, false at the end of the input; a letter is never a digit or whitespace |
| Scanner.IsDigit | src/lexer.ts:192-195 | `[0-9]`, false at the end of the input; a digit is never whitespace and has a value 0 to 9 |
| Scanner.WhitespaceEnd | src/lexer.ts:62-66 | the first position at or after `p` holding no space, tab or newline, with only such characters before it |
| Scanner.IdentifierEnd | src/lexer.ts:197-203 | the end of the maximal run of `[a-zA-Z_]` from `p`, within the input |
| Scanner.NumberEnd | src/lexer.ts:205-212 | the end of the maximal run of `[0-9]` from `p`, within the input |
| Scanner.StringEnd | src/lexer.ts:178-185 | the first `"` at or after `p`, or the end of the input, with no `"` before it |
| Scanner.Scan | src/lexer.ts:68-176 | the machine never moves back, and every token but ILLEGAL ends past the skipped whitespace; the token chosen in each case is stated by the `Scan...` rows below |
| Scanner.ScanEofForever | src/lexer.ts:144-146 | `nextToken` gives EOF exactly when only whitespace remains; EOF has literal `''` and every later call gives EOF again |
| Scanner.ScanSkipsWhitespace | src/lexer.ts:62-66 | a space, tab or newline before a token does not change the token or the end position |
| Scanner.ScanIllegalIsStuck | src/lexer.ts:168-171 | an ILLEGAL token carries the one offending character and the machine stays on it, so the next call returns the same token |
| Scanner.CarriageReturnIsIllegal | src/lexer.ts:168-171 | `\r` is not skipped: it is an ILLEGAL token and the position does not move |
| Scanner.ScanOperatorsWithLookahead | src/lexer.ts:74-128 | `==`, `=>` and `!=` are two-character tokens chosen by one character of lookahead; otherwise `=` and `!` are single tokens |
| Scanner.ScanIdentifier | src/lexer.ts:154-160 | an identifier is the maximal letter run, its literal is that text, and its kind is the keyword lookup of the text |
| Scanner.ScanNumber | src/lexer.ts:161-167 | an INT token is the maximal digit run, with that text as its literal |
| Scanner.ScanString | src/lexer.ts:147-152 | a STRING literal is the text strictly between the opening `"` and the next `"` or the end; it has no escapes and the closing quote is consumed |
| Scanner.KeywordTokensCarryTheirWord | src/lexer.ts:154-160 | a keyword token's literal is its own keyword, so a LET token's literal is `let` |
| Scanner.ScanMakesProgress | src/lexer.ts:68-176 | every token other than ILLEGAL moves the machine forward |
| Scanner.Lexer.constructor | src/lexer.ts:44-50 | the machine starts at position 0 with the invariant established |
| Scanner.Lexer.ReadChar | src/lexer.ts:52-60 | moves to `readPosition`, keeps `readPosition == position + 1`, and sets `ch` to the character there or null past the end |
| Scanner.Lexer.SkipWhitespace | src/lexer.ts:62-66 | the loop stops at the first non-whitespace position and keeps the invariant |
| Scanner.Lexer.PeekChar | src/lexer.ts:214-220 | returns the character after the current one, or null, without moving |
| Scanner.Lexer.ReadString | src/lexer.ts:178-185 | stops on the next `"` or at the end and returns the text in between |
| Scanner.Lexer.ReadIdentifier | src/lexer.ts:197-203 | reads the maximal letter run and returns it |
| Scanner.Lexer.ReadNumber | src/lexer.ts:205-212 | reads the maximal digit run and returns it |
| Scanner.Lexer.NextToken | src/lexer.ts:68-176 | returns the token and leaves the machine at the position that `Scan` gives |
| LegacyScanner.Lexer.constructor | src/lexer/index.ts:45-52 | the machine starts at position 0 with `readPosition == position + 1` |
| LegacyScanner.Lexer.ReadChar | src/lexer/index.ts:54-62 | moves one character and keeps `readPosition == position + 1` |
| LegacyScanner.Lexer.NextToken | src/lexer/index.ts:64-104 | returns the token and the next position that `Scan` gives, or throws its SyntaxError without moving |
| LegacyScanner.Scan | src/lexer/index.ts:64-104 | every token moves exactly one position; a token other than EOF carries the one character it was read from; it throws only inside the input. The cases are stated by the next four rows |
| LegacyScanner.PunctuationAdvancesOne | src/lexer/index.ts:67-94 | each of `= + , ; ( ) { }` yields its kind with a one-character literal and moves exactly one character |
| LegacyScanner.EofForever | src/lexer/index.ts:95-96 | at the end of the input every call yields EOF with literal `''` |
| LegacyScanner.OtherCharactersThrow | src/lexer/index.ts:98-99 | every other character, whitespace and letters included, throws `Unexpected character: c` |
| LegacyScanner.DoubleEqualsIsTwoAssigns | src/lexer/index.ts:68-73 | there are no two-character tokens: `==` scans as two ASSIGN tokens |
| Ast.Identifier.TokenLiteral | src/ast.ts:20-22 | an identifier's token literal is its own name |
| Ast.Statement.TokenLiteral | src/ast.ts:40-42 | a statement's token literal is the literal of the token it starts with |
| Ast.Program.TokenLiteral | src/ast.ts:53-59 | `''` for an empty program, otherwise the first statement's token literal |
| Decimal.NatToDecimal | src/object.ts:28-30 | the decimal text of a natural number is non-empty, all digits, and has no leading zero |
| Decimal.DigitsValue | src/parser.ts:87-93 | the base-10 reading that `parseInt` does of a digit run: its last digit is the units digit, and leading zeros do not change the value |
| Decimal.DigitsValueOfNatToDecimal | src/parser.ts:87-93 | reading back the decimal text of `n` with base 10 gives `n` |
| Objects.TypeName | src/object.ts:4-12 | one fixed tag per value kind, and each tag names exactly one kind |
| Objects.SameTypeNameIffSameKind | src/object.ts:24-126 | two values have the same `type()` exactly when they are of the same kind |
| Objects.Inspect | src/object.ts:28-30 | every value the model renders has a non-empty rendering; the rendering of each kind (the `inspect()` methods of src/object.ts) is stated by the `Inspect...` rows below |
| Objects.InspectSeesThroughReturnValues | src/object.ts:66-68 | a value wrapped in any number of return signals renders as the value itself |
| Objects.InspectIntegerReadsBack | src/object.ts:28-30 | an integer renders as its decimal digits, after `-` when negative, and the digits read back as its magnitude |
| Objects.InspectIntegerInjective | src/object.ts:28-30 | distinct integers render differently |
| Objects.InspectErrorAndStringReadBack | src/object.ts:80-82 | an error renders as `ERROR: ` plus its message and a string as its text in double quotes; both read back |
| Objects.InspectConstants | src/object.ts:42-54 | TRUE, FALSE and NULL render as `true`, `false` and `null`, and a builtin as `builtin function` |
| Environments.Lookup | src/environment.ts:12-21 | a name is found only from an existing scope; what `get` finds after `set`, through enclosing scopes and under shadowing is stated by the rows below |
| Environments.Bind | src/environment.ts:23-26 | `set` rewrites the binding in one frame's store and leaves every other frame, and the chain shape, unchanged |
| Environments.NewFrame | src/environment.ts:7-10 | a new scope is an empty store with the given enclosing scope, added after all others |
| Environments.LookupAfterBind | src/environment.ts:12-26 | after `set(n, v)`, `get(n)` in that scope gives `v` |
| Environments.LookupAfterBindUndefined | src/environment.ts:12-21 | binding `undefined` makes `get` fall through to the enclosing scope |
| Environments.BindKeepsOtherNames | src/environment.ts:23-26 | `set(n, v)` changes no lookup of any other name, from any scope |
| Environments.BindKeepsEarlierFrames | src/environment.ts:23-26 | `set` in a scope changes no lookup that starts in an earlier, enclosing scope |
| Environments.Shadowing | src/environment.ts:12-18 | an inner binding hides the outer one from the inner scope, while lookups in the outer scope still see the outer value |
| Environments.LookupExtend | src/environment.ts:12-21 | creating new scopes changes no lookup from an existing scope |
| Environments.NewFrameDefers | src/environment.ts:7-21 | every lookup from a new, empty scope is its enclosing scope's answer, and `undefined` when there is none |
| Environments.Environment.constructor | src/environment.ts:7-10 | a new environment has an empty store and the given outer scope, and its chain is the arena extended by one empty frame |
| Environments.Environment.Get | src/environment.ts:12-21 | `get` equals the arena lookup from the environment's own frame |
| Environments.Environment.Set | src/environment.ts:23-26 | `set` rewrites this store only and returns the value; `get` then yields a defined value, and every other name reads as before |
| Parsing.PrecedenceLess | src/parser.ts:28-39 | `Precedence_cmp(a, b)` holds only for distinct levels, never with CALL on the left or LOWEST on the right; the order itself is stated by `PrecedenceLessIsStrictTotalOrder` |
| Parsing.PrecedenceOf | src/parser.ts:41-50 | an operator's precedence, LOWEST for tokens not in the table (src/parser.ts:198-204); never PREFIX or CALL. Which tokens are in the table is stated by `InfixHandlersMatchTable` |
| Parsing.PrecedenceLessIsStrictTotalOrder | src/parser.ts:28-39 | `Precedence_cmp` is a strict total order LOWEST < EQUALS < LESSGREATER < SUM < PRODUCT < PREFIX < CALL |
| Parsing.InfixHandlersMatchTable | src/parser.ts:41-50 | exactly the eight infix operators have a precedence above LOWEST, and all of them are below PREFIX |
| Parsing.Advance | src/parser.ts:127-130 | `nextToken` moves by one token; at the end the lexer keeps yielding EOF |
| Parsing.ExpectPeekStep | src/parser.ts:140-148 | advances exactly when the peek token has the expected kind; otherwise appends `expected next token to be X, got Y instead` and stays |
| Parsing.ExpressionStep | src/parser.ts:218-240 | `parseExpression` never moves the parser back and never drops an error; it cannot loop for ever |
| Parsing.ExpressionOk | src/parser.ts:218-240 | a parse that succeeds adds no error, ends on a real token, contains no `;`, and stops where the next token is `;` or binds no tighter than the given precedence |
| Parsing.PrefixStep | src/parser.ts:219-224 | the prefix handlers never move the parser back and cannot loop for ever |
| Parsing.PrefixOk | src/parser.ts:219-224 | without a prefix handler it records `no prefix parse function for T found` and throws; with one it succeeds or moves forward; a success adds no error, ends on a real token and consumes no `;` |
| Parsing.PrefixOperatorStep | src/parser.ts:186-196 | `parsePrefixExpression` never moves the parser back and cannot loop for ever |
| Parsing.PrefixOperatorOk | src/parser.ts:186-196 | builds a prefix node from the operator token whose operand is parsed at PREFIX level, throws exactly when that operand parse throws, and always moves past the operator |
| Parsing.GroupedStep | src/parser.ts:99-107 | `parseGroupedExpression` never moves the parser back and cannot loop for ever |
| Parsing.GroupedOk | src/parser.ts:99-107 | a successful grouped expression ends on `)` with no new error and no `;` consumed; the parser always moves past the `(` |
| Parsing.InfixLoopStep | src/parser.ts:226-237 | the operator loop never moves the parser back and cannot loop for ever |
| Parsing.InfixLoopOk | src/parser.ts:226-237 | a successful loop adds no error, consumes no `;`, and stops where the next token is `;` or binds no tighter; if it did not move, the result is the left operand |
| Parsing.InfixLoopTurnOk | src/parser.ts:226-237 | a successful loop that takes an operator ends past it, on a real token, with no new error |
| Parsing.InfixLoopRestOk | src/parser.ts:226-237 | the loop resumed after an operator ends further on, on a real token, with no new error and no `;` consumed |
| Parsing.InfixTurn | src/parser.ts:226-236 | one turn of the loop: step onto the operator, apply its infix handler, and continue from where it ended unless it threw |
| Parsing.LoopStops | src/parser.ts:226-229 | the loop ends at once when the next token is `;` or binds no tighter |
| Parsing.InfixStep | src/parser.ts:206-216 | `parseInfixExpression` never moves the parser back and cannot loop for ever |
| Parsing.InfixOk | src/parser.ts:206-216 | a success builds an infix node with the given left operand and the operator's literal, moves past the operator, adds no error, consumes no `;`, and ends where a token binding no tighter than the operator follows |
| Parsing.SemicolonFrom | src/parser.ts:168-170 | the first `;` at or after an index, or none if the list has none |
| Parsing.LetStep | src/parser.ts:150-173 | the three cases exactly. A missing name or `=` records the peek error and yields no statement. Otherwise the parser skips to the next `;` and yields a let with that name and no value, or spins when no `;` follows |
| Parsing.ReturnStep | src/parser.ts:175-184 | skips to the next `;` with no new error and yields a return with no value; it spins exactly when no `;` follows |
| Parsing.ExpressionStatementStep | src/parser.ts:242-251 | an expression at LOWEST level followed by at most one `;`; it throws exactly when the expression throws |
| Parsing.ExpressionStatementTakesOneSemicolon | src/parser.ts:242-251 | an expression statement consumes no `;` inside the expression and at most the one right after it |
| Parsing.StatementStep | src/parser.ts:253-262 | dispatch on LET and RETURN, otherwise an expression statement; the parser only moves forward |
| Parsing.KeywordWord | src/token.ts:5-13 | a LET or RETURN token carrying its keyword's word carries exactly `let` or `return` |
| Parsing.StatementTokenLiteral | src/parser.ts:150-184 | a statement parsed from a `let` token has token literal `let`, and one parsed from `return` has `return`, when the scanner gave the keyword tokens their words |
| Parsing.ProgramLoopStep | src/parser.ts:264-274 | a successful parse ends on EOF and keeps every earlier statement in order |
| Parsing.ParseSingleIdentifier | src/parser.ts:83-85 | an identifier followed by a token that binds no tighter is an expression on its own |
| Parsing.IdentifierStatement | src/parser.ts:242-251 | `x;` is one expression statement holding the identifier, ending on the `;` |
| Parsing.BinaryChainShape | src/parser.ts:206-237 | in `a op1 b op2 c`, `op2` takes `b` exactly when it binds tighter than `op1`; with equal precedence the operators associate to the left |
| Parsing.ChainNestsRight | src/parser.ts:206-237 | `a op1 b op2 c` with `op2` tighter parses as `a op1 (b op2 c)` |
| Parsing.ChainNestsLeft | src/parser.ts:206-237 | `a op1 b op2 c` with `op2` no tighter parses as `(a op1 b) op2 c` |
| Parsing.PrefixBindsTighterThanInfix | src/parser.ts:186-196 | `-a * b` parses as `((-a) * b)`, for every prefix and infix operator |
| Parsing.PrefixOperatorsNest | src/parser.ts:186-196 | `!-a` parses as `(!(-a))` |
| Parsing.GroupedUnclosed | src/parser.ts:99-107 | when the inner expression succeeds but no `)` follows, `parseGroupedExpression` records the peek error, then `expected )`, and throws |
| Parsing.UnclosedParenthesisAborts | src/parser.ts:99-107 | `(a t` with any `t` that is not `)` and has no infix handler (an integer included) records the peek error and `expected )`, then throws |
| Parsing.DoubledSemicolonAborts | src/parser.ts:219-223 | `x;;` throws, because the second `;` has no prefix handler |
| Parsing.LetStatementShape | src/parser.ts:150-173 | `let x = v;`, for any single value token (`5` included), parses to one let statement naming `x` with no value and no error |
| Parsing.FailedLetIsDropped | src/parser.ts:264-274 | `let x y;` records the missing-`=` error, drops the let, and resumes at the token after the name |
| Parsing.Parser.constructor | src/parser.ts:60-81 | the first token is current and the second is the peek token, with no errors |
| Parsing.Parser.NextToken | src/parser.ts:127-130 | the peek token becomes current and the lexer's next token the peek token |
| Parsing.Parser.PeekError | src/parser.ts:121-125 | appends `expected next token to be X, got Y instead` and changes no token |
| Parsing.Parser.ExpectPeek | src/parser.ts:140-148 | does what `ExpectPeekStep` says |
| Parsing.Parser.NoPrefixParseFnError | src/parser.ts:276-278 | appends `no prefix parse function for T found` |
| Parsing.Parser.ParseExpression | src/parser.ts:218-240 | the prefix handler, then the precedence loop; result and final state as `ExpressionStep` says |
| Parsing.Parser.ParseInfixOperators | src/parser.ts:226-239 | the precedence loop; result and final state as `InfixLoopStep` says |
| Parsing.Parser.ParseInfixTurn | src/parser.ts:234-236 | one turn of the loop, moving past the operator; result and final state as `InfixLoopStep` unfolded once says |
| Parsing.Parser.ParsePrefix | src/parser.ts:83-97 | the registered prefix handlers; result and final state as `PrefixStep` says |
| Parsing.Parser.ParsePrefixExpression | src/parser.ts:186-196 | result and final state as `PrefixOperatorStep` says |
| Parsing.Parser.ParseGroupedExpression | src/parser.ts:99-107 | result and final state as `GroupedStep` says |
| Parsing.Parser.ParseInfixExpression | src/parser.ts:206-216 | result and final state as `InfixStep` says |
| Parsing.Parser.SkipToSemicolon | src/parser.ts:168-170 | stops on the first `;` without recording an error, and reports whether one exists |
| Parsing.Parser.ParseLetStatement | src/parser.ts:150-173 | result and final state as `LetStep` says |
| Parsing.Parser.ParseReturnStatement | src/parser.ts:175-184 | result and final state as `ReturnStep` says |
| Parsing.Parser.ParseExpressionStatement | src/parser.ts:242-251 | result and final state as `ExpressionStatementStep` says |
| Parsing.Parser.ParseStatement | src/parser.ts:253-262 | result and final state as `StatementStep` says |
| Parsing.Parser.ParseProgram | src/parser.ts:264-274 | the statement loop; result and final state as `ProgramLoopStep` says |
| Parsing.Parse | src/parser.ts:264-274 | a new parser over a token list yields `ProgramStep`'s program and errors |
| Evaluator.NativeBool | src/evaluator.ts:197-203 | always one of the two shared booleans, holding the given truth value |
| Evaluator.IsTruthy | src/evaluator.ts:309-317 | every integer (0 included), string, function and error is truthy; a boolean is truthy exactly when it is true; NULL is not |
| Evaluator.EvalBang | src/evaluator.ts:219-230 | `!x` is the shared boolean for the negation of `x`'s truthiness |
| Evaluator.EvalMinus | src/evaluator.ts:232-237 | on an integer, its additive inverse; on anything else an error |
| Evaluator.EvalPrefixExpression | src/evaluator.ts:205-217 | `!` always gives a boolean, the negated truthiness; `-` fails exactly on a non-integer; any other operator is an error |
| Evaluator.EvalIntegerInfixExpression | src/evaluator.ts:279-306 | no result exactly for a `/` whose divisor is zero or does not divide; an exact quotient times the divisor is the dividend; `+ - *` give integers and `< > == !=` booleans |
| Evaluator.UnwrapReturnValue | src/evaluator.ts:121-126 | removes exactly one return-signal layer and leaves other values alone |
| Evaluator.EvalInfixExpression | src/evaluator.ts:239-264 | operators create no scope and only ever add allocations |
| Evaluator.EvalIdentifier | src/evaluator.ts:146-152 | the scope's binding if there is one, otherwise `identifier not found: name` |
| Evaluator.BindParameters | src/evaluator.ts:133-135 | binding parameters touches only the call's frame and keeps its enclosing scope |
| Evaluator.ExtendedFrames | src/evaluator.ts:128-137 | a call adds one frame after all others, enclosed by the captured scope |
| Evaluator.FirstError | src/evaluator.ts:95-97 | an error among the arguments; none exactly when no argument is an error |
| Evaluator.FirstErrorIsFirst | src/evaluator.ts:95-97 | the error found is the first one in argument order: no earlier argument is an error |
| Evaluator.Eval | src/evaluator.ts:36-110 | evaluation only ever adds frames and allocations, and every existing scope keeps its enclosing scope; only stores change |
| Evaluator.Exec | src/evaluator.ts:67-80 | the same for a statement: a let rewrites one store and no scope's enclosing scope |
| Evaluator.EvalBlock | src/evaluator.ts:169-182 | the same for a block |
| Evaluator.EvalProgramFrom | src/evaluator.ts:154-167 | the same for a program |
| Evaluator.ApplyFunction | src/evaluator.ts:112-119 | the same for a call, which adds its own scope after all others |
| Evaluator.LastIndex | src/evaluator.ts:133-135 | the last parameter position with a given name, or none when no parameter has it |
| Evaluator.EvalExpressions | src/evaluator.ts:139-144 | one value per argument expression |
| Evaluator.ExpressionsAppend | src/evaluator.ts:139-144 | evaluating two argument lists in turn is evaluating their concatenation; the second starts in the heap the first leaves |
| Evaluator.ExpressionsInOrder | src/evaluator.ts:139-144 | arguments are evaluated left to right: value `i` is argument `i` evaluated after, and in the heap left by, the arguments before it |
| Evaluator.EvalProgram | src/evaluator.ts:154-167 | the program loop returns what `EvalProgramFrom` says |
| Evaluator.EvalBlockStatement | src/evaluator.ts:169-182 | the block loop returns what `EvalBlock` says |
| Evaluator.ExtendFunctionEnv | src/evaluator.ts:128-137 | the parameter loop builds exactly the frames of `ExtendedFrames` |
| Evaluator.BangNegatesTruthiness | src/evaluator.ts:219-230 | `!x` is the negation of `x`'s truthiness and never errors; `!!x` is its truthiness; `!x` is TRUE exactly for NULL and FALSE |
| Evaluator.MinusNegatesIntegers | src/evaluator.ts:232-237 | `-` negates an integer, so `--n` is `n`; on anything else it gives `unknown operator: -T` |
| Evaluator.IntegerOperators | src/evaluator.ts:279-306 | on two integers: `+ - *` and exact `/` compute the value, `< > == !=` give the shared booleans, and other operators give `unknown operator: INTEGER op INTEGER` |
| Evaluator.EqualityOnPlainValues | src/evaluator.ts:247-252 | on integers, booleans and null, `==` and `!=` compare values and never fail |
| Evaluator.MixedTypes | src/evaluator.ts:247-257 | on different types, `==` is FALSE and `!=` is TRUE; every other operator gives `type mismatch: L op R` |
| Evaluator.StringOperators | src/evaluator.ts:266-277 | on two strings, `+` allocates the concatenation, `==`/`!=` compare identity (two separate strings are not equal), and other operators give `unknown operator: STRING op STRING` |
| Evaluator.OtherOperatorsUnknown | src/evaluator.ts:259-263 | on same-typed operands other than integers and strings, every operator but `==`/`!=` gives `unknown operator: T op T` |
| Evaluator.ProgramIsUnwrappedBlock | src/evaluator.ts:154-182 | a program runs as a block whose final return signal is unwrapped |
| Evaluator.BlockAppend | src/evaluator.ts:169-182 | running two statement lists in turn is running their concatenation; the second starts only if the first ended without an error or return signal |
| Evaluator.LetBinds | src/evaluator.ts:74-80 | an error value is returned and nothing is bound; otherwise the name is bound in the current frame and the statement yields NULL |
| Evaluator.ReturnSignals | src/evaluator.ts:67-73 | an error value is returned; otherwise the value is wrapped in a new return signal that unwraps to it |
| Evaluator.BoundParameter | src/evaluator.ts:133-135 | after the parameter loop, a parameter's name holds the argument at its last position, and other names are untouched |
| Evaluator.CallScope | src/evaluator.ts:128-137 | in a call, a parameter sees its argument; a missing argument, like any other name, is looked up in the captured scope |
| Evaluator.CallUnwrapsOnce | src/evaluator.ts:112-119 | a non-function gives `not a function: T`; a call runs the body in the extended scope and removes exactly one return-signal layer |
| Evaluator.OperandErrorsShortCircuit | src/evaluator.ts:43-58 | an error from a prefix operand, from the left operand (the right one is not evaluated), or from the right operand is the result |
| Evaluator.CallErrorsShortCircuit | src/evaluator.ts:89-97 | a callee error is the result; otherwise the first argument error, left to right, is the result |
| Evaluator.CallApplies | src/evaluator.ts:89-98 | only when neither the callee nor any argument is an error is the callee applied, to the argument values, in the heap they leave |
| Evaluator.IfChoosesByTruthiness | src/evaluator.ts:184-195 | a condition error is returned; a truthy condition runs the consequence, a falsy one the alternative, else NULL |
| Evaluator.EvalFuelMonotone | src/evaluator.ts:36-110 | a result that did not run out of fuel is the same with any larger fuel |
| Evaluator.ExpressionsFuelMonotone | src/evaluator.ts:139-144 | the same for argument lists |
| Evaluator.ExecFuelMonotone | src/evaluator.ts:67-80 | the same for statements |
| Evaluator.BlockFuelMonotone | src/evaluator.ts:169-182 | the same for blocks |
| Evaluator.ApplyFuelMonotone | src/evaluator.ts:112-119 | the same for calls |
| Evaluator.InitialHeapClosed | src/environment.ts:7-10 | the arena of a fresh global scope, with no allocation yet, is closed |
| Evaluator.ScopedInLarger | src/evaluator.ts:36-110 | a value that is scoped in an arena stays scoped when frames and allocations are added |
| Evaluator.ClosedAfterAlloc | src/evaluator.ts:81-88 | a `new` allocation, which only advances the counter, keeps the arena closed |
| Evaluator.LookupIsScoped | src/environment.ts:12-21 | what `get` finds in a closed arena has no dangling captured scope and only allocation numbers below the counter |
| Evaluator.FreshIsNew | src/evaluator.ts:81-88 | a newly allocated string, closure or return signal differs from every scoped value, and so (by `LookupIsScoped`) from every value a closed arena holds |
| Evaluator.InfixKeepsClosed | src/evaluator.ts:239-306 | an operator keeps the arena closed, and its value is scoped |
| Evaluator.BindKeepsClosed | src/environment.ts:23-26 | `set` with a scoped value (captured scope existing, allocation numbers below the counter) keeps the arena closed |
| Evaluator.ParametersKeepClosed | src/evaluator.ts:133-135 | the parameter loop keeps the arena closed |
| Evaluator.ExtendKeepsClosed | src/evaluator.ts:128-137 | a call's new scope is enclosed by an existing, earlier scope, and the arena stays closed |
| Evaluator.EvalKeepsClosed | src/evaluator.ts:36-110 | evaluation keeps the arena closed: every scope's enclosing scope is earlier, every captured scope exists, and every stored allocation number is below the counter. Its value is scoped the same way |
| Evaluator.IfKeepsClosed | src/evaluator.ts:184-195 | the same for an if-expression |
| Evaluator.CallKeepsClosed | src/evaluator.ts:89-98 | the same for a call expression |
| Evaluator.ExpressionsKeepClosed | src/evaluator.ts:139-144 | the same for argument lists, for every value |
| Evaluator.ExecKeepsClosed | src/evaluator.ts:67-80 | the same for statements; a let binds only a scoped value |
| Evaluator.BlockKeepsClosed | src/evaluator.ts:169-182 | the same for blocks |
| Evaluator.ApplyKeepsClosed | src/evaluator.ts:112-119 | applying a scoped closure to scoped arguments keeps the arena closed |
| Evaluator.ProgramKeepsClosed | src/evaluator.ts:154-167 | the same for a whole program |
| Evaluator.IdentityEquality | src/evaluator.ts:247-252 | when not both operands are integers, `==` is TRUE exactly for the same value and `!=` is its negation; two allocated values with different allocation numbers are never equal |
| Evaluator.NewStringsDiffer | src/evaluator.ts:81-82 | `"a" == "b"` is FALSE for any texts, equal ones included: each literal allocates a new string |
| Evaluator.NewStringIsNoBoundValue | src/evaluator.ts:247-249 | in a closed arena, `s == "a"` is FALSE whatever `s` is bound to, unless `s` is an error |
| Evaluator.SameBindingIsEqual | src/evaluator.ts:146-152 | `s == s` for a bound, non-error `s` is TRUE: both operands are the same object |
| Evaluator.BoundStringEqualsItself | src/evaluator.ts:74-82 | the program `let s = "a"; s == s` gives TRUE |

## Left out

- src/repl.ts: the read-print loop is terminal I/O only.
- src/token/index.ts: it declares a type and has no behaviour.
- Builtins: `Builtin` exists as a value kind with its tag and rendering, but nothing creates or applies one. `applyFunction` rejects anything that is not a function, and the code defines no builtins.
- The rendering of a function value: it prints the body through syntax-tree printing that src/ast.ts does not define. `Inspect` therefore requires a value with no function inside.
- Number precision: integers are unbounded, so doubles above 2^53 are not modelled. Rendering uses plain decimal digits, without exponent notation.
- Evaluator.EvalIntegerInfixExpression: `/` is JavaScript float division; the function gives no result for a divisor that is zero or does not divide exactly, where the source yields a fraction, `Infinity` or `NaN`.
- Evaluator.IntegerOperators: `/` is JavaScript float division. The model keeps it only when the divisor is non-zero and divides exactly; otherwise evaluation halts with `FractionalQuotient` where the source would yield a fraction, `Infinity` or `NaN`.
- Evaluator.Eval: guest programs may recurse for ever. Evaluation takes fuel, one unit per nested expression, and yields `Halted(OutOfFuel)` when it runs out. The fuel lemmas show that the bound never changes a result that completes.
- Parsing.LetStep: the source spins for ever when no `;` follows a let, and the same holds for `Parsing.ReturnStep`. The model reports such a loop as the outcome `Spins`, and `Parsing.Parser.SkipToSemicolon` returns at once instead of looping.
- The scanner's endless stream of ILLEGAL tokens on a stuck character cannot be given to the parser as a finite token list. The parser reads a finite list followed by EOF for ever. That the scanner stays on the character is stated by `Scanner.ScanIllegalIsStuck`.
- Parsing.Parser.ParseInfixOperators: the loop's `if (!infix) return leftExp` guard is not in the method, because every token that binds tighter than LOWEST has an infix handler (`Parsing.InfixHandlersMatchTable`). `Parsing.InfixLoopStep` keeps the guard.
- Parsing.Parser.constructor: the placeholder tokens that the two initial `nextToken` calls overwrite are not modelled. The constructor starts with the first two tokens.
- Parsing: INT literals are read with `parseInt`. The model relies on the scanner's guarantee that they are digit runs (`IntLiteralsAreDigits`).
- The parser has no handlers for strings, `if`, `fn` or calls, and never fills in let or return values. The evaluator is modelled on its own tree, not on the parser's output.
- The older scanner's `tokens` field is assigned and never read.
- Environments.Lookup: the source's store is a plain JavaScript object `{}`, so a name that is not bound in any scope still finds what the object inherits from `Object.prototype` (`toString`, `constructor`, `valueOf`, `hasOwnProperty`, `__proto__` and the like). The model's store holds only the names that were set. So `toString == toString;` is TRUE in the source and `identifier not found: toString` in the model.
- Environments.Environment.Get: the same inherited names are not modelled; `get("toString")` on an empty scope is `undefined` in the model.
- Environments.NewFrameDefers: a new scope defers to its enclosing scope only for names it does not inherit; the inherited names above are not modelled.
- Evaluator.EvalIdentifier: an unbound inherited name such as `valueOf` is the error `identifier not found` in the model, where the source returns the inherited native function.
- Evaluator.CallScope: a call's fresh store inherits the same names, which hide bindings of those names in the captured scope. In `let toString = 1; let f = fn(){toString}; f() == 1;` the source's call finds the inherited `toString` function instead of `1`, while the model finds `1` and gives TRUE.
- Scanner.Scan: the source indexes strings by UTF-16 code unit, and the model by Unicode scalar value (a Dafny `char`). A character outside the Basic Multilingual Plane, such as `😀`, is one ILLEGAL token in the model but a lone high surrogate `\uD83D` followed by the low surrogate in the source. Within the Basic Multilingual Plane the two agree.
- LegacyScanner.Scan: the same difference; the source's `Unexpected character` message for `😀` names the lone surrogate `\uD83D`, and the model's names the whole character.
- The evaluator threads scopes as an arena, while class `Environment` is the mutable object. The arena functions that both use are the link between them, and aliasing between `Environment` objects shared by several closures is represented by frame indices.
- Equality of values the source allocates with `new` is identity. The model gives strings, closures and return signals an allocation number, and errors are compared by message. Errors never reach an operator, because they end evaluation first.
- Evaluator.EvalProgram: the arena it is given is not required to be closed. On an arena that already holds a value with an allocation number at or above the counter, a new string can collide with it, so `s == "a"` can be TRUE. Identity is only promised for closed arenas. Every run from a fresh global scope is closed (`Evaluator.InitialHeapClosed`, `Evaluator.ProgramKeepsClosed`).
