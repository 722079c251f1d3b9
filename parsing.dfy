/** The Pratt parser of src/parser.ts. The lexer it pulls tokens from is
    represented by the list of tokens it yields; past the end of the list
    it yields EOF forever, as the scanner does. The pure functions below say
    what each parsing routine returns and where it leaves the parser (its
    position in the token list and its error list); class `Parser` is the
    stateful parser itself, proved against them. A JavaScript `throw` becomes
    the outcome `Thrown`, and a skip loop that would spin for ever the outcome
    `Spins`. */
module Parsing {

  import opened Wrappers
  import opened Tokens
  import opened Ast
  import Decimal

  /** The token at index `i`; EOF past the end. */
  function At(toks: seq<Token>, i: nat): Token
  {
    if i < |toks| then toks[i] else Token(Eof, "")
  }

  predicate IsDigits(s: string)
  {
    forall j :: 0 <= j < |s| ==> Decimal.IsDigitChar(s[j])
  }

  /** What the scanner guarantees of INT tokens: their text is a run of digits. */
  predicate IntLiteralsAreDigits(toks: seq<Token>)
  {
    forall i :: 0 <= i < |toks| && toks[i].kind == Int ==> IsDigits(toks[i].literal)
  }

  /** What the scanner guarantees of keyword tokens: their text is the
      keyword table's word for their kind. */
  predicate KeywordsCarryTheirWord(toks: seq<Token>)
  {
    forall i :: 0 <= i < |toks| && toks[i].kind in KeywordKinds ==>
      toks[i].literal in Keywords && Keywords[toks[i].literal] == toks[i].kind
  }

  // ---------------------------------------------------------------- precedence

  datatype Precedence = Lowest | Equals | LessGreater | Sum | Product | Prefix | Call

  function Rank(p: Precedence): nat
  {
    match p
    case Lowest => 0
    case Equals => 1
    case LessGreater => 2
    case Sum => 3
    case Product => 4
    case Prefix => 5
    case Call => 6
  }

  /** `Precedence_cmp(a, b)`: whether `a` binds less tightly than `b`. */
  predicate PrecedenceLess(a: Precedence, b: Precedence)
    ensures PrecedenceLess(a, b) ==> a != b && a != Call && b != Lowest
  {
    Rank(a) - Rank(b) < 0
  }

  /** `PRECEDENCES[t] || 'LOWEST'`. */
  function PrecedenceOf(t: TokenType): (r: Precedence)
    ensures r != Prefix && r != Call
  {
    match t
    case Eq | NotEq => Equals
    case Lt | Gt => LessGreater
    case Plus | Minus => Sum
    case Asterisk | Slash => Product
    case _ => Lowest
  }

  /** The token kinds registered with a prefix handler. */
  predicate HasPrefixHandler(t: TokenType)
  {
    t == TokenType.Ident || t == Int || t == Minus || t == Bang || t == True || t == False || t == LParen
  }

  /** The token kinds registered with an infix handler. */
  predicate HasInfixHandler(t: TokenType)
  {
    t == Plus || t == Minus || t == Asterisk || t == Slash || t == Eq || t == NotEq || t == Lt || t == Gt
  }

  /** `Precedence_cmp` is a strict total order running from LOWEST to CALL. */
  lemma PrecedenceLessIsStrictTotalOrder(a: Precedence, b: Precedence, c: Precedence)
    ensures !PrecedenceLess(a, a)
    ensures PrecedenceLess(a, b) && PrecedenceLess(b, c) ==> PrecedenceLess(a, c)
    ensures a != b ==> PrecedenceLess(a, b) != PrecedenceLess(b, a)
    ensures a != Lowest ==> PrecedenceLess(Lowest, a)
    ensures a != Call ==> PrecedenceLess(a, Call)
    ensures PrecedenceLess(Lowest, Equals) && PrecedenceLess(Equals, LessGreater) &&
            PrecedenceLess(LessGreater, Sum) && PrecedenceLess(Sum, Product) &&
            PrecedenceLess(Product, Prefix) && PrecedenceLess(Prefix, Call)
  {
  }

  /** Exactly the tokens with an infix handler bind more tightly than LOWEST,
      and none of them binds as tightly as a prefix operator; so the loop in
      `parseExpression` never meets a binding token without a handler. */
  lemma InfixHandlersMatchTable(t: TokenType)
    ensures HasInfixHandler(t) <==> PrecedenceOf(t) != Lowest
    ensures PrecedenceLess(PrecedenceOf(t), Prefix)
  {
  }

  // ---------------------------------------------------------------- parser state

  /** The parser's state: the index of `curToken` (`peekToken` is the next
      one) and the error list. */
  datatype Cursor = Cursor(pos: nat, errors: seq<string>)

  datatype Outcome<T> = Ok(value: T) | Thrown(message: string) | Spins

  datatype Step<T> = Step(outcome: Outcome<T>, cursor: Cursor)

  /** A failed outcome, retyped. */
  function Failed<T, U>(o: Outcome<T>): (r: Outcome<U>)
    requires !o.Ok?
    ensures !r.Ok? && (r.Spins? <==> o.Spins?)
    ensures r.Thrown? == o.Thrown? && (r.Thrown? ==> r.message == o.message)
  {
    if o.Thrown? then Thrown(o.message) else Spins
  }

  /** `nextToken`: move on by one token; at the end the lexer repeats EOF,
      so staying put changes nothing. */
  function Advance(toks: seq<Token>, c: Cursor): (r: Cursor)
    ensures r.errors == c.errors
    ensures At(toks, r.pos) == At(toks, c.pos + 1)
    ensures c.pos <= |toks| ==> r.pos <= |toks|
    ensures c.pos < |toks| ==> r.pos == c.pos + 1
  {
    if c.pos < |toks| then c.(pos := c.pos + 1) else c
  }

  function PeekErrorMessage(expected: TokenType, got: TokenType): string
  {
    "expected next token to be " + Name(expected) + ", got " + Name(got) + " instead"
  }

  function NoPrefixMessage(t: TokenType): string
  {
    "no prefix parse function for " + Name(t) + " found"
  }

  /** The parser moved forward within the list and only appended errors. */
  predicate Progress(toks: seq<Token>, c: Cursor, r: Cursor)
  {
    c.pos <= r.pos <= |toks| && c.errors <= r.errors
  }

  /** No token at an index in `[i, j)` is a semicolon. */
  predicate NoSemicolonIn(toks: seq<Token>, i: nat, j: nat)
  {
    forall k :: i <= k < j ==> At(toks, k).kind != Semicolon
  }

  /** An expression parsed at `prec` may end at `e`: the next token is `;` or
      binds no more tightly than `prec`. */
  predicate EndsAt(toks: seq<Token>, prec: Precedence, e: nat)
  {
    At(toks, e + 1).kind == Semicolon || !PrecedenceLess(prec, PrecedenceOf(At(toks, e + 1).kind))
  }

  /** `expectPeek(t)`: advance onto the peek token when it has kind `t`,
      otherwise record the peek error and stay. */
  function ExpectPeekStep(toks: seq<Token>, t: TokenType, c: Cursor): (r: (bool, Cursor))
    requires c.pos <= |toks|
    ensures r.0 <==> At(toks, c.pos + 1).kind == t
    ensures r.0 ==> r.1.errors == c.errors && At(toks, r.1.pos) == At(toks, c.pos + 1) &&
                    Progress(toks, c, r.1)
    ensures !r.0 ==> r.1 == Cursor(c.pos, c.errors + [PeekErrorMessage(t, At(toks, c.pos + 1).kind)])
  {
    if At(toks, c.pos + 1).kind == t then (true, Advance(toks, c))
    else (false, c.(errors := c.errors + [PeekErrorMessage(t, At(toks, c.pos + 1).kind)]))
  }

  // ---------------------------------------------------------------- expressions

  /** `parseExpression(prec)`: a prefix handler, then infix handlers while the
      next token binds more tightly than `prec`. A successful parse adds no
      error, ends on a real token, and stops where the next token is `;` or
      binds no more tightly than `prec`. */
  function ExpressionStep(toks: seq<Token>, prec: Precedence, c: Cursor): (r: Step<Expression>)
    requires c.pos <= |toks| && IntLiteralsAreDigits(toks)
    decreases |toks| - c.pos, 2
    ensures Progress(toks, c, r.cursor) && !r.outcome.Spins?
  {
    var p := PrefixStep(toks, c);
    if p.outcome.Ok? then InfixLoopStep(toks, prec, p.outcome.value, p.cursor) else p
  }

  /** The prefix handler registered for the current token, or the
      "no prefix parse function" error followed by a throw. */
  function PrefixStep(toks: seq<Token>, c: Cursor): (r: Step<Expression>)
    requires c.pos <= |toks| && IntLiteralsAreDigits(toks)
    decreases |toks| - c.pos, 1
    ensures Progress(toks, c, r.cursor) && !r.outcome.Spins?
  {
    var t := At(toks, c.pos);
    match t.kind
    case Ident => Step(Ok(Expression.Ident(Identifier(t.literal))), c)
    case Int => Step(Ok(IntegerLiteral(t, Decimal.DigitsValue(t.literal))), c)
    case True => Step(Ok(BooleanLiteral(t, true)), c)
    case False => Step(Ok(BooleanLiteral(t, false)), c)
    case Minus => PrefixOperatorStep(toks, c)
    case Bang => PrefixOperatorStep(toks, c)
    case LParen => GroupedStep(toks, c)
    case _ => Step(Thrown("no prefix parse function"), c.(errors := c.errors + [NoPrefixMessage(t.kind)]))
  }

  /** `parsePrefixExpression`: the operator applies to the expression parsed
      at PREFIX level after it. */
  function PrefixOperatorStep(toks: seq<Token>, c: Cursor): (r: Step<Expression>)
    requires c.pos <= |toks| && IntLiteralsAreDigits(toks)
    requires At(toks, c.pos).kind == Minus || At(toks, c.pos).kind == Bang
    decreases |toks| - c.pos, 0
    ensures Progress(toks, c, r.cursor) && !r.outcome.Spins?
  {
    var t := At(toks, c.pos);
    var r := ExpressionStep(toks, Prefix, Advance(toks, c));
    if r.outcome.Ok? then Step(Ok(PrefixExpression(t, t.literal, r.outcome.value)), r.cursor) else r
  }

  /** `parseGroupedExpression`: an expression at LOWEST level, which must be
      followed by `)`; otherwise the peek error and `expected )` are recorded
      and the parse throws. */
  function GroupedStep(toks: seq<Token>, c: Cursor): (r: Step<Expression>)
    requires c.pos <= |toks| && IntLiteralsAreDigits(toks)
    requires At(toks, c.pos).kind == LParen
    decreases |toks| - c.pos, 0
    ensures Progress(toks, c, r.cursor) && !r.outcome.Spins?
  {
    var r := ExpressionStep(toks, Lowest, Advance(toks, c));
    if !r.outcome.Ok? then r
    else
      var e := ExpectPeekStep(toks, RParen, r.cursor);
      if e.0 then Step(r.outcome, e.1)
      else Step(Thrown("expected )"), e.1.(errors := e.1.errors + ["expected )"]))
  }

  /** The loop of `parseExpression`: while the next token is not `;` and binds
      more tightly than `prec`, move onto it and apply its infix handler. */
  function InfixLoopStep(toks: seq<Token>, prec: Precedence, left: Expression, c: Cursor): (r: Step<Expression>)
    requires c.pos <= |toks| && IntLiteralsAreDigits(toks)
    decreases |toks| - c.pos, 1
    ensures Progress(toks, c, r.cursor) && !r.outcome.Spins?
  {
    var peek := At(toks, c.pos + 1);
    if peek.kind == Semicolon || !PrecedenceLess(prec, PrecedenceOf(peek.kind)) then Step(Ok(left), c)
    else if !HasInfixHandler(peek.kind) then Step(Ok(left), c)
    else
      var r := InfixStep(toks, left, Advance(toks, c));
      if r.outcome.Ok? then InfixLoopStep(toks, prec, r.outcome.value, r.cursor) else r
  }

  /** `parseInfixExpression(left)`: the current token is the operator; its
      right operand is parsed at the operator's own precedence, which makes
      operators of equal precedence associate to the left. */
  function InfixStep(toks: seq<Token>, left: Expression, c: Cursor): (r: Step<Expression>)
    requires c.pos <= |toks| && IntLiteralsAreDigits(toks)
    requires HasInfixHandler(At(toks, c.pos).kind)
    decreases |toks| - c.pos, 0
    ensures Progress(toks, c, r.cursor) && !r.outcome.Spins?
  {
    var t := At(toks, c.pos);
    var r := ExpressionStep(toks, PrecedenceOf(t.kind), Advance(toks, c));
    if r.outcome.Ok? then Step(Ok(InfixExpression(t, left, t.literal, r.outcome.value)), r.cursor) else r
  }

  // ---------------------------------------------------------------- statements

  /** The first `;` at or after index `p`, if the list has one. */
  function SemicolonFrom(toks: seq<Token>, p: nat): (r: Option<nat>)
    decreases |toks| - p
    ensures r.Some? ==> p <= r.value < |toks| && toks[r.value].kind == Semicolon &&
                        NoSemicolonIn(toks, p, r.value)
    ensures r.None? ==> forall k :: p <= k ==> At(toks, k).kind != Semicolon
  {
    if p >= |toks| then None
    else if toks[p].kind == Semicolon then Some(p)
    else SemicolonFrom(toks, p + 1)
  }

  /** `parseLetStatement`: `let`, an identifier, `=`, then every token up to
      the next `;`. The value is not parsed. A missing identifier or `=`
      records the peek error and yields no statement. */
  function LetStep(toks: seq<Token>, c: Cursor): (r: Step<Option<Statement>>)
    requires c.pos <= |toks| && At(toks, c.pos).kind == Let
    ensures Progress(toks, c, r.cursor) && !r.outcome.Thrown?
    ensures At(toks, c.pos + 1).kind != TokenType.Ident ==>
      r == Step(Ok(None), Cursor(c.pos, c.errors + [PeekErrorMessage(TokenType.Ident, At(toks, c.pos + 1).kind)]))
    ensures At(toks, c.pos + 1).kind == TokenType.Ident && At(toks, c.pos + 2).kind != Assign ==>
      r == Step(Ok(None), Cursor(c.pos + 1, c.errors + [PeekErrorMessage(Assign, At(toks, c.pos + 2).kind)]))
    ensures At(toks, c.pos + 1).kind == TokenType.Ident && At(toks, c.pos + 2).kind == Assign ==>
      r == match SemicolonFrom(toks, c.pos + 2)
           case None => Step(Spins, Cursor(c.pos + 2, c.errors))
           case Some(q) => Step(Ok(Some(LetStatement(At(toks, c.pos), Identifier(At(toks, c.pos + 1).literal), None))),
                                Cursor(q, c.errors))
  {
    var token := At(toks, c.pos);
    var e1 := ExpectPeekStep(toks, TokenType.Ident, c);
    if !e1.0 then Step(Ok(None), e1.1)
    else
      var name := Identifier(At(toks, e1.1.pos).literal);
      var e2 := ExpectPeekStep(toks, Assign, e1.1);
      if !e2.0 then Step(Ok(None), e2.1)
      else
        match SemicolonFrom(toks, e2.1.pos)
        case None => Step(Spins, e2.1)
        case Some(q) => Step(Ok(Some(LetStatement(token, name, None))), e2.1.(pos := q))
  }

  /** `parseReturnStatement`: `return`, then every token up to the next `;`
      (which may be the very next token). The value is not parsed. */
  function ReturnStep(toks: seq<Token>, c: Cursor): (r: Step<Option<Statement>>)
    requires c.pos <= |toks| && At(toks, c.pos).kind == Return
    ensures Progress(toks, c, r.cursor) && r.cursor.errors == c.errors && !r.outcome.Thrown?
    ensures r.outcome.Ok? <==> SemicolonFrom(toks, c.pos + 1).Some?
    ensures r.outcome.Ok? ==>
      r.outcome.value == Some(ReturnStatement(At(toks, c.pos), None)) &&
      At(toks, r.cursor.pos).kind == Semicolon && NoSemicolonIn(toks, c.pos + 1, r.cursor.pos)
  {
    var token := At(toks, c.pos);
    var c1 := Advance(toks, c);
    match SemicolonFrom(toks, c1.pos)
    case None => Step(Spins, c1)
    case Some(q) => Step(Ok(Some(ReturnStatement(token, None))), c1.(pos := q))
  }

  /** `parseExpressionStatement`: an expression at LOWEST level, then at most
      one `;`. */
  function ExpressionStatementStep(toks: seq<Token>, c: Cursor): (r: Step<Option<Statement>>)
    requires c.pos <= |toks| && IntLiteralsAreDigits(toks)
    ensures Progress(toks, c, r.cursor) && !r.outcome.Spins?
    ensures r.outcome.Thrown? <==> ExpressionStep(toks, Lowest, c).outcome.Thrown?
    ensures r.outcome.Ok? ==>
      var e := ExpressionStep(toks, Lowest, c);
      r.outcome.value == Some(ExpressionStatement(At(toks, c.pos), e.outcome.value)) &&
      r.cursor.errors == c.errors && r.cursor.pos < |toks|
  {
    ExpressionOk(toks, Lowest, c);
    var token := At(toks, c.pos);
    var e := ExpressionStep(toks, Lowest, c);
    if !e.outcome.Ok? then Step(Failed(e.outcome), e.cursor)
    else
      var c2 := if At(toks, e.cursor.pos + 1).kind == Semicolon then Advance(toks, e.cursor) else e.cursor;
      Step(Ok(Some(ExpressionStatement(token, e.outcome.value))), c2)
  }

  /** `parseStatement`: dispatch on the current token. */
  function StatementStep(toks: seq<Token>, c: Cursor): (r: Step<Option<Statement>>)
    requires c.pos <= |toks| && IntLiteralsAreDigits(toks)
    requires At(toks, c.pos).kind != Eof
    ensures Progress(toks, c, r.cursor)
    ensures r.outcome.Ok? ==> r.cursor.pos < |toks|
  {
    if At(toks, c.pos).kind == Let then LetStep(toks, c)
    else if At(toks, c.pos).kind == Return then ReturnStep(toks, c)
    else ExpressionStatementStep(toks, c)
  }

  /** A `let` or `return` token that carries its keyword's word carries
      exactly `let` or `return`. */
  lemma KeywordWord(t: Token)
    requires t.kind == Let || t.kind == Return
    requires t.literal in Keywords && Keywords[t.literal] == t.kind
    ensures t.literal == if t.kind == Let then "let" else "return"
  {
    KeywordsMapToTheirKinds();
    KeywordKindDeterminesWord(t.literal, if t.kind == Let then "let" else "return");
  }

  /** A statement parsed from a `let` token reports `let` as its token
      literal, and one parsed from a `return` token reports `return`. */
  lemma StatementTokenLiteral(toks: seq<Token>, c: Cursor)
    requires c.pos <= |toks| && IntLiteralsAreDigits(toks) && KeywordsCarryTheirWord(toks)
    requires At(toks, c.pos).kind == Let || At(toks, c.pos).kind == Return
    ensures var r := StatementStep(toks, c);
      r.outcome.Ok? && r.outcome.value.Some? ==>
        r.outcome.value.value.TokenLiteral() == if At(toks, c.pos).kind == Let then "let" else "return"
  {
    var t := toks[c.pos];
    assert t == At(toks, c.pos) && t.kind in KeywordKinds;
    KeywordWord(t);
  }

  /** The loop of `parseProgram`: parse a statement, keep it if there is one,
      move to the next token, until the current token is EOF. A throw or a
      spinning skip loop ends the whole parse. */
  function ProgramLoopStep(toks: seq<Token>, c: Cursor, acc: seq<Statement>): (r: Step<Program>)
    requires c.pos <= |toks| && IntLiteralsAreDigits(toks)
    decreases |toks| - c.pos
    ensures Progress(toks, c, r.cursor)
    ensures r.outcome.Ok? ==> acc <= r.outcome.value.statements && At(toks, r.cursor.pos).kind == Eof
  {
    if At(toks, c.pos).kind == Eof then Step(Ok(Program(acc)), c)
    else
      var s := StatementStep(toks, c);
      if !s.outcome.Ok? then Step(Failed(s.outcome), s.cursor)
      else
        var kept := if s.outcome.value.Some? then [s.outcome.value.value] else [];
        ProgramLoopStep(toks, Advance(toks, s.cursor), acc + kept)
  }

  /** `new Parser(l).parseProgram()`. */
  function ProgramStep(toks: seq<Token>): Step<Program>
    requires IntLiteralsAreDigits(toks)
  {
    ProgramLoopStep(toks, Cursor(0, []), [])
  }

  // ---------------------------------------------------------------- properties

  /** What a successful `parseExpression(prec)` guarantees: it records no
      error, ends on a real token, stops where the next token is `;` or binds
      no more tightly than `prec`, and no token it consumed is a `;`. */
  lemma {:induction false} ExpressionOk(toks: seq<Token>, prec: Precedence, c: Cursor)
    requires c.pos <= |toks| && IntLiteralsAreDigits(toks)
    ensures var r := ExpressionStep(toks, prec, c);
      r.outcome.Ok? ==>
        r.cursor.errors == c.errors && r.cursor.pos < |toks| && EndsAt(toks, prec, r.cursor.pos) &&
        NoSemicolonIn(toks, c.pos, r.cursor.pos + 1)
    decreases |toks| - c.pos, 3
  {
    PrefixOk(toks, c);
    var p := PrefixStep(toks, c);
    if p.outcome.Ok? {
      InfixLoopOk(toks, prec, p.outcome.value, p.cursor);
    }
  }

  /** A prefix handler that succeeds records no error and ends on a real
      token with no `;` consumed; a token without a handler records the
      "no prefix parse function" error and throws; a token with one either
      succeeds or moves on. */
  lemma {:induction false} PrefixOk(toks: seq<Token>, c: Cursor)
    requires c.pos <= |toks| && IntLiteralsAreDigits(toks)
    ensures var r := PrefixStep(toks, c);
      (r.outcome.Ok? ==>
        r.cursor.errors == c.errors && r.cursor.pos < |toks| && NoSemicolonIn(toks, c.pos, r.cursor.pos + 1)) &&
      (!HasPrefixHandler(At(toks, c.pos).kind) ==>
        r == Step(Thrown("no prefix parse function"), Cursor(c.pos, c.errors + [NoPrefixMessage(At(toks, c.pos).kind)]))) &&
      (HasPrefixHandler(At(toks, c.pos).kind) ==> r.outcome.Ok? || r.cursor.pos > c.pos)
    decreases |toks| - c.pos, 1
  {
    var k := At(toks, c.pos).kind;
    PrefixDispatch(toks, c);
    if k == Minus || k == Bang {
      PrefixOperatorOk(toks, c);
    } else if k == LParen {
      GroupedOk(toks, c);
    }
  }

  /** Which handler `parsePrefix` hands the current token to. */
  lemma PrefixDispatch(toks: seq<Token>, c: Cursor)
    requires c.pos <= |toks| && IntLiteralsAreDigits(toks)
    ensures var k := At(toks, c.pos).kind;
      ((k == Minus || k == Bang) ==> PrefixStep(toks, c) == PrefixOperatorStep(toks, c)) &&
      (k == LParen ==> PrefixStep(toks, c) == GroupedStep(toks, c)) &&
      ((k == TokenType.Ident || k == Int || k == True || k == False) ==>
        PrefixStep(toks, c).outcome.Ok? && PrefixStep(toks, c).cursor == c) &&
      (!HasPrefixHandler(k) ==>
        PrefixStep(toks, c) == Step(Thrown("no prefix parse function"), Cursor(c.pos, c.errors + [NoPrefixMessage(k)])))
  {
  }

  /** `-x` and `!x` succeed exactly when the operand parse does not throw,
      and then yield a prefix node carrying the operator token. */
  lemma {:induction false} PrefixOperatorOk(toks: seq<Token>, c: Cursor)
    requires c.pos <= |toks| && IntLiteralsAreDigits(toks)
    requires At(toks, c.pos).kind == Minus || At(toks, c.pos).kind == Bang
    ensures var r := PrefixOperatorStep(toks, c);
      (r.outcome.Ok? ==>
        r.cursor.errors == c.errors && r.cursor.pos < |toks| && NoSemicolonIn(toks, c.pos, r.cursor.pos + 1) &&
        r.outcome.value.PrefixExpression? && r.outcome.value.token == At(toks, c.pos) &&
        r.outcome.value.operator == At(toks, c.pos).literal) &&
      (r.outcome.Thrown? <==> ExpressionStep(toks, Prefix, Advance(toks, c)).outcome.Thrown?) &&
      c.pos < r.cursor.pos
    decreases |toks| - c.pos, 0
  {
    var t := At(toks, c.pos);
    var e := ExpressionStep(toks, Prefix, Advance(toks, c));
    ExpressionOk(toks, Prefix, Advance(toks, c));
    var r := if e.outcome.Ok? then Step(Ok(PrefixExpression(t, t.literal, e.outcome.value)), e.cursor) else e;
    assert PrefixOperatorStep(toks, c) == r;
    if r.outcome.Ok? {
      NoSemicolonBefore(toks, c.pos, r.cursor.pos + 1);
    }
  }

  /** A successful grouped expression ends on its `)`. */
  lemma {:induction false} GroupedOk(toks: seq<Token>, c: Cursor)
    requires c.pos <= |toks| && IntLiteralsAreDigits(toks)
    requires At(toks, c.pos).kind == LParen
    ensures var r := GroupedStep(toks, c);
      r.outcome.Ok? ==>
        r.cursor.errors == c.errors && r.cursor.pos < |toks| && At(toks, r.cursor.pos).kind == RParen &&
        NoSemicolonIn(toks, c.pos, r.cursor.pos + 1)
    ensures c.pos < GroupedStep(toks, c).cursor.pos
    decreases |toks| - c.pos, 0
  {
    ExpressionOk(toks, Lowest, Advance(toks, c));
  }

  /** The infix loop stops where the next token is `;` or binds no more
      tightly than `prec`; if it took no operator the expression is the one
      it was given. */
  lemma {:induction false} InfixLoopOk(toks: seq<Token>, prec: Precedence, left: Expression, c: Cursor)
    requires c.pos <= |toks| && IntLiteralsAreDigits(toks)
    ensures var r := InfixLoopStep(toks, prec, left, c);
      r.outcome.Ok? ==>
        r.cursor.errors == c.errors && EndsAt(toks, prec, r.cursor.pos) &&
        (r.cursor.pos == c.pos ==> r.outcome.value == left) &&
        (c.pos < |toks| ==> r.cursor.pos < |toks|) &&
        NoSemicolonIn(toks, c.pos + 1, r.cursor.pos + 1)
    decreases |toks| - c.pos, 2
  {
    if EndsAt(toks, prec, c.pos) {
      LoopStops(toks, prec, left, c);
    } else {
      InfixLoopTurnOk(toks, prec, left, c);
    }
  }

  /** A loop that takes at least one operator and succeeds moves past it. */
  lemma {:induction false} InfixLoopTurnOk(toks: seq<Token>, prec: Precedence, left: Expression, c: Cursor)
    requires c.pos <= |toks| && IntLiteralsAreDigits(toks) && !EndsAt(toks, prec, c.pos)
    ensures var r := InfixLoopStep(toks, prec, left, c);
      r.outcome.Ok? ==>
        r.cursor.errors == c.errors && EndsAt(toks, prec, r.cursor.pos) &&
        c.pos < r.cursor.pos < |toks| && NoSemicolonIn(toks, c.pos + 1, r.cursor.pos + 1)
    decreases |toks| - c.pos, 1
  {
    var k := At(toks, c.pos + 1).kind;
    assert PrecedenceLess(prec, PrecedenceOf(k)) && PrecedenceOf(k) != Lowest;
    InfixHandlersMatchTable(k);
    var a := Advance(toks, c);
    assert HasInfixHandler(At(toks, a.pos).kind);
    var r := InfixStep(toks, left, a);
    InfixTurn(toks, prec, left, c, r);
    if r.outcome.Ok? {
      InfixOk(toks, left, a);
      InfixLoopRestOk(toks, prec, r.outcome.value, c, r.cursor);
    }
  }

  /** The loop resumed after an operator taken from `c` and parsed up to `d`. */
  lemma {:induction false} InfixLoopRestOk(toks: seq<Token>, prec: Precedence, e: Expression, c: Cursor, d: Cursor)
    requires c.pos < d.pos < |toks| && IntLiteralsAreDigits(toks)
    requires d.errors == c.errors && NoSemicolonIn(toks, c.pos + 1, d.pos + 1)
    ensures var q := InfixLoopStep(toks, prec, e, d);
      q.outcome.Ok? ==>
        q.cursor.errors == c.errors && EndsAt(toks, prec, q.cursor.pos) &&
        c.pos < q.cursor.pos < |toks| && NoSemicolonIn(toks, c.pos + 1, q.cursor.pos + 1)
    decreases |toks| - c.pos, 0
  {
    InfixLoopOk(toks, prec, e, d);
    var q := InfixLoopStep(toks, prec, e, d);
    if q.outcome.Ok? {
      NoSemicolonJoin(toks, c.pos + 1, d.pos + 1, q.cursor.pos + 1);
    }
  }

  /** A token other than `;` followed by a run without one is a run without one. */
  lemma NoSemicolonBefore(toks: seq<Token>, i: nat, j: nat)
    requires At(toks, i).kind != Semicolon && NoSemicolonIn(toks, i + 1, j)
    ensures NoSemicolonIn(toks, i, j)
  {
  }

  /** Two adjacent runs without `;` make one. */
  lemma NoSemicolonJoin(toks: seq<Token>, i: nat, j: nat, k: nat)
    requires i <= j && NoSemicolonIn(toks, i, j) && NoSemicolonIn(toks, j, k)
    ensures NoSemicolonIn(toks, i, k)
  {
  }

  /** A successful infix handler consumes its operand, which ends where a
      token binding no more tightly than the operator follows, and yields an
      infix node whose left operand is the expression it was given. */
  lemma {:induction false} InfixOk(toks: seq<Token>, left: Expression, c: Cursor)
    requires c.pos <= |toks| && IntLiteralsAreDigits(toks)
    requires HasInfixHandler(At(toks, c.pos).kind)
    ensures var r := InfixStep(toks, left, c);
      r.outcome.Ok? ==>
        r.cursor.errors == c.errors && c.pos < r.cursor.pos < |toks| &&
        EndsAt(toks, PrecedenceOf(At(toks, c.pos).kind), r.cursor.pos) &&
        r.outcome.value.InfixExpression? && r.outcome.value.left == left &&
        r.outcome.value.operator == At(toks, c.pos).literal &&
        NoSemicolonIn(toks, c.pos, r.cursor.pos + 1)
    decreases |toks| - c.pos, 0
  {
    var t := At(toks, c.pos);
    assert c.pos < |toks|;
    var a := Advance(toks, c);
    ExpressionOk(toks, PrecedenceOf(t.kind), a);
    var e := ExpressionStep(toks, PrecedenceOf(t.kind), a);
    assert InfixStep(toks, left, c) ==
      if e.outcome.Ok? then Step(Ok(InfixExpression(t, left, t.literal, e.outcome.value)), e.cursor) else e;
    if e.outcome.Ok? {
      NoSemicolonBefore(toks, c.pos, e.cursor.pos + 1);
    }
  }

  /** An expression statement consumes at most one `;`: the tokens it
      consumed hold none, and it ends either on the expression's last token
      or on the single `;` right after it. */
  lemma ExpressionStatementTakesOneSemicolon(toks: seq<Token>, c: Cursor)
    requires c.pos <= |toks| && IntLiteralsAreDigits(toks)
    ensures var r := ExpressionStatementStep(toks, c); var e := ExpressionStep(toks, Lowest, c);
      r.outcome.Ok? ==>
        NoSemicolonIn(toks, c.pos, r.cursor.pos) &&
        (if At(toks, e.cursor.pos + 1).kind == Semicolon
         then r.cursor.pos == e.cursor.pos + 1 && At(toks, r.cursor.pos).kind == Semicolon
         else r.cursor.pos == e.cursor.pos)
  {
    ExpressionOk(toks, Lowest, c);
  }

  /** An identifier token as an expression. */
  function IdentOf(t: Token): Expression
  {
    Expression.Ident(Identifier(t.literal))
  }

  /** An identifier followed by a token that does not bind more tightly than
      `prec` is an expression on its own. */
  lemma ParseSingleIdentifier(toks: seq<Token>, prec: Precedence, c: Cursor)
    requires c.pos < |toks| && IntLiteralsAreDigits(toks) && toks[c.pos].kind == TokenType.Ident
    requires EndsAt(toks, prec, c.pos)
    ensures ExpressionStep(toks, prec, c) == Step(Ok(IdentOf(toks[c.pos])), c)
  {
  }

  /** The loop of `parseExpression` ends at once when the next token does
      not bind more tightly. */
  lemma LoopStops(toks: seq<Token>, prec: Precedence, left: Expression, c: Cursor)
    requires c.pos <= |toks| && IntLiteralsAreDigits(toks) && EndsAt(toks, prec, c.pos)
    ensures InfixLoopStep(toks, prec, left, c) == Step(Ok(left), c)
  {
  }

  /** One turn of the infix loop, given what the infix handler returned. */
  lemma InfixTurn(toks: seq<Token>, prec: Precedence, left: Expression, c: Cursor, s: Step<Expression>)
    requires c.pos <= |toks| && IntLiteralsAreDigits(toks) && !EndsAt(toks, prec, c.pos)
    requires HasInfixHandler(At(toks, c.pos + 1).kind)
    requires s == InfixStep(toks, left, Advance(toks, c))
    ensures c.pos < s.cursor.pos
    ensures InfixLoopStep(toks, prec, left, c) ==
      if s.outcome.Ok? then InfixLoopStep(toks, prec, s.outcome.value, s.cursor) else s
  {
    var peek := At(toks, c.pos + 1);
    assert c.pos + 1 < |toks|;
    assert peek.kind != Semicolon && PrecedenceLess(prec, PrecedenceOf(peek.kind));
    var a := Advance(toks, c);
    assert a.pos == c.pos + 1 && At(toks, a.pos) == peek;
    assert InfixLoopStep(toks, prec, left, c) ==
      if s.outcome.Ok? then InfixLoopStep(toks, prec, s.outcome.value, s.cursor) else s;
  }

  /** An infix operator whose right operand is a single identifier. */
  lemma InfixOnIdentifier(toks: seq<Token>, left: Expression, c: Cursor)
    requires c.pos + 1 < |toks| && IntLiteralsAreDigits(toks)
    requires HasInfixHandler(toks[c.pos].kind) && toks[c.pos + 1].kind == TokenType.Ident
    requires EndsAt(toks, PrecedenceOf(toks[c.pos].kind), c.pos + 1)
    ensures InfixStep(toks, left, c) ==
      Step(Ok(InfixExpression(toks[c.pos], left, toks[c.pos].literal, IdentOf(toks[c.pos + 1]))),
           Cursor(c.pos + 1, c.errors))
  {
    ParseSingleIdentifier(toks, PrecedenceOf(toks[c.pos].kind), Cursor(c.pos + 1, c.errors));
  }

  /** An expression that starts with an identifier continues with the loop. */
  lemma ExpressionFromIdentifier(toks: seq<Token>, prec: Precedence, c: Cursor)
    requires c.pos < |toks| && IntLiteralsAreDigits(toks) && toks[c.pos].kind == TokenType.Ident
    ensures ExpressionStep(toks, prec, c) == InfixLoopStep(toks, prec, IdentOf(toks[c.pos]), c)
  {
  }

  /** `a op1 b op2 c`: the second operator takes `b c` as its operands exactly
      when it binds more tightly than the first; with equal precedence the
      operators associate to the left. */
  lemma BinaryChainShape(a: Token, op1: Token, b: Token, op2: Token, d: Token)
    requires a.kind == TokenType.Ident && b.kind == TokenType.Ident && d.kind == TokenType.Ident
    requires HasInfixHandler(op1.kind) && HasInfixHandler(op2.kind)
    ensures ExpressionStep([a, op1, b, op2, d], Lowest, Cursor(0, [])) ==
      Step(Ok(if PrecedenceLess(PrecedenceOf(op1.kind), PrecedenceOf(op2.kind))
              then InfixExpression(op1, IdentOf(a), op1.literal, InfixExpression(op2, IdentOf(b), op2.literal, IdentOf(d)))
              else InfixExpression(op2, InfixExpression(op1, IdentOf(a), op1.literal, IdentOf(b)), op2.literal, IdentOf(d))),
           Cursor(4, []))
  {
    if PrecedenceLess(PrecedenceOf(op1.kind), PrecedenceOf(op2.kind)) {
      ChainNestsRight(a, op1, b, op2, d);
    } else {
      ChainNestsLeft(a, op1, b, op2, d);
    }
  }

  /** The tighter second operator of `a op1 b op2 c` becomes the right operand of the first. */
  lemma ChainNestsRight(a: Token, op1: Token, b: Token, op2: Token, d: Token)
    requires a.kind == TokenType.Ident && b.kind == TokenType.Ident && d.kind == TokenType.Ident
    requires HasInfixHandler(op1.kind) && HasInfixHandler(op2.kind)
    requires PrecedenceLess(PrecedenceOf(op1.kind), PrecedenceOf(op2.kind))
    ensures ExpressionStep([a, op1, b, op2, d], Lowest, Cursor(0, [])) ==
      Step(Ok(InfixExpression(op1, IdentOf(a), op1.literal, InfixExpression(op2, IdentOf(b), op2.literal, IdentOf(d)))),
           Cursor(4, []))
  {
    var toks := [a, op1, b, op2, d];
    var p1 := PrecedenceOf(op1.kind);
    InfixHandlersMatchTable(op1.kind);
    InfixHandlersMatchTable(op2.kind);
    assert IntLiteralsAreDigits(toks);
    assert At(toks, 1) == op1 && At(toks, 2) == b && At(toks, 3) == op2 && At(toks, 4) == d;
    assert At(toks, 5).kind == Eof;
    var A, B, D := IdentOf(a), IdentOf(b), IdentOf(d);
    var C0, C1, C2, C3, C4 := Cursor(0, []), Cursor(1, []), Cursor(2, []), Cursor(3, []), Cursor(4, []);
    ExpressionFromIdentifier(toks, Lowest, C0);
    InfixTurn(toks, Lowest, A, C0, InfixStep(toks, A, Advance(toks, C0)));
    var y := InfixExpression(op2, B, op2.literal, D);
    InfixOnIdentifier(toks, B, C3);
    LoopStops(toks, p1, y, C4);
    InfixTurn(toks, p1, B, C2, InfixStep(toks, B, Advance(toks, C2)));
    ExpressionFromIdentifier(toks, p1, C2);
    var x := InfixExpression(op1, A, op1.literal, y);
    assert InfixStep(toks, A, C1) == Step(Ok(x), C4);
    LoopStops(toks, Lowest, x, C4);
  }

  /** A second operator of `a op1 b op2 c` that binds no tighter takes `a op1 b` as its left operand. */
  lemma ChainNestsLeft(a: Token, op1: Token, b: Token, op2: Token, d: Token)
    requires a.kind == TokenType.Ident && b.kind == TokenType.Ident && d.kind == TokenType.Ident
    requires HasInfixHandler(op1.kind) && HasInfixHandler(op2.kind)
    requires !PrecedenceLess(PrecedenceOf(op1.kind), PrecedenceOf(op2.kind))
    ensures ExpressionStep([a, op1, b, op2, d], Lowest, Cursor(0, [])) ==
      Step(Ok(InfixExpression(op2, InfixExpression(op1, IdentOf(a), op1.literal, IdentOf(b)), op2.literal, IdentOf(d))),
           Cursor(4, []))
  {
    var toks := [a, op1, b, op2, d];
    InfixHandlersMatchTable(op1.kind);
    InfixHandlersMatchTable(op2.kind);
    assert IntLiteralsAreDigits(toks);
    assert At(toks, 1) == op1 && At(toks, 2) == b && At(toks, 3) == op2 && At(toks, 4) == d;
    assert At(toks, 5).kind == Eof;
    var A, B, D := IdentOf(a), IdentOf(b), IdentOf(d);
    var C0, C1, C2, C3, C4 := Cursor(0, []), Cursor(1, []), Cursor(2, []), Cursor(3, []), Cursor(4, []);
    ExpressionFromIdentifier(toks, Lowest, C0);
    InfixTurn(toks, Lowest, A, C0, InfixStep(toks, A, Advance(toks, C0)));
    var x1 := InfixExpression(op1, A, op1.literal, B);
    InfixOnIdentifier(toks, A, C1);
    var x2 := InfixExpression(op2, x1, op2.literal, D);
    InfixOnIdentifier(toks, x1, C3);
    InfixTurn(toks, Lowest, x1, C2, InfixStep(toks, x1, Advance(toks, C2)));
    LoopStops(toks, Lowest, x2, C4);
  }

  /** `-a * b` is `((-a) * b)`: a prefix operator takes only the operand
      right after it, whatever infix operator follows. */
  lemma PrefixBindsTighterThanInfix(pre: Token, a: Token, op: Token, b: Token)
    requires pre.kind == Minus || pre.kind == Bang
    requires a.kind == TokenType.Ident && b.kind == TokenType.Ident && HasInfixHandler(op.kind)
    ensures ExpressionStep([pre, a, op, b], Lowest, Cursor(0, [])) ==
      Step(Ok(InfixExpression(op, PrefixExpression(pre, pre.literal, IdentOf(a)), op.literal, IdentOf(b))),
           Cursor(3, []))
  {
    var toks := [pre, a, op, b];
    InfixHandlersMatchTable(op.kind);
    assert IntLiteralsAreDigits(toks);
    assert At(toks, 0) == pre && At(toks, 1) == a && At(toks, 2) == op && At(toks, 3) == b;
    assert At(toks, 4).kind == Eof;
    var px := PrefixExpression(pre, pre.literal, IdentOf(a));
    ExpressionFromIdentifier(toks, Prefix, Cursor(1, []));
    LoopStops(toks, Prefix, IdentOf(a), Cursor(1, []));
    assert PrefixStep(toks, Cursor(0, [])) == Step(Ok(px), Cursor(1, []));
    var x := InfixExpression(op, px, op.literal, IdentOf(b));
    InfixOnIdentifier(toks, px, Cursor(2, []));
    InfixTurn(toks, Lowest, px, Cursor(1, []), InfixStep(toks, px, Advance(toks, Cursor(1, []))));
    LoopStops(toks, Lowest, x, Cursor(3, []));
  }

  /** `!-a` is `(!(-a))`: prefix operators nest to the right. */
  lemma PrefixOperatorsNest(p1: Token, p2: Token, a: Token)
    requires (p1.kind == Minus || p1.kind == Bang) && (p2.kind == Minus || p2.kind == Bang)
    requires a.kind == TokenType.Ident
    ensures ExpressionStep([p1, p2, a], Lowest, Cursor(0, [])) ==
      Step(Ok(PrefixExpression(p1, p1.literal, PrefixExpression(p2, p2.literal, IdentOf(a)))), Cursor(2, []))
  {
    var toks := [p1, p2, a];
    ParseSingleIdentifier(toks, Prefix, Cursor(2, []));
    var inner := PrefixExpression(p2, p2.literal, IdentOf(a));
    assert PrefixStep(toks, Cursor(1, [])) == Step(Ok(inner), Cursor(2, []));
    assert InfixLoopStep(toks, Prefix, inner, Cursor(2, [])) == Step(Ok(inner), Cursor(2, []));
    assert ExpressionStep(toks, Prefix, Cursor(1, [])) == Step(Ok(inner), Cursor(2, []));
    var outer := PrefixExpression(p1, p1.literal, inner);
    assert PrefixStep(toks, Cursor(0, [])) == Step(Ok(outer), Cursor(2, []));
    assert InfixLoopStep(toks, Lowest, outer, Cursor(2, [])) == Step(Ok(outer), Cursor(2, []));
  }

  /** Appending two elements one at a time is appending the pair. */
  lemma AppendPair<T>(s: seq<T>, x: T, y: T)
    ensures s + [x] + [y] == s + [x, y]
  {
  }

  /** A grouped expression whose inner expression is not followed by `)`
      records the peek error and `expected )`, then throws. */
  lemma GroupedUnclosed(toks: seq<Token>, c: Cursor)
    requires c.pos <= |toks| && IntLiteralsAreDigits(toks) && At(toks, c.pos).kind == LParen
    requires var r := ExpressionStep(toks, Lowest, Advance(toks, c));
      r.outcome.Ok? && At(toks, r.cursor.pos + 1).kind != RParen
    ensures var r := ExpressionStep(toks, Lowest, Advance(toks, c));
      GroupedStep(toks, c) ==
        Step(Thrown("expected )"),
             Cursor(r.cursor.pos, r.cursor.errors + [PeekErrorMessage(RParen, At(toks, r.cursor.pos + 1).kind)] + ["expected )"]))
  {
  }

  /** A `(` whose expression is followed by anything other than `)` or a
      binding operator records the peek error and `expected )`, then throws. */
  lemma UnclosedParenthesisAborts(open: Token, a: Token, t: Token)
    requires open.kind == LParen && a.kind == TokenType.Ident
    requires t.kind != RParen && !HasInfixHandler(t.kind) && (t.kind == Int ==> IsDigits(t.literal))
    ensures ExpressionStep([open, a, t], Lowest, Cursor(0, [])) ==
      Step(Thrown("expected )"), Cursor(1, [PeekErrorMessage(RParen, t.kind), "expected )"]))
  {
    var toks := [open, a, t];
    InfixHandlersMatchTable(t.kind);
    assert toks[0] == open && toks[1] == a && toks[2] == t;
    assert IntLiteralsAreDigits(toks);
    assert PrecedenceOf(t.kind) == Lowest && At(toks, 2) == t;
    ParseSingleIdentifier(toks, Lowest, Cursor(1, []));
    assert Advance(toks, Cursor(0, [])) == Cursor(1, []);
    GroupedUnclosed(toks, Cursor(0, []));
    var m := PeekErrorMessage(RParen, t.kind);
    AppendPair([], m, "expected )");
    var r := Step(Thrown("expected )"), Cursor(1, [m, "expected )"]));
    assert GroupedStep(toks, Cursor(0, [])) == r;
    assert PrefixStep(toks, Cursor(0, [])) == r;
  }

  /** One turn of the `parseProgram` loop after a statement parsed without throwing. */
  lemma ProgramContinues(toks: seq<Token>, c: Cursor, acc: seq<Statement>, s: Step<Option<Statement>>)
    requires c.pos <= |toks| && IntLiteralsAreDigits(toks) && At(toks, c.pos).kind != Eof
    requires StatementStep(toks, c) == s && s.outcome.Ok?
    ensures ProgramLoopStep(toks, c, acc) ==
      ProgramLoopStep(toks, Advance(toks, s.cursor), acc + if s.outcome.value.Some? then [s.outcome.value.value] else [])
  {
  }

  /** An identifier followed by `;` is an expression statement that ends on the `;`. */
  lemma IdentifierStatement(toks: seq<Token>, c: Cursor)
    requires c.pos + 1 < |toks| && IntLiteralsAreDigits(toks)
    requires toks[c.pos].kind == TokenType.Ident && toks[c.pos + 1].kind == Semicolon
    ensures StatementStep(toks, c) ==
      Step(Ok(Some(ExpressionStatement(toks[c.pos], IdentOf(toks[c.pos])))), Cursor(c.pos + 1, c.errors))
  {
    ParseSingleIdentifier(toks, Lowest, c);
    assert StatementStep(toks, c) == ExpressionStatementStep(toks, c);
  }

  /** `x;;`: the first `;` ends the statement, and the second starts one
      that has no prefix handler, so the whole parse throws. */
  lemma DoubledSemicolonAborts(x: Token, s1: Token, s2: Token)
    requires x.kind == TokenType.Ident && s1.kind == Semicolon && s2.kind == Semicolon
    ensures ProgramStep([x, s1, s2]) ==
      Step(Thrown("no prefix parse function"), Cursor(2, [NoPrefixMessage(Semicolon)]))
  {
    var toks := [x, s1, s2];
    assert IntLiteralsAreDigits(toks);
    var st := ExpressionStatement(x, IdentOf(x));
    ParseSingleIdentifier(toks, Lowest, Cursor(0, []));
    assert ExpressionStatementStep(toks, Cursor(0, [])) == Step(Ok(Some(st)), Cursor(1, []));
    ProgramContinues(toks, Cursor(0, []), [], Step(Ok(Some(st)), Cursor(1, [])));
    var thrown := Step(Thrown("no prefix parse function"), Cursor(2, [NoPrefixMessage(Semicolon)]));
    assert PrefixStep(toks, Cursor(2, [])) == thrown;
    assert ExpressionStatementStep(toks, Cursor(2, [])) ==
      Step(Thrown("no prefix parse function"), Cursor(2, [NoPrefixMessage(Semicolon)]));
  }

  /** `let x = v;`, for any single token `v` other than `;` (an integer
      literal spelled in digits included), parses to a let statement naming
      `x`, with no value, and the parser is left at EOF with no error. */
  lemma LetStatementShape(l: Token, x: Token, eq: Token, v: Token, semi: Token)
    requires l.kind == Let && x.kind == TokenType.Ident && eq.kind == Assign
    requires v.kind != Semicolon && (v.kind == Int ==> IsDigits(v.literal)) && semi.kind == Semicolon
    ensures ProgramStep([l, x, eq, v, semi]) ==
      Step(Ok(Program([LetStatement(l, Identifier(x.literal), None)])), Cursor(5, []))
  {
    var toks := [l, x, eq, v, semi];
    assert IntLiteralsAreDigits(toks);
    assert SemicolonFrom(toks, 4) == Some(4);
    assert SemicolonFrom(toks, 3) == Some(4);
    assert SemicolonFrom(toks, 2) == Some(4);
    var st := LetStatement(l, Identifier(x.literal), None);
    assert LetStep(toks, Cursor(0, [])) == Step(Ok(Some(st)), Cursor(4, []));
    assert StatementStep(toks, Cursor(0, [])) == Step(Ok(Some(st)), Cursor(4, []));
    ProgramContinues(toks, Cursor(0, []), [], Step(Ok(Some(st)), Cursor(4, [])));
    assert [] + [st] == [st];
    assert ProgramLoopStep(toks, Cursor(5, []), [st]) == Step(Ok(Program([st])), Cursor(5, []));
  }

  /** `let x y;`: the missing `=` is recorded and the let yields no
      statement; parsing resumes at the token after the name. */
  lemma FailedLetIsDropped(l: Token, x: Token, y: Token, semi: Token)
    requires l.kind == Let && x.kind == TokenType.Ident && y.kind == TokenType.Ident && semi.kind == Semicolon
    ensures ProgramStep([l, x, y, semi]) ==
      Step(Ok(Program([ExpressionStatement(y, IdentOf(y))])),
           Cursor(4, [PeekErrorMessage(Assign, TokenType.Ident)]))
  {
    var toks := [l, x, y, semi];
    assert IntLiteralsAreDigits(toks);
    var errs := [PeekErrorMessage(Assign, TokenType.Ident)];
    assert LetStep(toks, Cursor(0, [])) == Step(Ok(None), Cursor(1, errs));
    assert StatementStep(toks, Cursor(0, [])) == Step(Ok(None), Cursor(1, errs));
    ProgramContinues(toks, Cursor(0, []), [], Step(Ok(None), Cursor(1, errs)));
    var none: seq<Statement> := [];
    assert none + none == none;
    var st := ExpressionStatement(y, IdentOf(y));
    IdentifierStatement(toks, Cursor(2, errs));
    ProgramContinues(toks, Cursor(2, errs), [], Step(Ok(Some(st)), Cursor(3, errs)));
    assert [] + [st] == [st];
    assert ProgramLoopStep(toks, Cursor(4, errs), [st]) == Step(Ok(Program([st])), Cursor(4, errs));
  }

  // ---------------------------------------------------------------- the parser object

  /** class `Parser`. `tokens` stands for the lexer it pulls from, and `pos`
      for how far that lexer has got. Every method is proved to leave the
      parser where the matching function above says, with the same result. */
  class Parser {
    const tokens: seq<Token>
    var pos: nat
    var curToken: Token
    var peekToken: Token
    var errors: seq<string>

    ghost predicate Valid()
      reads this`pos, this`curToken, this`peekToken
    {
      pos <= |tokens| && IntLiteralsAreDigits(tokens) &&
      curToken == At(tokens, pos) && peekToken == At(tokens, pos + 1)
    }

    function State(): Cursor
      reads this
    {
      Cursor(pos, errors)
    }

    /** The constructor's two `nextToken` calls leave the first token current
        and the second one in `peekToken`. */
    constructor (tokens: seq<Token>)
      requires IntLiteralsAreDigits(tokens)
      ensures Valid() && this.tokens == tokens && State() == Cursor(0, [])
    {
      this.tokens := tokens;
      pos := 0;
      curToken := At(tokens, 0);
      peekToken := At(tokens, 1);
      errors := [];
    }

    method NextToken()
      requires Valid()
      modifies this
      ensures Valid() && State() == Advance(tokens, old(State())) && curToken == old(peekToken)
    {
      curToken := peekToken;
      if pos < |tokens| {
        pos := pos + 1;
      }
      peekToken := At(tokens, pos + 1);
    }

    method PeekError(t: TokenType)
      requires Valid()
      modifies this
      ensures Valid() && pos == old(pos) && errors == old(errors) + [PeekErrorMessage(t, peekToken.kind)]
    {
      errors := errors + [PeekErrorMessage(t, peekToken.kind)];
    }

    method ExpectPeek(t: TokenType) returns (ok: bool)
      requires Valid()
      modifies this
      ensures Valid() && (ok, State()) == ExpectPeekStep(tokens, t, old(State()))
    {
      if peekToken.kind == t {
        NextToken();
        ok := true;
      } else {
        PeekError(t);
        ok := false;
      }
    }

    method NoPrefixParseFnError(t: TokenType)
      requires Valid()
      modifies this
      ensures Valid() && pos == old(pos) && errors == old(errors) + [NoPrefixMessage(t)]
    {
      errors := errors + [NoPrefixMessage(t)];
    }

    method ParseExpression(prec: Precedence) returns (r: Outcome<Expression>)
      requires Valid()
      modifies this
      decreases |tokens| - pos, 3
      ensures Valid() && Step(r, State()) == ExpressionStep(tokens, prec, old(State()))
    {
      ghost var start := State();
      r := ParsePrefix();
      ghost var p := PrefixStep(tokens, start);
      if r.Ok? {
        r := ParseInfixOperators(prec, r.value);
        assert Step(r, State()) == InfixLoopStep(tokens, prec, p.outcome.value, p.cursor);
      }
    }

    /** The loop of `parseExpression`: while the next token is not `;` and
        binds more tightly than `prec`, hand the expression so far to the
        next token's infix handler. */
    method ParseInfixOperators(prec: Precedence, left: Expression) returns (r: Outcome<Expression>)
      requires Valid()
      modifies this
      decreases |tokens| - pos, 2
      ensures Valid() && Step(r, State()) == InfixLoopStep(tokens, prec, left, old(State()))
    {
      ghost var goal := InfixLoopStep(tokens, prec, left, State());
      ghost var start := pos;
      var leftExp := left;
      while peekToken.kind != Semicolon && PrecedenceLess(prec, PrecedenceOf(peekToken.kind))
        invariant Valid() && start <= pos
        invariant InfixLoopStep(tokens, prec, leftExp, Cursor(pos, errors)) == goal
        decreases |tokens| - pos
      {
        var infix := ParseInfixTurn(prec, leftExp);
        if !infix.Ok? {
          return infix;
        }
        leftExp := infix.value;
      }
      LoopStops(tokens, prec, leftExp, Cursor(pos, errors));
      return Ok(leftExp);
    }

    /** One turn of the loop in `parseExpression`: step onto the operator and
        hand the left operand to its infix handler. */
    method ParseInfixTurn(prec: Precedence, left: Expression) returns (r: Outcome<Expression>)
      requires Valid() && peekToken.kind != Semicolon && PrecedenceLess(prec, PrecedenceOf(peekToken.kind))
      modifies this
      decreases |tokens| - pos, 1
      ensures Valid() && old(pos) < pos
      ensures InfixLoopStep(tokens, prec, left, old(State())) ==
        if r.Ok? then InfixLoopStep(tokens, prec, r.value, State()) else Step(r, State())
    {
      ghost var c := State();
      InfixHandlersMatchTable(peekToken.kind);
      assert HasInfixHandler(peekToken.kind);
      assert !EndsAt(tokens, prec, c.pos);
      NextToken();
      ghost var a := State();
      assert a == Advance(tokens, c) && HasInfixHandler(curToken.kind);
      r := ParseInfixExpression(left);
      ghost var s := Step(r, State());
      assert s == InfixStep(tokens, left, a);
      InfixTurn(tokens, prec, left, c, s);
    }

    /** The registered prefix handler for the current token; the identifier,
        integer and boolean handlers build their node from `curToken` alone. */
    method ParsePrefix() returns (r: Outcome<Expression>)
      requires Valid()
      modifies this
      decreases |tokens| - pos, 1
      ensures Valid() && Step(r, State()) == PrefixStep(tokens, old(State()))
    {
      var t := curToken;
      match t.kind {
        case Ident =>
          r := Ok(Expression.Ident(Identifier(t.literal)));
        case Int =>
          r := Ok(IntegerLiteral(t, Decimal.DigitsValue(t.literal)));
        case True =>
          r := Ok(BooleanLiteral(t, true));
        case False =>
          r := Ok(BooleanLiteral(t, false));
        case Minus =>
          r := ParsePrefixExpression();
        case Bang =>
          r := ParsePrefixExpression();
        case LParen =>
          r := ParseGroupedExpression();
        case _ =>
          NoPrefixParseFnError(t.kind);
          r := Thrown("no prefix parse function");
      }
    }

    method ParsePrefixExpression() returns (r: Outcome<Expression>)
      requires Valid() && (curToken.kind == Minus || curToken.kind == Bang)
      modifies this
      decreases |tokens| - pos, 0
      ensures Valid() && Step(r, State()) == PrefixOperatorStep(tokens, old(State()))
    {
      var token := curToken;
      NextToken();
      var right := ParseExpression(Prefix);
      if right.Ok? {
        r := Ok(PrefixExpression(token, token.literal, right.value));
      } else {
        r := right;
      }
    }

    method ParseGroupedExpression() returns (r: Outcome<Expression>)
      requires Valid() && curToken.kind == LParen
      modifies this
      decreases |tokens| - pos, 0
      ensures Valid() && Step(r, State()) == GroupedStep(tokens, old(State()))
    {
      NextToken();
      ghost var inner := State();
      r := ParseExpression(Lowest);
      ghost var e := ExpressionStep(tokens, Lowest, inner);
      if r.Ok? {
        ghost var after := State();
        var ok := ExpectPeek(RParen);
        ghost var p := ExpectPeekStep(tokens, RParen, after);
        if !ok {
          errors := errors + ["expected )"];
          r := Thrown("expected )");
          assert GroupedStep(tokens, old(State())) == Step(Thrown("expected )"), p.1.(errors := p.1.errors + ["expected )"]));
        } else {
          assert GroupedStep(tokens, old(State())) == Step(e.outcome, p.1);
        }
      }
    }

    method ParseInfixExpression(left: Expression) returns (r: Outcome<Expression>)
      requires Valid() && HasInfixHandler(curToken.kind)
      modifies this
      decreases |tokens| - pos, 0
      ensures Valid() && Step(r, State()) == InfixStep(tokens, left, old(State()))
    {
      var token := curToken;
      var precedence := PrecedenceOf(curToken.kind);
      NextToken();
      var right := ParseExpression(precedence);
      if right.Ok? {
        r := Ok(InfixExpression(token, left, token.literal, right.value));
      } else {
        r := right;
      }
    }

    /** Moves to the next `;`. Where the source would spin for ever because
        no `;` follows, the method reports `false` without moving. */
    method SkipToSemicolon() returns (found: bool)
      requires Valid()
      modifies this
      ensures Valid() && errors == old(errors)
      ensures found <==> SemicolonFrom(tokens, old(pos)).Some?
      ensures found ==> Some(pos) == SemicolonFrom(tokens, old(pos))
      ensures !found ==> pos == old(pos)
    {
      var target := SemicolonFrom(tokens, pos);
      if target.None? {
        return false;
      }
      while curToken.kind != Semicolon
        invariant Valid() && errors == old(errors) && pos <= target.value
        invariant SemicolonFrom(tokens, pos) == target
        decreases |tokens| - pos
      {
        NextToken();
      }
      return true;
    }

    method ParseLetStatement() returns (r: Outcome<Option<Statement>>)
      requires Valid() && curToken.kind == Let
      modifies this
      ensures Valid() && Step(r, State()) == LetStep(tokens, old(State()))
    {
      var token := curToken;
      var ok := ExpectPeek(TokenType.Ident);
      if !ok {
        return Ok(None);
      }
      var name := Identifier(curToken.literal);
      ok := ExpectPeek(Assign);
      if !ok {
        return Ok(None);
      }
      var found := SkipToSemicolon();
      if !found {
        return Spins;
      }
      return Ok(Some(LetStatement(token, name, None)));
    }

    method ParseReturnStatement() returns (r: Outcome<Option<Statement>>)
      requires Valid() && curToken.kind == Return
      modifies this
      ensures Valid() && Step(r, State()) == ReturnStep(tokens, old(State()))
    {
      var token := curToken;
      NextToken();
      var found := SkipToSemicolon();
      if !found {
        return Spins;
      }
      return Ok(Some(ReturnStatement(token, None)));
    }

    method ParseExpressionStatement() returns (r: Outcome<Option<Statement>>)
      requires Valid()
      modifies this
      ensures Valid() && Step(r, State()) == ExpressionStatementStep(tokens, old(State()))
    {
      var token := curToken;
      var exp := ParseExpression(Lowest);
      if !exp.Ok? {
        return Failed(exp);
      }
      if peekToken.kind == Semicolon {
        NextToken();
      }
      return Ok(Some(ExpressionStatement(token, exp.value)));
    }

    method ParseStatement() returns (r: Outcome<Option<Statement>>)
      requires Valid() && curToken.kind != Eof
      modifies this
      ensures Valid() && Step(r, State()) == StatementStep(tokens, old(State()))
    {
      if curToken.kind == Let {
        r := ParseLetStatement();
      } else if curToken.kind == Return {
        r := ParseReturnStatement();
      } else {
        r := ParseExpressionStatement();
      }
    }

    method ParseProgram() returns (r: Outcome<Program>)
      requires Valid()
      modifies this
      ensures Valid() && Step(r, State()) == ProgramLoopStep(tokens, old(State()), [])
    {
      var statements: seq<Statement> := [];
      while curToken.kind != Eof
        invariant Valid()
        invariant ProgramLoopStep(tokens, State(), statements) == ProgramLoopStep(tokens, old(State()), [])
        decreases |tokens| - pos
      {
        ghost var before, prior := State(), statements;
        var stmt := ParseStatement();
        if !stmt.Ok? {
          assert ProgramLoopStep(tokens, before, statements) == Step(Failed(stmt), State());
          return Failed(stmt);
        }
        ghost var kept := if stmt.value.Some? then [stmt.value.value] else [];
        ProgramContinues(tokens, before, statements, Step(stmt, State()));
        ghost var next := ProgramLoopStep(tokens, Advance(tokens, State()), statements + kept);
        assert next == ProgramLoopStep(tokens, old(State()), []);
        if stmt.value.Some? {
          statements := statements + [stmt.value.value];
        }
        assert statements == prior + kept;
        NextToken();
      }
      return Ok(Program(statements));
    }
  }

  /** Parsing a whole token list with a fresh parser. */
  method Parse(tokens: seq<Token>) returns (r: Outcome<Program>, errors: seq<string>)
    requires IntLiteralsAreDigits(tokens)
    ensures r == ProgramStep(tokens).outcome && errors == ProgramStep(tokens).cursor.errors
  {
    var p := new Parser(tokens);
    r := p.ParseProgram();
    errors := p.errors;
  }
}
