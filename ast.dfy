/** The syntax tree. src/ast.ts defines only `Identifier`, `LetStatement` and
    `Program`; the other node kinds are built from the fields that
    src/parser.ts writes and src/evaluator.ts reads. */
module Ast {

  import opened Wrappers
  import opened Tokens

  /** An identifier node holds only its name (src/ast.ts). */
  datatype Identifier = Identifier(value: string)
  {
    function TokenLiteral(): (s: string)
      ensures s == value
    {
      value
    }
  }

  datatype Expression =
    | Ident(name: Identifier)
    | IntegerLiteral(token: Token, intValue: int)
    | BooleanLiteral(token: Token, boolValue: bool)
    | StringLiteral(token: Token, text: string)
    | PrefixExpression(token: Token, operator: string, right: Expression)
    | InfixExpression(token: Token, left: Expression, operator: string, right: Expression)
    | IfExpression(token: Token, condition: Expression, consequence: BlockStatement,
                   alternative: Option<BlockStatement>)
    | FunctionLiteral(token: Token, parameters: seq<Identifier>, body: BlockStatement)
    | CallExpression(token: Token, callee: Expression, arguments: seq<Expression>)

  /** Let and return statements may lack their value: the parser never fills it in. */
  datatype Statement =
    | LetStatement(token: Token, name: Identifier, value: Option<Expression>)
    | ReturnStatement(token: Token, returnValue: Option<Expression>)
    | ExpressionStatement(token: Token, expression: Expression)
  {
    /** The literal of the token the statement starts with. */
    function TokenLiteral(): (s: string)
      ensures s == token.literal
    {
      token.literal
    }
  }

  datatype BlockStatement = BlockStatement(token: Token, statements: seq<Statement>)

  datatype Program = Program(statements: seq<Statement>)
  {
    /** The first statement's token literal, or the empty string. */
    function TokenLiteral(): (s: string)
      ensures statements == [] ==> s == ""
      ensures statements != [] ==> s == statements[0].TokenLiteral()
    {
      if |statements| > 0 then statements[0].TokenLiteral() else ""
    }
  }
}
