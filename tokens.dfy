/** Token kinds and tokens (the `TokenType` and `Token` types of src/lexer.ts)
    and the keyword table with its lookup (src/token.ts). */
module Tokens {

  /** The closed set of token kinds. */
  datatype TokenType =
    | Illegal | Eof | Ident
    | Assign | Arrow | Eq | NotEq
    | Plus | Minus | Asterisk | Slash | Bang
    | Comma | Lt | Gt | Semicolon
    | LParen | RParen | LBrace | RBrace
    | Function | Let | Int | If | Else | Return | True | False
    | String

  /** A token is a kind and the text it was read from. */
  datatype Token = Token(kind: TokenType, literal: string)

  /** The text the source uses for each kind; it appears in parse diagnostics. */
  function Name(t: TokenType): string
  {
    match t
    case Illegal => "ILLEGAL"
    case Eof => "EOF"
    case Ident => "IDENT"
    case Assign => "="
    case Arrow => "=>"
    case Eq => "=="
    case NotEq => "!="
    case Plus => "+"
    case Minus => "-"
    case Asterisk => "*"
    case Slash => "/"
    case Bang => "!"
    case Comma => ","
    case Lt => "<"
    case Gt => ">"
    case Semicolon => ";"
    case LParen => "("
    case RParen => ")"
    case LBrace => "{"
    case RBrace => "}"
    case Function => "FUNCTION"
    case Let => "LET"
    case Int => "INT"
    case If => "IF"
    case Else => "ELSE"
    case Return => "RETURN"
    case True => "TRUE"
    case False => "FALSE"
    case String => "STRING"
  }

  /** The keyword table. */
  const Keywords: map<string, TokenType> :=
    map["fn" := Function, "let" := Let, "if" := If, "else" := Else,
        "return" := Return, "true" := True, "false" := False]

  /** The kinds a keyword can have. */
  const KeywordKinds: set<TokenType> := {Function, Let, If, Else, Return, True, False}

  /** Exact membership in the keyword table. */
  function IsKeywords(key: string): (b: bool)
    ensures b <==> key == "fn" || key == "let" || key == "if" || key == "else"
                   || key == "return" || key == "true" || key == "false"
  {
    key in Keywords
  }

  /** The kind of an identifier-shaped word: its keyword kind, or IDENT. */
  function LookupIdentifier(identifier: string): (t: TokenType)
    ensures t == Ident <==> !IsKeywords(identifier)
    ensures t == Ident || t in KeywordKinds
    ensures IsKeywords(identifier) ==> t == Keywords[identifier]
  {
    if IsKeywords(identifier) then Keywords[identifier] else Ident
  }

  /** The seven keywords map to their own kinds. */
  lemma KeywordsMapToTheirKinds()
    ensures LookupIdentifier("fn") == Function
    ensures LookupIdentifier("let") == Let
    ensures LookupIdentifier("if") == If
    ensures LookupIdentifier("else") == Else
    ensures LookupIdentifier("return") == Return
    ensures LookupIdentifier("true") == True
    ensures LookupIdentifier("false") == False
  {
  }

  /** A keyword kind determines the word it came from: the table is injective,
      so a keyword token's text is known from its kind. */
  lemma KeywordKindDeterminesWord(a: string, b: string)
    requires LookupIdentifier(a) == LookupIdentifier(b) != Ident
    ensures a == b
  {
  }

  /** The lookup is case-sensitive: `Fn`, `LET` and `True` are identifiers. */
  lemma LookupIsExact()
    ensures LookupIdentifier("Fn") == Ident
    ensures LookupIdentifier("LET") == Ident
    ensures LookupIdentifier("True") == Ident
    ensures LookupIdentifier("") == Ident
  {
  }
}
