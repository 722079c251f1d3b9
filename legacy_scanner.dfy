/** The older scanner of src/lexer/index.ts: single-character tokens only, no
    whitespace skipping, and a `SyntaxError` for anything else. Imports of the
    lexer resolve to src/lexer.ts, so this machine is shadowed in the program,
    but it is a complete state machine of its own. */
module LegacyScanner {

  import opened Wrappers

  /** The kinds of the older scanner (its `TokenType` enum). */
  datatype TokenType =
    | Illegal | Eof | Ident | Assign | Plus | Comma | Semicolon
    | LParen | RParen | LBrace | RBrace | Function | Let | Unknown

  datatype Token = Token(kind: TokenType, literal: string)

  /** A call of `nextToken` either returns a token or throws. */
  datatype Result<T> = Ok(value: T) | SyntaxError(message: string)

  /** The character at position `i`, or `None` (the source's `null`) past the end. */
  function CharAt(s: string, i: nat): Option<char>
  {
    if i < |s| then Some(s[i]) else None
  }

  /** The one-character tokens. */
  function KindOf(c: char): Option<TokenType>
  {
    match c
    case '=' => Some(Assign)
    case '+' => Some(Plus)
    case ',' => Some(Comma)
    case ';' => Some(Semicolon)
    case '(' => Some(LParen)
    case ')' => Some(RParen)
    case '{' => Some(LBrace)
    case '}' => Some(RBrace)
    case _ => None
  }

  /** One call of `nextToken` at position `p`: the token and the next position,
      or the message of the `SyntaxError` it throws (the position then stays). */
  function Scan(s: string, p: nat): (r: Result<(Token, nat)>)
    ensures r.Ok? ==> r.value.1 == p + 1
    ensures r.Ok? && r.value.0.kind != Eof ==> p < |s| && r.value.0.literal == [s[p]]
    ensures !r.Ok? ==> p < |s|
  {
    match CharAt(s, p)
    case None => Ok((Token(Eof, ""), p + 1))
    case Some(c) =>
      if KindOf(c).Some? then Ok((Token(KindOf(c).value, [c]), p + 1))
      else SyntaxError("Unexpected character: " + [c])
  }

  class Lexer {
    const source: string
    var position: nat
    var readPosition: nat
    var ch: Option<char>

    ghost predicate Valid()
      reads this
    {
      readPosition == position + 1 && ch == CharAt(source, position)
    }

    constructor (source: string)
      ensures Valid() && this.source == source && position == 0
    {
      this.source := source;
      position := 0;
      readPosition := 0;
      ch := None;
      new;
      ReadChar();
    }

    method ReadChar()
      modifies this
      ensures position == old(readPosition) && readPosition == position + 1
      ensures ch == CharAt(source, position)
    {
      if readPosition >= |source| {
        ch := None;
      } else {
        ch := Some(source[readPosition]);
      }
      position := readPosition;
      readPosition := readPosition + 1;
    }

    /** Returns the next token and advances one character, or throws without
        moving. */
    method NextToken() returns (r: Result<Token>)
      requires Valid()
      modifies this
      ensures Valid()
      ensures Scan(source, old(position)).Ok? ==>
                r == Ok(Scan(source, old(position)).value.0) && position == Scan(source, old(position)).value.1
      ensures Scan(source, old(position)).SyntaxError? ==>
                r == SyntaxError(Scan(source, old(position)).message) && position == old(position)
    {
      match ch {
        case None =>
          r := Ok(Token(Eof, ""));
        case Some(c) =>
          if KindOf(c).None? {
            r := SyntaxError("Unexpected character: " + [c]);
            return;
          }
          r := Ok(Token(KindOf(c).value, [c]));
      }
      ReadChar();
    }
  }

  /** Each punctuation character yields its token, with a one-character
      literal, and moves exactly one character. */
  lemma PunctuationAdvancesOne(s: string, p: nat)
    requires p < |s| && s[p] in "=+,;(){}"
    ensures Scan(s, p).Ok? && Scan(s, p).value.1 == p + 1
    ensures Scan(s, p).value.0.literal == [s[p]] && Scan(s, p).value.0.kind == KindOf(s[p]).value
  {
  }

  /** At the end of the input the scanner returns `EOF` with an empty literal,
      and keeps returning it. */
  lemma EofForever(s: string, p: nat)
    requires |s| <= p
    ensures Scan(s, p) == Ok((Token(Eof, ""), p + 1))
    ensures Scan(s, p + 1) == Ok((Token(Eof, ""), p + 2))
  {
  }

  /** Every other character, whitespace and letters included, throws. */
  lemma OtherCharactersThrow(s: string, p: nat)
    requires p < |s| && s[p] !in "=+,;(){}"
    ensures Scan(s, p) == SyntaxError("Unexpected character: " + [s[p]])
  {
  }

  /** There are no two-character tokens: `==` scans as two `ASSIGN` tokens. */
  lemma DoubleEqualsIsTwoAssigns(s: string, p: nat)
    requires p + 1 < |s| && s[p] == '=' && s[p + 1] == '='
    ensures Scan(s, p) == Ok((Token(Assign, "="), p + 1))
    ensures Scan(s, p + 1) == Ok((Token(Assign, "="), p + 2))
  {
  }
}
