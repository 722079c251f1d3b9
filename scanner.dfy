/** The scanner of src/lexer.ts: a character state machine over a string with
    one character of lookahead. The pure function `Scan` says which token one
    call of `nextToken` returns from a given position and where it leaves the
    machine; class `Lexer` is the state machine itself, proved against `Scan`. */
module Scanner {

  import opened Wrappers
  import opened Tokens

  /** The character at position `i`, or `None` (the source's `null`) past the end. */
  function CharAt(s: string, i: nat): Option<char>
  {
    if i < |s| then Some(s[i]) else None
  }

  /** The characters skipped before a token: space, tab and newline only. */
  predicate IsWhitespace(c: Option<char>)
  {
    c == Some(' ') || c == Some('\t') || c == Some('\n')
  }

  /** `[a-zA-Z_]`; null is not a letter. */
  predicate IsLetter(c: Option<char>)
    ensures IsLetter(c) ==> c.Some? && !IsDigit(c) && !IsWhitespace(c)
  {
    c.Some? && ('a' <= c.value <= 'z' || 'A' <= c.value <= 'Z' || c.value == '_')
  }

  /** `[0-9]`; null is not a digit. */
  predicate IsDigit(c: Option<char>)
    ensures IsDigit(c) ==> c.Some? && !IsWhitespace(c) && 0 <= c.value as int - '0' as int < 10
  {
    c.Some? && '0' <= c.value <= '9'
  }

  /** The first position at or after `p` that does not hold whitespace. */
  function WhitespaceEnd(s: string, p: nat): (q: nat)
    decreases |s| - p
    ensures p <= q
    ensures forall i :: p <= i < q ==> IsWhitespace(CharAt(s, i))
    ensures !IsWhitespace(CharAt(s, q))
  {
    if IsWhitespace(CharAt(s, p)) then WhitespaceEnd(s, p + 1) else p
  }

  /** The end of the maximal run of letters starting at `p`. */
  function IdentifierEnd(s: string, p: nat): (q: nat)
    decreases |s| - p
    ensures p <= q
    ensures forall i :: p <= i < q ==> IsLetter(CharAt(s, i))
    ensures !IsLetter(CharAt(s, q))
    ensures p <= |s| ==> q <= |s|
  {
    if IsLetter(CharAt(s, p)) then IdentifierEnd(s, p + 1) else p
  }

  /** The end of the maximal run of digits starting at `p`. */
  function NumberEnd(s: string, p: nat): (q: nat)
    decreases |s| - p
    ensures p <= q
    ensures forall i :: p <= i < q ==> IsDigit(CharAt(s, i))
    ensures !IsDigit(CharAt(s, q))
    ensures p <= |s| ==> q <= |s|
  {
    if IsDigit(CharAt(s, p)) then NumberEnd(s, p + 1) else p
  }

  /** The position of the first `"` at or after `p`, or the end of the input. */
  function StringEnd(s: string, p: nat): (q: nat)
    requires p <= |s|
    decreases |s| - p
    ensures p <= q <= |s|
    ensures forall i :: p <= i < q ==> s[i] != '"'
    ensures q < |s| ==> s[q] == '"'
  {
    if p == |s| || s[p] == '"' then p else StringEnd(s, p + 1)
  }

  /** The kinds spelled by one character that never starts a longer token. */
  function SingleCharKind(c: char): Option<TokenType>
  {
    match c
    case '+' => Some(Plus)
    case ',' => Some(Comma)
    case ';' => Some(Semicolon)
    case '(' => Some(LParen)
    case ')' => Some(RParen)
    case '{' => Some(LBrace)
    case '}' => Some(RBrace)
    case '-' => Some(Minus)
    case '/' => Some(Slash)
    case '*' => Some(Asterisk)
    case '<' => Some(Lt)
    case '>' => Some(Gt)
    case _ => None
  }

  /** One call of `nextToken` on `s` with the machine at position `p`: the token
      it returns and the position it leaves the machine at. */
  function Scan(s: string, p: nat): (r: (Token, nat))
    ensures p <= r.1
    ensures r.0.kind != Illegal ==> WhitespaceEnd(s, p) < r.1
  {
    var q := WhitespaceEnd(s, p);
    match CharAt(s, q)
    case None => (Token(Eof, ""), q + 1)
    case Some(c) =>
      if c == '=' then
        if CharAt(s, q + 1) == Some('=') then (Token(Eq, "=="), q + 2)
        else if CharAt(s, q + 1) == Some('>') then (Token(Arrow, "=>"), q + 2)
        else (Token(Assign, "="), q + 1)
      else if c == '!' then
        if CharAt(s, q + 1) == Some('=') then (Token(NotEq, "!="), q + 2)
        else (Token(Bang, "!"), q + 1)
      else if SingleCharKind(c).Some? then (Token(SingleCharKind(c).value, [c]), q + 1)
      else if c == '"' then
        var e := StringEnd(s, q + 1);
        (Token(String, s[q + 1..e]), e + 1)
      else if IsLetter(Some(c)) then
        var e := IdentifierEnd(s, q);
        (Token(LookupIdentifier(s[q..e]), s[q..e]), e)
      else if IsDigit(Some(c)) then
        var e := NumberEnd(s, q);
        (Token(Int, s[q..e]), e)
      else (Token(Illegal, [c]), q)
  }

  /** The scanner reaches EOF exactly when only whitespace is left, returns
      `EOF` with an empty literal there, and keeps returning it. */
  lemma {:induction false} ScanEofForever(s: string, p: nat)
    ensures Scan(s, p).0.kind == Eof <==> forall i :: p <= i < |s| ==> IsWhitespace(CharAt(s, i))
    ensures Scan(s, p).0.kind == Eof ==>
              Scan(s, p).0 == Token(Eof, "") && Scan(s, Scan(s, p).1) == (Token(Eof, ""), Scan(s, p).1 + 1)
  {
    var q := WhitespaceEnd(s, p);
    if q < |s| {
      assert !IsWhitespace(CharAt(s, q));
      assert Scan(s, p).0.kind != Eof by {
        var c := s[q];
        if IsLetter(Some(c)) {
          assert LookupIdentifier(s[q..IdentifierEnd(s, q)]) != Eof;
        }
      }
    }
  }

  /** Space, tab and newline are skipped before a token. */
  lemma ScanSkipsWhitespace(s: string, p: nat)
    requires IsWhitespace(CharAt(s, p))
    ensures Scan(s, p) == Scan(s, p + 1)
  {
  }

  /** Any other character that starts no token, `\r` included, is `ILLEGAL`;
      the scanner does not move past it, so the next call returns it again. */
  lemma ScanIllegalIsStuck(s: string, p: nat)
    requires Scan(s, p).0.kind == Illegal
    ensures var (t, q) := Scan(s, p);
      q == WhitespaceEnd(s, p) && q < |s| && t.literal == [s[q]] && Scan(s, q) == Scan(s, p)
  {
  }

  lemma CarriageReturnIsIllegal(s: string, p: nat)
    requires CharAt(s, p) == Some('\r')
    ensures Scan(s, p) == (Token(Illegal, "\r"), p)
  {
  }

  /** `=` and `!` look one character ahead for `==`, `=>` and `!=`; otherwise
      they are one-character tokens. */
  lemma ScanOperatorsWithLookahead(s: string, p: nat)
    requires CharAt(s, p) == Some('=') || CharAt(s, p) == Some('!')
    ensures CharAt(s, p) == Some('=') && CharAt(s, p + 1) == Some('=') ==> Scan(s, p) == (Token(Eq, "=="), p + 2)
    ensures CharAt(s, p) == Some('=') && CharAt(s, p + 1) == Some('>') ==> Scan(s, p) == (Token(Arrow, "=>"), p + 2)
    ensures CharAt(s, p) == Some('=') && CharAt(s, p + 1) != Some('=') && CharAt(s, p + 1) != Some('>') ==>
              Scan(s, p) == (Token(Assign, "="), p + 1)
    ensures CharAt(s, p) == Some('!') && CharAt(s, p + 1) == Some('=') ==> Scan(s, p) == (Token(NotEq, "!="), p + 2)
    ensures CharAt(s, p) == Some('!') && CharAt(s, p + 1) != Some('=') ==> Scan(s, p) == (Token(Bang, "!"), p + 1)
  {
  }

  /** An identifier is the maximal run of letters (a digit ends it) and its kind
      comes from the keyword table. */
  lemma ScanIdentifier(s: string, p: nat)
    requires IsLetter(CharAt(s, WhitespaceEnd(s, p)))
    ensures var (t, e) := Scan(s, p); var q := WhitespaceEnd(s, p);
      q < e <= |s| && t.literal == s[q..e] && t.kind == LookupIdentifier(t.literal)
      && (forall i :: 0 <= i < |t.literal| ==> IsLetter(Some(t.literal[i])))
      && !IsLetter(CharAt(s, e))
  {
    var q := WhitespaceEnd(s, p);
    var e := IdentifierEnd(s, q);
    forall i | 0 <= i < e - q ensures IsLetter(Some(s[q..e][i])) {
      assert IsLetter(CharAt(s, q + i));
    }
  }

  /** An integer is the maximal run of digits, with that text as its literal. */
  lemma ScanNumber(s: string, p: nat)
    requires IsDigit(CharAt(s, WhitespaceEnd(s, p)))
    ensures var (t, e) := Scan(s, p); var q := WhitespaceEnd(s, p);
      t.kind == Int && q < e <= |s| && t.literal == s[q..e]
      && (forall i :: 0 <= i < |t.literal| ==> IsDigit(Some(t.literal[i])))
      && !IsDigit(CharAt(s, e))
  {
    var q := WhitespaceEnd(s, p);
    var e := NumberEnd(s, q);
    forall i | 0 <= i < e - q ensures IsDigit(Some(s[q..e][i])) {
      assert IsDigit(CharAt(s, q + i));
    }
  }

  /** A string literal is the text strictly between the opening `"` and the next
      `"` (or the end of the input), without escapes; the closing quote is
      consumed. */
  lemma ScanString(s: string, p: nat)
    requires CharAt(s, WhitespaceEnd(s, p)) == Some('"')
    ensures var (t, e) := Scan(s, p); var q := WhitespaceEnd(s, p);
      t.kind == String && q < e <= |s| + 1 && t.literal == s[q + 1..e - 1]
      && (forall i :: 0 <= i < |t.literal| ==> t.literal[i] != '"')
      && (e - 1 < |s| ==> s[e - 1] == '"')
  {
  }

  /** A keyword token always carries its own keyword as its text; in
      particular a `LET` token's literal is `let`. */
  lemma KeywordTokensCarryTheirWord(s: string, p: nat)
    requires Scan(s, p).0.kind in KeywordKinds
    ensures Scan(s, p).0.literal in Keywords && Keywords[Scan(s, p).0.literal] == Scan(s, p).0.kind
    ensures Scan(s, p).0.kind == Let ==> Scan(s, p).0.literal == "let"
  {
    var q := WhitespaceEnd(s, p);
    assert q < |s| && IsLetter(Some(s[q]));
  }

  /** Every token except `ILLEGAL` moves the scanner forward. */
  lemma ScanMakesProgress(s: string, p: nat)
    requires Scan(s, p).0.kind != Illegal
    ensures Scan(s, p).1 > p
  {
  }

  /** The scanner state machine. */
  class Lexer {
    const source: string
    var position: nat
    var readPosition: nat
    var ch: Option<char>

    /** `readPosition` is one past `position`, and `ch` is the character at
        `position` (null past the end). */
    ghost predicate Valid()
      reads this
    {
      readPosition == position + 1 && ch == CharAt(source, position)
    }

    constructor (source: string)
      ensures Valid() && this.source == source && position == 0
    {
      this.source := source;
      position := 0;
      readPosition := 0;
      ch := None;
      new;
      ReadChar();
    }

    /** Moves to `readPosition`; re-establishes `Valid` from any state. */
    method ReadChar()
      modifies this
      ensures position == old(readPosition) && readPosition == position + 1
      ensures ch == CharAt(source, position)
    {
      if readPosition >= |source| {
        ch := None;
      } else {
        ch := Some(source[readPosition]);
      }
      position := readPosition;
      readPosition := readPosition + 1;
    }

    method SkipWhitespace()
      requires Valid()
      modifies this
      ensures Valid() && position == WhitespaceEnd(source, old(position))
    {
      while IsWhitespace(ch)
        invariant Valid() && old(position) <= position
        invariant WhitespaceEnd(source, position) == WhitespaceEnd(source, old(position))
        decreases |source| - position
      {
        ReadChar();
      }
    }

    /** The character after the current one, without moving. */
    method PeekChar() returns (c: Option<char>)
      requires Valid()
      ensures c == CharAt(source, position + 1)
    {
      if readPosition >= |source| {
        c := None;
      } else {
        c := Some(source[readPosition]);
      }
    }

    /** Called on an opening `"`: reads up to the next `"` or the end of the
        input and returns the text in between. */
    method ReadString() returns (literal: string)
      requires Valid() && ch == Some('"')
      modifies this
      ensures Valid() && position == StringEnd(source, old(position) + 1)
      ensures literal == source[old(position) + 1..position]
    {
      var start := position + 1;
      ReadChar();
      while ch != Some('"') && ch != None
        invariant Valid() && start <= position <= StringEnd(source, start)
        decreases |source| - position
      {
        ReadChar();
      }
      literal := source[start..position];
    }

    /** Called on a letter: reads the maximal run of letters. */
    method ReadIdentifier() returns (literal: string)
      requires Valid() && IsLetter(ch)
      modifies this
      ensures Valid() && position == IdentifierEnd(source, old(position))
      ensures literal == source[old(position)..position]
    {
      var start := position;
      while IsLetter(ch)
        invariant Valid() && start <= position <= IdentifierEnd(source, start)
        invariant IdentifierEnd(source, position) == IdentifierEnd(source, start)
        decreases |source| - position
      {
        ReadChar();
      }
      literal := source[start..position];
    }

    /** Called on a digit: reads the maximal run of digits. */
    method ReadNumber() returns (literal: string)
      requires Valid() && IsDigit(ch)
      modifies this
      ensures Valid() && position == NumberEnd(source, old(position))
      ensures literal == source[old(position)..position]
    {
      var start := position;
      while IsDigit(ch)
        invariant Valid() && start <= position <= NumberEnd(source, start)
        invariant NumberEnd(source, position) == NumberEnd(source, start)
        decreases |source| - position
      {
        ReadChar();
      }
      literal := source[start..position];
    }

    /** Returns the next token and advances past it. */
    method NextToken() returns (tok: Token)
      requires Valid()
      modifies this
      ensures Valid()
      ensures (tok, position) == Scan(source, old(position))
    {
      SkipWhitespace();
      match ch {
      case None =>
        tok := Token(Eof, "");
      case Some(c) =>
        if c == '=' {
          var next := PeekChar();
          if next == Some('=') {
            ReadChar();
            tok := Token(Eq, "==");
          } else if next == Some('>') {
            ReadChar();
            tok := Token(Arrow, "=>");
          } else {
            tok := Token(Assign, "=");
          }
        } else if c == '!' {
          var next := PeekChar();
          if next == Some('=') {
            ReadChar();
            tok := Token(NotEq, "!=");
          } else {
            tok := Token(Bang, "!");
          }
        } else if SingleCharKind(c).Some? {
          tok := Token(SingleCharKind(c).value, [c]);
        } else if c == '"' {
          var literal := ReadString();
          tok := Token(String, literal);
        } else if IsLetter(ch) {
          var literal := ReadIdentifier();
          tok := Token(LookupIdentifier(literal), literal);
          return;
        } else if IsDigit(ch) {
          var literal := ReadNumber();
          tok := Token(Int, literal);
          return;
        } else {
          tok := Token(Illegal, [c]);
          return;
        }
      }
      ReadChar();
    }
  }
}
