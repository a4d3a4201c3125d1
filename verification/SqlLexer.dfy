/**
 The SQL scanner. `Next` is one call of `Lexer::next_token` on the text that remains; a NUL
 character in the text reads like the end of it, as in the program. Line and column numbers
 are left out.
 */
module SqlLexer {
  import opened Text

  datatype TokenType =
    | SELECT | FROM | WHERE | INSERT | INTO | VALUES | CREATE | TABLE
    | ASTERISK | COMMA | LPAREN | RPAREN | EQUALS | SEMICOLON
    | IDENTIFIER | STRING_LITERAL | NUMBER
    | END_OF_FILE | ILLEGAL

  datatype Token = Token(kind: TokenType, literal: string)

  const NUL := '\0'
  const EOF_TOKEN := Token(END_OF_FILE, "")

  predicate IsSpace(c: char) { c == ' ' || c == '\t' || c == '\n' || c == '\r' }
  predicate IsLetter(c: char) { 'a' <= c <= 'z' || 'A' <= c <= 'Z' || c == '_' }
  predicate IsDigit(c: char) { '0' <= c <= '9' }
  predicate IsWordChar(c: char) { IsLetter(c) || IsDigit(c) || c == '_' }
  predicate IsQuote(c: char) { c == '\'' || c == '"' }

  /** Lexer::lookup_ident */
  function LookupIdent(ident: string): TokenType {
    var u := Upper(ident);
    if u == "SELECT" then SELECT else if u == "FROM" then FROM
    else if u == "WHERE" then WHERE else if u == "INSERT" then INSERT
    else if u == "INTO" then INTO else if u == "VALUES" then VALUES
    else if u == "CREATE" then CREATE else if u == "TABLE" then TABLE
    else IDENTIFIER
  }

  /** How many characters at the start of `s` are in the class `f`. */
  function Span(s: string, f: char -> bool): (n: nat)
    ensures n <= |s|
    ensures n < |s| ==> !f(s[n])
    ensures forall i | 0 <= i < n :: f(s[i])
  {
    if s == [] || !f(s[0]) then 0 else 1 + Span(s[1..], f)
  }

  function InString(quote: char): char -> bool {
    c => c != quote && c != NUL
  }

  function SymbolType(c: char): TokenType {
    match c
    case '*' => ASTERISK
    case ',' => COMMA
    case ';' => SEMICOLON
    case '(' => LPAREN
    case ')' => RPAREN
    case '=' => EQUALS
    case _ => ILLEGAL
  }

  /** The length of the text of the token at the start of `t`, quotes included, and its value. */
  function Scan(t: string): (r: (nat, Token))
    requires t != [] && t[0] != NUL
    ensures 0 < r.0 <= |t|
    ensures r.1.kind != END_OF_FILE
  {
    var c := t[0];
    if IsQuote(c) then
      var n := Span(t[1..], InString(c));
      (if 1 + n < |t| && t[1 + n] == c then n + 2 else n + 1, Token(STRING_LITERAL, t[1..1 + n]))
    else if IsLetter(c) then
      var n := Span(t, IsWordChar);
      (n, Token(LookupIdent(t[..n]), t[..n]))
    else if IsDigit(c) then
      var n := Span(t, IsDigit);
      (n, Token(NUMBER, t[..n]))
    else
      (1, Token(SymbolType(c), [c]))
  }

  /** Lexer::next_token: the token, and the text that remains. */
  function Next(s: string): (r: (Token, string))
    ensures r.0.kind != END_OF_FILE ==> |r.1| < |s|
    ensures |r.1| <= |s|
  {
    var t := s[Span(s, IsSpace)..];
    if t == [] then (EOF_TOKEN, [])
    else if t[0] == NUL then (EOF_TOKEN, t[1..])
    else
      var (n, token) := Scan(t);
      (token, t[n..])
  }

  /** The tokens up to, and without, the first end of file. */
  function Tokens(s: string): (ts: seq<Token>)
    ensures forall t <- ts :: t.kind != END_OF_FILE
    decreases |s|
  {
    var (t, rest) := Next(s);
    if t.kind == END_OF_FILE then [] else [t] + Tokens(rest)
  }

  /** The text behind the first character. */
  lemma Behind(t: string, n: nat)
    requires t != [] && n < |t|
    ensures t[1..][..n] == t[1..1 + n] && t[1..][n..] == t[1 + n..]
    ensures n + 1 < |t| ==> t[1..][n] == t[n + 1] && t[1..][n..][1..] == t[n + 2..]
  {
  }

  class Lexer {
    const input: string
    var position: nat
    var readPosition: nat
    var ch: char

    ghost predicate Valid()
      reads this
    {
      readPosition == position + 1 && ch == if position < |input| then input[position] else NUL
    }

    /** The text from the current position on. */
    ghost function Rest(): string
      reads this
    {
      if position < |input| then input[position..] else []
    }

    constructor (input: string)
      ensures Valid() && this.input == input && Rest() == input
    {
      this.input := input;
      position, readPosition, ch := 0, 0, NUL;
      new;
      ReadChar();
      assert input[0..] == input;
    }

    method ReadChar()
      modifies this
      ensures Valid() && position == old(readPosition)
    {
      if readPosition >= |input| {
        ch := NUL;
      } else {
        ch := input[readPosition];
      }
      position := readPosition;
      readPosition := readPosition + 1;
    }

    /** Moves on while the current character is in `f`, which the end of the text is not. */
    method ReadWhile(f: char -> bool)
      requires Valid() && position <= |input| && !f(NUL)
      modifies this
      ensures Valid() && old(position) <= position <= |input|
      ensures position - old(position) == Span(old(Rest()), f)
    {
      ghost var from := position;
      while f(ch)
        invariant Valid() && from <= position <= |input|
        invariant Span(input[from..], f) == position - from + Span(input[position..], f)
        decreases |input| - position
      {
        assert input[position..][0] == ch && input[position..][1..] == input[position + 1..];
        ReadChar();
      }
      if position < |input| {
        assert input[position..][0] == ch;
      }
    }

    method SkipWhitespace()
      requires Valid()
      modifies this
      ensures Valid()
      ensures Rest() == old(Rest())[Span(old(Rest()), IsSpace)..]
    {
      if position <= |input| {
        ghost var from := position;
        ReadWhile(IsSpace);
        assert input[position..] == input[from..][position - from..];
      }
    }

    /** The text from `start` to the current position; always in range. */
    method Substring(start: nat) returns (s: string)
      requires start <= position <= |input|
      ensures s == input[start..position]
    {
      s := input[start..position];
    }

    method ReadString() returns (s: string)
      requires Valid() && Rest() != [] && IsQuote(Rest()[0])
      modifies this
      ensures Valid()
      ensures var t := old(Rest());
              var n := Span(t[1..], InString(t[0]));
              s == t[1..1 + n] && Rest() == t[if 1 + n < |t| && t[1 + n] == t[0] then n + 2 else n + 1..]
    {
      hide Span;
      ghost var t := Rest();
      var quote := ch;
      Advance();
      s := ReadClass(InString(quote));
      SkipQuote(quote);
      Behind(t, Span(t[1..], InString(quote)));
    }

    /** The closing quote, if it is there. */
    method SkipQuote(quote: char)
      requires Valid() && position <= |input| && quote != NUL
      modifies this
      ensures Valid()
      ensures var t := old(Rest()); Rest() == if t != [] && t[0] == quote then t[1..] else t
    {
      if ch == quote {
        Advance();
      }
    }

    /** One character on, if there is one. */
    method Advance()
      requires Valid() && Rest() != []
      modifies this
      ensures Valid() && position <= |input| && Rest() == old(Rest())[1..]
    {
      ReadChar();
    }

    method ReadClass(f: char -> bool) returns (s: string)
      requires Valid() && position <= |input| && !f(NUL)
      modifies this
      ensures Valid() && position <= |input|
      ensures var n := Span(old(Rest()), f); s == old(Rest())[..n] && Rest() == old(Rest())[n..]
    {
      hide Span;
      ghost var t := Rest();
      var start := position;
      ReadWhile(f);
      s := Substring(start);
      assert s == t[..position - start];
      assert Rest() == t[position - start..];
    }

    method ScanToken() returns (token: Token)
      requires Valid() && ch != NUL
      modifies this
      ensures Valid()
      ensures token == Scan(old(Rest())).1 && Rest() == old(Rest())[Scan(old(Rest())).0..]
    {
      hide Span, LookupIdent;
      ghost var t := Rest();
      if IsQuote(ch) {
        var s := ReadString();
        token := Token(STRING_LITERAL, s);
      } else if IsLetter(ch) {
        var s := ReadClass(IsWordChar);
        token := Token(LookupIdent(s), s);
      } else if IsDigit(ch) {
        var s := ReadClass(IsDigit);
        token := Token(NUMBER, s);
      } else {
        token := Token(SymbolType(ch), [ch]);
        ReadChar();
        assert Rest() == t[1..];
      }
    }

    method NextToken() returns (token: Token)
      requires Valid()
      modifies this
      ensures Valid()
      ensures (token, Rest()) == Next(old(Rest()))
    {
      hide Span, Scan;
      SkipWhitespace();
      ghost var t := Rest();
      if ch == NUL {
        ReadChar();
        assert t != [] ==> Rest() == t[1..];
        token := EOF_TOKEN;
      } else {
        token := ScanToken();
      }
    }
  }
}
