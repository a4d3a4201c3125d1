/** What the scanner makes of characters, told by literal alphabets. */
module SqlCharacters {
  import opened LetterCase
  import opened SqlLexer
  import opened SqlReadBack
  import SqlKeywords

  const DIGITS := "0123456789"

  predicate IsWordOf(w: string) {
    w != [] && w[0] !in DIGITS && forall c <- w :: c in SMALL || c in CAPITAL || c in DIGITS || c == '_'
  }

  /** A word that starts with no digit and is none of the keywords in any letter case. */
  predicate IsBareName(w: string) {
    && IsWordOf(w)
    && (forall k <- ["SELECT", "FROM", "WHERE", "INSERT", "INTO", "VALUES", "CREATE", "TABLE"] :: !SameWord(w, k))
  }

  lemma InRun(s: string, first: char, c: char)
    requires |s| == 26 && forall i | 0 <= i < 26 :: s[i] as int == first as int + i
    ensures c in s <==> 0 <= c as int - first as int < 26
  {
    var i := c as int - first as int;
    if 0 <= i < 26 {
      assert s[i] == c;
    }
  }

  lemma InAlphabet(c: char)
    ensures c in SMALL <==> 'a' <= c <= 'z'
    ensures c in CAPITAL <==> 'A' <= c <= 'Z'
  {
    forall i | 0 <= i < 26 ensures SMALL[i] as int == 'a' as int + i && CAPITAL[i] as int == 'A' as int + i {
      Alphabets(i);
    }
    InRun(SMALL, 'a', c);
    InRun(CAPITAL, 'A', c);
  }

  /** Letters and digits as the two alphabets and the ten digits. */
  lemma Classes(c: char)
    ensures IsLetter(c) <==> c in SMALL || c in CAPITAL || c == '_'
    ensures IsDigit(c) <==> c in DIGITS
    ensures IsWordChar(c) <==> c in SMALL || c in CAPITAL || c in DIGITS || c == '_'
  {
    hide SMALL, CAPITAL;
    InAlphabet(c);
  }

  lemma WordExact(w: string)
    ensures IsWord(w) <==> IsWordOf(w)
    ensures IsNumber(w) <==> w != [] && forall c <- w :: c in DIGITS
  {
    hide IsLetter, IsDigit, IsWordChar, SMALL, CAPITAL, DIGITS;
    forall c <- w
      ensures IsWordChar(c) <==> c in SMALL || c in CAPITAL || c in DIGITS || c == '_'
      ensures IsDigit(c) <==> c in DIGITS
      ensures IsLetter(c) <==> IsWordChar(c) && !IsDigit(c)
    {
      Classes(c);
      NoLetterIsDigit(c);
    }
    assert w != [] ==> w[0] in w;
  }

  lemma NoLetterIsDigit(c: char)
    ensures IsLetter(c) <==> IsWordChar(c) && !IsDigit(c)
  {
  }

  /** What the scanner takes for a name and for a number. */
  lemma NameExact(w: string)
    ensures IsName(w) <==> IsBareName(w)
    ensures IsNumber(w) <==> w != [] && forall c <- w :: c in DIGITS
  {
    hide LookupIdent, SameWord, IsWord, IsWordOf, IsNumber, DIGITS;
    SqlKeywords.KeywordExact(w);
    WordExact(w);
  }

  // The first character of a token decides its kind.

  predicate IsWordKind(k: TokenType) {
    k == IDENTIFIER || SqlKeywords.IsKeyword(k)
  }

  predicate IsQuoteMark(c: char) { c == '\'' || c == '"' }

  predicate IsAlpha(c: char) { c in SMALL || c in CAPITAL || c == '_' }

  predicate IsSymbol(c: char) { c in "*,;()=" }

  lemma SpaceExact(c: char, rest: string)
    requires c in " \t\n\r"
    ensures Next([c] + rest) == Next(rest)
  {
    hide Scan;
    var t := [c] + rest;
    assert t[1..] == rest;
    var n := Span(rest, IsSpace);
    assert Span(t, IsSpace) == n + 1;
    assert t[n + 1..] == rest[n..];
  }

  lemma NextScans(c: char, rest: string)
    requires !IsSpace(c) && c != '\0'
    ensures Next([c] + rest) == (Scan([c] + rest).1, ([c] + rest)[Scan([c] + rest).0..])
  {
    hide Scan, Span, IsSpace;
    NotSpace([c] + rest);
  }

  lemma SymbolExact(c: char, rest: string)
    requires !IsSpace(c) && c != '\0' && !IsLetter(c) && !IsDigit(c) && !IsQuote(c)
    ensures Next([c] + rest) == (Token(SymbolType(c), [c]), rest)
  {
    hide SymbolType, Span, LookupIdent, IsSpace;
    NextScans(c, rest);
    assert ([c] + rest)[1..] == rest;
    assert Scan([c] + rest) == (1, Token(SymbolType(c), [c]));
  }

  lemma ScanKind(c: char, rest: string)
    requires c != '\0' && (IsLetter(c) || IsDigit(c) || IsQuote(c))
    ensures var k := Scan([c] + rest).1.kind;
            && (IsQuote(c) ==> k == STRING_LITERAL) && (IsDigit(c) ==> k == NUMBER) && (IsLetter(c) ==> IsWordKind(k))
  {
    hide Span, LookupIdent, SymbolType;
    var t := [c] + rest;
    SqlKeywords.KeywordExact(t[..Span(t, IsWordChar)]);
  }

  /** The kind of a token that starts with `c`. */
  predicate KindFits(k: TokenType, c: char) {
    && (k == END_OF_FILE <==> c == '\0') && (k == STRING_LITERAL <==> IsQuoteMark(c))
    && (k == NUMBER <==> c in DIGITS) && (IsWordKind(k) <==> IsAlpha(c))
    && (k == ASTERISK <==> c == '*') && (k == COMMA <==> c == ',') && (k == SEMICOLON <==> c == ';')
    && (k == LPAREN <==> c == '(') && (k == RPAREN <==> c == ')') && (k == EQUALS <==> c == '=')
    && (k == ILLEGAL <==> c != '\0' && !IsQuoteMark(c) && c !in DIGITS && !IsAlpha(c) && !IsSymbol(c))
  }

  lemma AlphaIsLetter(c: char)
    ensures IsAlpha(c) <==> IsLetter(c)
  {
    hide SMALL, CAPITAL;
    Classes(c);
  }

  lemma KindOfSymbol(c: char)
    requires c != '\0' && !IsLetter(c) && !IsDigit(c) && !IsQuote(c)
    ensures KindFits(SymbolType(c), c)
  {
    hide IsAlpha;
    AlphaIsLetter(c);
  }

  lemma KindOfOther(c: char, k: TokenType)
    requires c != '\0' && (IsLetter(c) || IsDigit(c) || IsQuote(c))
    requires (IsQuote(c) ==> k == STRING_LITERAL) && (IsDigit(c) ==> k == NUMBER) && (IsLetter(c) ==> IsWordKind(k))
    ensures KindFits(k, c) && k != ILLEGAL && !IsSymbol(c)
  {
    hide IsAlpha;
    AlphaIsLetter(c);
  }

  lemma KindOfEnd()
    ensures KindFits(END_OF_FILE, '\0')
  {
    hide IsAlpha;
    AlphaIsLetter('\0');
  }

  /** White space is passed over. Otherwise the first character tells the kind of the token: a NUL is
      the end, a quote starts a string, a digit a number, a letter or underscore a keyword or a name;
      six characters are tokens of their own; every other character is an illegal token. */
  lemma FirstCharacter(c: char, rest: string)
    ensures c in " \t\n\r" ==> Next([c] + rest) == Next(rest)
    ensures c !in " \t\n\r" ==>
              var k := Next([c] + rest).0.kind;
              KindFits(k, c) && (k == ILLEGAL || IsSymbol(c) ==> Next([c] + rest) == (Token(k, [c]), rest))
  {
    hide Next, Scan, KindFits, IsSymbol, IsLetter, IsDigit, SymbolType, IsWordKind;
    if c in " \t\n\r" {
      SpaceExact(c, rest);
    } else if c == '\0' {
      EndThere(rest);
      KindOfEnd();
      NoSymbol();
    } else if IsLetter(c) || IsDigit(c) || IsQuote(c) {
      ScanKind(c, rest);
      NextScans(c, rest);
      KindOfOther(c, Scan([c] + rest).1.kind);
    } else {
      SymbolExact(c, rest);
      KindOfSymbol(c);
    }
  }

  lemma NoSymbol()
    ensures !IsSymbol('\0')
  {
  }

  lemma EndThere(rest: string)
    ensures Next(['\0'] + rest).0 == EOF_TOKEN
  {
    hide Scan, Span;
    NotSpace(['\0'] + rest);
  }
}
