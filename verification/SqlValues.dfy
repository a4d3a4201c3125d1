/** Insertions whose values are written between quotes or as they are, in any mix. */
module SqlValues {
  import opened Wrappers
  import opened SqlLexer
  import opened SqlParser
  import opened SqlPrinter
  import opened SqlReadBack
  import opened SqlCharacters

  datatype Written = Quoted(quote: char, value: string) | Bare(value: string)

  /** Either quote, if the value contains neither it nor a NUL; names and numbers need none. */
  predicate CanWrite(w: Written) {
    match w
    case Quoted(quote, value) => (quote == '\'' || quote == '"') && quote !in value && '\0' !in value
    case Bare(value) => IsBareName(value) || (value != [] && forall c <- value :: c in DIGITS)
  }

  function TextOf(w: Written): string {
    match w
    case Quoted(quote, value) => [quote] + (value + [quote])
    case Bare(value) => value
  }

  function Texts(ws: seq<Written>): seq<string> {
    seq(|ws|, i requires 0 <= i < |ws| => TextOf(ws[i]))
  }

  function ValuesOf(ws: seq<Written>): seq<string> {
    seq(|ws|, i requires 0 <= i < |ws| => ws[i].value)
  }

  // Scanning a written value

  function TokenFor(w: Written): Token {
    if w.Quoted? then Token(STRING_LITERAL, w.value) else ItemToken(w.value)
  }

  lemma QuotedScan(s: string, n: nat)
    requires s != [] && IsQuote(s[0]) && n == Span(s[1..], InString(s[0])) && 1 + n < |s| && s[1 + n] == s[0]
    ensures Scan(s) == (n + 2, Token(STRING_LITERAL, s[1..1 + n]))
  {
    hide Span, LookupIdent, SymbolType;
  }

  lemma QuotedNext(quote: char, value: string, rest: string)
    requires CanWrite(Quoted(quote, value))
    ensures Next([quote] + (value + ([quote] + rest))) == (Token(STRING_LITERAL, value), rest)
  {
    hide Span, Scan, IsBareName;
    var s, n := [quote] + (value + ([quote] + rest)), |value|;
    NotSpace(s);
    assert s[1..] == value + ([quote] + rest);
    SpanExact(value, [quote] + rest, InString(quote));
    assert s[1 + n] == quote && s[1..1 + n] == value && s[n + 2..] == rest;
    QuotedScan(s, n);
  }

  lemma WrittenTokens(w: Written, rest: string)
    requires CanWrite(w) && Breaks(rest)
    ensures Tokens(TextOf(w) + rest) == [TokenFor(w)] + Tokens(rest)
  {
    hide Tokens, Next, IsName, IsNumber, IsBareName, ItemToken;
    if w.Quoted? {
      var s := [w.quote] + (w.value + ([w.quote] + rest));
      QuotedNext(w.quote, w.value, rest);
      TokensFrom(s, TokenFor(w), rest);
      assert TextOf(w) + rest == s;
    } else {
      NameExact(w.value);
      ItemTokens(w.value, rest);
    }
  }

  /** Its token is a value. */
  lemma WrittenItem(w: Written)
    requires CanWrite(w)
    ensures TokenFor(w).kind != RPAREN && Item(TokenFor(w), IsValue) == [w.value]
  {
    hide IsName, IsNumber, IsBareName;
    if w.Bare? {
      NameExact(w.value);
      if IsName(w.value) { NameIsItem(w.value); } else { NumberIsItem(w.value); }
    }
  }

  // Reading the list

  /** The values up to the closing parenthesis, if there is one. */
  ghost function ListOf(s: string): Option<seq<string>> {
    SqlParser.ClosedList(Tokens(s), IsValue)
  }

  lemma ListFrom(s: string, t: Token, rest: string)
    requires Tokens(s) == [t] + Tokens(rest) && t.kind != RPAREN && ListOf(rest).Some?
    ensures ListOf(s) == Some(Item(t, IsValue) + ListOf(rest).value)
  {
    hide Tokens, Accepted;
    var ts := Tokens(s);
    assert ts[1..] == Tokens(rest);
    ListStep(ts, RPAREN, IsValue);
    assert IndexOf(ts, RPAREN) == 1 + IndexOf(ts[1..], RPAREN);
  }

  lemma ValueFirst(w: Written, rest: string)
    requires CanWrite(w) && Breaks(rest) && ListOf(rest).Some?
    ensures ListOf(TextOf(w) + rest) == Some([w.value] + ListOf(rest).value)
  {
    hide ListOf, CanWrite, TokenFor, Item, Breaks, Tokens;
    WrittenTokens(w, rest);
    WrittenItem(w);
    ListFrom(TextOf(w) + rest, TokenFor(w), rest);
  }

  lemma SeparatorFirst(rest: string)
    requires ListOf(rest).Some?
    ensures ListOf("," + (" " + rest)) == ListOf(rest)
  {
    hide Tokens, ListOf;
    CommaTokens(" " + rest);
    SpaceSkipped(rest);
    ListFrom("," + (" " + rest), Token(COMMA, ","), rest);
    assert [] + ListOf(rest).value == ListOf(rest).value;
  }

  lemma NothingFirst()
    ensures ListOf(")") == Some([])
  {
    hide Tokens;
    ParenAlone();
    ListDone([Token(RPAREN, ")")], RPAREN, IsValue);
  }

  lemma RestOfTexts(ws: seq<Written>)
    requires ws != []
    ensures |Texts(ws)| == |ws| && Texts(ws)[0] == TextOf(ws[0]) && Texts(ws)[1..] == Texts(ws[1..])
    ensures ValuesOf(ws) == [ws[0].value] + ValuesOf(ws[1..])
  {
  }

  lemma {:induction false} ListRead(ws: seq<Written>)
    requires forall w <- ws :: CanWrite(w)
    ensures ListOf(Join(Texts(ws)) + ")") == Some(ValuesOf(ws))
  {
    hide ListOf, CanWrite, Join, TextOf, Breaks;
    NothingFirst();
    JoinedRest(Texts(ws), ")");
    if ws == [] {
      assert Texts(ws) == [] && ValuesOf(ws) == [];
    } else {
      RestOfTexts(ws);
      if |ws| == 1 {
        ParenBreaks();
        ValueFirst(ws[0], ")");
      } else {
        var more := Join(Texts(ws[1..])) + ")";
        ListRead(ws[1..]);
        SeparatorFirst(more);
        CommaBreaks(" " + more);
        ValueFirst(ws[0], "," + (" " + more));
      }
    }
  }

  /** An insertion whose values are written between quotes of either kind, or as they are where they
      are names or numbers, parses to the insertion of just these values, without the quotes. */
  lemma WrittenValuesRead(table: string, ws: seq<Written>)
    requires IsBareName(table) && forall w <- ws :: CanWrite(w)
    ensures Parse("INSERT INTO " + table + " VALUES (" + Join(Texts(ws)) + ")") == Some(Insert(table, ValuesOf(ws)))
  {
    hide Tokens, Join, CanWrite, IsName, IsNumber, IsBareName, IndexOf, Accepted, ParseTokens, Texts, ValuesOf;
    NameExact(table);
    ListRead(ws);
    InsertHead(table, Join(Texts(ws)));
    ParseInsertOf(table, Tokens(Join(Texts(ws)) + ")"));
  }
}
