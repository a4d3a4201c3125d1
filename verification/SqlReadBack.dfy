/** What scanning and parsing make of the printed form of a statement. */
module SqlReadBack {
  import opened Wrappers
  import opened Text
  import opened LetterCase
  import opened Sequences
  import opened SqlLexer
  import opened SqlParser
  import opened SqlPrinter

  predicate IsWord(w: string) {
    w != [] && IsLetter(w[0]) && forall c <- w :: IsWordChar(c)
  }

  /** An identifier that is no keyword. */
  predicate IsName(w: string) {
    IsWord(w) && LookupIdent(w) == IDENTIFIER
  }

  predicate IsNumber(w: string) {
    w != [] && forall c <- w :: IsDigit(c)
  }

  predicate IsItem(w: string) {
    w == "*" || IsName(w) || IsNumber(w)
  }

  function ItemToken(w: string): Token {
    Token(if w == "*" then ASTERISK else if IsNumber(w) then NUMBER else IDENTIFIER, w)
  }

  /** Nothing that would continue a word or a number. */
  predicate Breaks(rest: string) {
    rest == [] || !IsWordChar(rest[0])
  }

  // Scanning what was printed

  lemma SpanExact(a: string, b: string, f: char -> bool)
    requires forall i | 0 <= i < |a| :: f(a[i])
    requires b == [] || !f(b[0])
    ensures Span(a + b, f) == |a|
  {
    hide Span;
    var n, s := Span(a + b, f), a + b;
    assert forall i | 0 <= i < |a| :: f(s[i]);
    assert b != [] ==> !f(s[|a|]);
  }

  lemma NotSpace(s: string)
    requires s != [] && !IsSpace(s[0])
    ensures s[Span(s, IsSpace)..] == s
  {
  }

  lemma WordNext(w: string, rest: string)
    requires IsWord(w) && Breaks(rest)
    ensures Next(w + rest) == (Token(LookupIdent(w), w), rest)
  {
    hide LookupIdent, Span, SymbolType;
    var s := w + rest;
    assert s[0] == w[0];
    NotSpace(s);
    SpanExact(w, rest, IsWordChar);
    assert s[..|w|] == w && s[|w|..] == rest;
  }

  lemma NumberNext(w: string, rest: string)
    requires IsNumber(w) && Breaks(rest)
    ensures Next(w + rest) == (Token(NUMBER, w), rest)
  {
    hide Span, LookupIdent, SymbolType;
    var s := w + rest;
    assert s[0] == w[0] && w[0] in w;
    NotSpace(s);
    SpanExact(w, rest, IsDigit);
    assert s[..|w|] == w && s[|w|..] == rest;
  }

  lemma SymbolNext(c: char, rest: string)
    requires c in ['*', ',', '(', ')']
    ensures Next([c] + rest) == (Token(SymbolType(c), [c]), rest)
  {
    hide Span, LookupIdent, SymbolType;
    var s := [c] + rest;
    NotSpace(s);
    assert s[1..] == rest;
    assert Scan(s) == (1, Token(SymbolType(c), [c]));
  }

  lemma SpaceSkipped(s: string)
    ensures Tokens(" " + s) == Tokens(s)
  {
    var t := " " + s;
    assert t[1..] == s;
    var n := Span(s, IsSpace);
    assert Span(t, IsSpace) == n + 1;
    assert t[n + 1..] == s[n..];
    assert Next(t) == Next(s);
  }

  lemma TokensFrom(s: string, t: Token, rest: string)
    requires Next(s) == (t, rest) && t.kind != END_OF_FILE
    ensures Tokens(s) == [t] + Tokens(rest)
  {
    hide Next;
  }

  lemma WordTokens(w: string, kind: TokenType, rest: string)
    requires IsWord(w) && LookupIdent(w) == kind && kind != END_OF_FILE && Breaks(rest)
    ensures Tokens(w + rest) == [Token(kind, w)] + Tokens(rest)
  {
    hide LookupIdent, Tokens, Next;
    WordNext(w, rest);
    TokensFrom(w + rest, Token(kind, w), rest);
  }

  lemma SymbolTokens(c: char, rest: string)
    requires c in ['*', ',', '(', ')']
    ensures Tokens([c] + rest) == [Token(SymbolType(c), [c])] + Tokens(rest)
  {
    hide Tokens, Next;
    SymbolNext(c, rest);
    TokensFrom([c] + rest, Token(SymbolType(c), [c]), rest);
  }

  lemma ItemTokens(w: string, rest: string)
    requires IsItem(w) && Breaks(rest)
    ensures Tokens(w + rest) == [ItemToken(w)] + Tokens(rest)
  {
    hide Tokens, Next, LookupIdent;
    if w == "*" {
      SymbolTokens('*', rest);
    } else if IsNumber(w) {
      NumberNext(w, rest);
      TokensFrom(w + rest, ItemToken(w), rest);
    } else {
      WordTokens(w, IDENTIFIER, rest);
    }
  }

  ghost function ListTokens(items: seq<string>): seq<Token> {
    if items == [] then []
    else if |items| == 1 then [ItemToken(items[0])]
    else [ItemToken(items[0]), Token(COMMA, ",")] + ListTokens(items[1..])
  }

  lemma {:induction false} ListLexed(items: seq<string>, rest: string)
    requires forall w <- items :: IsItem(w)
    requires Breaks(rest)
    ensures Tokens(Join(items) + rest) == ListTokens(items) + Tokens(rest)
    decreases |items|
  {
    hide Tokens, IsItem, ItemToken, Breaks, Join;
    if items == [] {
      JoinedRest(items, rest);
    } else if |items| == 1 {
      JoinedRest(items, rest);
      ItemTokens(items[0], rest);
    } else {
      var tail := Join(items[1..]) + rest;
      JoinedRest(items, rest);
      CommaBreaks(" " + tail);
      ItemTokens(items[0], "," + (" " + tail));
      CommaTokens(" " + tail);
      SpaceSkipped(tail);
      ListLexed(items[1..], rest);
      var a, b, c := [ItemToken(items[0])], [Token(COMMA, ",")], ListTokens(items[1..]);
      assert a + (b + (c + Tokens(rest))) == [ItemToken(items[0]), Token(COMMA, ",")] + c + Tokens(rest);
    }
  }

  lemma JoinedRest(items: seq<string>, rest: string)
    ensures items == [] ==> Join(items) + rest == rest
    ensures |items| == 1 ==> Join(items) + rest == items[0] + rest
    ensures |items| > 1 ==> Join(items) + rest == items[0] + ("," + (" " + (Join(items[1..]) + rest)))
  {
    hide Join;
    if items == [] {
      JoinNone();
      assert [] + rest == rest;
    } else if |items| == 1 {
      JoinOne(items);
    } else {
      var j := Join(items[1..]);
      JoinMore(items);
      assert ", " == "," + " ";
      Associative(items[0], ", " + j, rest);
      Associative(", ", j, rest);
      Associative(",", " ", j + rest);
    }
  }

  lemma JoinNone()
    ensures Join([]) == []
  {
  }

  lemma JoinOne(vs: seq<string>)
    requires |vs| == 1
    ensures Join(vs) == vs[0]
  {
  }

  lemma JoinMore(vs: seq<string>)
    requires |vs| > 1
    ensures Join(vs) == vs[0] + (", " + Join(vs[1..]))
  {
  }

  lemma CommaTokens(rest: string)
    ensures Tokens("," + rest) == [Token(COMMA, ",")] + Tokens(rest)
  {
    hide Tokens;
    SymbolTokens(',', rest);
    assert "," == [','];
  }

  lemma CommaBreaks(rest: string)
    ensures Breaks("," + rest)
  {
  }

  // Parsing it

  lemma {:induction false} ListAccepted(items: seq<string>, accept: TokenType -> bool)
    requires forall w <- items :: accept(ItemToken(w).kind)
    requires !accept(COMMA)
    ensures Accepted(ListTokens(items), accept) == items
    decreases |items|
  {
    hide ItemToken, Accepted;
    NoneAccepted(accept);
    if items != [] {
      var first, comma, rest := ItemToken(items[0]), Token(COMMA, ","), ListTokens(items[1..]);
      LiteralOfItem(items[0]);
      assert items[0] in items;
      if |items| == 1 {
        AcceptedFirst(first, [], accept);
        assert [first] + [] == [first] && items == [items[0]] + [];
      } else {
        ListAccepted(items[1..], accept);
        AcceptedFirst(comma, rest, accept);
        AcceptedFirst(first, [comma] + rest, accept);
        assert [first, comma] + rest == [first] + ([comma] + rest);
        assert items == [items[0]] + ([] + items[1..]);
      }
    }
  }

  lemma NoneAccepted(accept: TokenType -> bool)
    ensures Accepted([], accept) == []
  {
  }

  lemma AcceptedFirst(t: Token, ts: seq<Token>, accept: TokenType -> bool)
    ensures Accepted([t] + ts, accept) == (if accept(t.kind) then [t.literal] else []) + Accepted(ts, accept)
  {
    assert ([t] + ts)[0] == t && ([t] + ts)[1..] == ts;
  }

  lemma LiteralOfItem(w: string)
    ensures ItemToken(w).literal == w
  {
  }

  lemma {:induction false} StopNotInList(items: seq<string>, stop: TokenType)
    requires stop == RPAREN || stop == FROM
    ensures forall t <- ListTokens(items) :: t.kind != stop
    decreases |items|
  {
    if |items| > 1 {
      StopNotInList(items[1..], stop);
    }
  }

  lemma IndexExact(a: seq<Token>, t: Token, b: seq<Token>)
    requires forall x <- a :: x.kind != t.kind
    ensures var ts := a + ([t] + b); IndexOf(ts, t.kind) == |a| && ts[..|a|] == a
  {
    hide IndexOf;
    var ts := a + ([t] + b);
    var n := IndexOf(ts, t.kind);
    assert ts[|a|] == t;
    assert forall i | 0 <= i < |a| :: ts[i] == a[i] && a[i] in a;
  }

  // Statements

  /** Names are identifiers that are no keywords; values may also be digit strings, and select
      items may be asterisks. */
  predicate Printable(st: Statement) {
    match st
    case Create(table, columns) => IsName(table) && forall c <- columns :: IsName(c)
    case Insert(table, values) => IsName(table) && forall v <- values :: IsName(v) || IsNumber(v)
    case Select(table, columns) => IsName(table) && forall c <- columns :: c == "*" || IsName(c)
  }

  /** An empty select list is printed as an asterisk. */
  function Normal(st: Statement): Statement {
    if st.Select? && st.columns == [] then Select(st.table, ["*"]) else st
  }

  lemma Keyword(w: string, kind: TokenType)
    requires (w, kind) in [("CREATE", CREATE), ("TABLE", TABLE), ("INSERT", INSERT), ("INTO", INTO),
                           ("VALUES", VALUES), ("SELECT", SELECT), ("FROM", FROM)]
    ensures IsWord(w) && LookupIdent(w) == kind
  {
    hide Upper;
    CapitalsStay(w);
  }

  /** A keyword or name, then a space. */
  lemma WordThenSpace(w: string, kind: TokenType, rest: string)
    requires IsWord(w) && LookupIdent(w) == kind && kind != END_OF_FILE
    ensures Tokens(w + (" " + rest)) == [Token(kind, w)] + Tokens(rest)
  {
    hide Tokens, LookupIdent;
    WordTokens(w, kind, " " + rest);
    SpaceSkipped(rest);
  }

  lemma ClosedList(items: seq<string>)
    requires forall w <- items :: IsItem(w)
    ensures Tokens(Join(items) + ")") == ListTokens(items) + [Token(RPAREN, ")")]
  {
    hide *;
    ListLexed(items, ")") by { ParenBreaks(); }
    ParenAlone();
  }

  lemma ParenBreaks()
    ensures Breaks(")")
  {
  }

  lemma ParenAlone()
    ensures Tokens(")") == [Token(RPAREN, ")")]
  {
    hide Tokens;
    SymbolTokens(')', "");
    NothingToScan();
    assert ")" == [')'] + "";
  }

  lemma OpenParen(rest: string)
    ensures Tokens("(" + rest) == [Token(LPAREN, "(")] + Tokens(rest)
  {
    hide Tokens;
    SymbolTokens('(', rest);
    assert "(" == ['('];
  }

  lemma CreateText(table: string, list: string)
    ensures "CREATE TABLE " + table + " (" + list + ")"
         == "CREATE" + (" " + ("TABLE" + (" " + (table + (" " + ("(" + (list + ")")))))))
  {
    assert "CREATE TABLE " == "CREATE" + (" " + ("TABLE" + " "));
    assert " (" == " " + "(";
  }

  lemma CreateTokens(table: string, columns: seq<string>)
    requires IsName(table) && forall c <- columns :: IsItem(c)
    ensures Tokens(Print(Create(table, columns))) ==
            [Token(CREATE, "CREATE")] + ([Token(TABLE, "TABLE")] + ([Token(IDENTIFIER, table)] + ([Token(LPAREN, "(")]
            + (ListTokens(columns) + [Token(RPAREN, ")")]))))
  {
    hide Tokens, LookupIdent, Join, ListTokens, IsItem, IsWord;
    Keyword("CREATE", CREATE);
    Keyword("TABLE", TABLE);
    var list := Join(columns) + ")";
    CreateText(table, Join(columns));
    WordThenSpace("CREATE", CREATE, "TABLE" + (" " + (table + (" " + ("(" + list)))));
    WordThenSpace("TABLE", TABLE, table + (" " + ("(" + list)));
    WordThenSpace(table, IDENTIFIER, "(" + list);
    OpenParen(list);
    ClosedList(columns);
  }

  lemma InsertText(table: string, list: string)
    ensures "INSERT INTO " + table + " VALUES (" + list + ")"
         == "INSERT" + (" " + ("INTO" + (" " + (table + (" " + ("VALUES" + (" " + ("(" + (list + ")")))))))))
  {
    assert "INSERT INTO " == "INSERT" + (" " + ("INTO" + " "));
    assert " VALUES (" == " " + ("VALUES" + (" " + "("));
  }

  /** The printed head of an insertion, whatever follows the opening parenthesis. */
  lemma InsertHead(table: string, list: string)
    requires IsName(table)
    ensures Tokens("INSERT INTO " + table + " VALUES (" + list + ")") ==
            [Token(INSERT, "INSERT")] + ([Token(INTO, "INTO")] + ([Token(IDENTIFIER, table)]
            + ([Token(VALUES, "VALUES")] + ([Token(LPAREN, "(")] + Tokens(list + ")")))))
  {
    hide Tokens, LookupIdent, IsWord;
    Keyword("INSERT", INSERT);
    Keyword("INTO", INTO);
    Keyword("VALUES", VALUES);
    var rest := list + ")";
    InsertText(table, list);
    WordThenSpace("INSERT", INSERT, "INTO" + (" " + (table + (" " + ("VALUES" + (" " + ("(" + rest)))))));
    WordThenSpace("INTO", INTO, table + (" " + ("VALUES" + (" " + ("(" + rest)))));
    WordThenSpace(table, IDENTIFIER, "VALUES" + (" " + ("(" + rest)));
    WordThenSpace("VALUES", VALUES, "(" + rest);
    OpenParen(rest);
  }

  lemma InsertTokens(table: string, values: seq<string>)
    requires IsName(table) && forall v <- values :: IsItem(v)
    ensures Tokens(Print(Insert(table, values))) ==
            [Token(INSERT, "INSERT")] + ([Token(INTO, "INTO")] + ([Token(IDENTIFIER, table)]
            + ([Token(VALUES, "VALUES")] + ([Token(LPAREN, "(")] + (ListTokens(values) + [Token(RPAREN, ")")])))))
  {
    hide Tokens, LookupIdent, Join, ListTokens, IsItem, IsWord;
    InsertHead(table, Join(values));
    ClosedList(values);
  }

  lemma SelectText(table: string, list: string)
    ensures "SELECT " + list + " FROM " + table == "SELECT" + (" " + (list + (" " + ("FROM" + (" " + (table + ""))))))
  {
    assert "SELECT " == "SELECT" + " ";
    assert " FROM " == " " + ("FROM" + " ");
  }

  lemma SpaceBreaks(s: string)
    ensures Breaks(" " + s)
  {
  }

  lemma SelectTokens(table: string, columns: seq<string>)
    requires IsName(table) && columns != [] && forall c <- columns :: IsItem(c)
    ensures Tokens(Print(Select(table, columns))) ==
            [Token(SELECT, "SELECT")] + (ListTokens(columns) + ([Token(FROM, "FROM")] + [Token(IDENTIFIER, table)]))
  {
    hide Tokens, LookupIdent, Join, ListTokens, IsItem, IsWord;
    Keyword("SELECT", SELECT);
    Keyword("FROM", FROM);
    var from := "FROM" + (" " + (table + ""));
    SelectText(table, Join(columns));
    WordThenSpace("SELECT", SELECT, Join(columns) + (" " + from));
    SpaceBreaks(from);
    ListLexed(columns, " " + from);
    SpaceSkipped(from);
    WordThenSpace("FROM", FROM, table + "");
    WordTokens(table, IDENTIFIER, "");
    NothingToScan();
  }

  lemma NothingToScan()
    ensures Tokens("") == []
  {
  }

  /** A closed list parses back to its items. */
  lemma ClosedListParsed(items: seq<string>, accept: TokenType -> bool)
    requires forall w <- items :: accept(ItemToken(w).kind)
    requires !accept(COMMA)
    ensures var ts := ListTokens(items) + [Token(RPAREN, ")")];
            IndexOf(ts, RPAREN) == |ts| - 1 && Accepted(ts[..IndexOf(ts, RPAREN)], accept) == items
  {
    hide IndexOf, Accepted, ListTokens, ItemToken;
    StopNotInList(items, RPAREN);
    IndexExact(ListTokens(items), Token(RPAREN, ")"), []);
    assert [Token(RPAREN, ")")] + [] == [Token(RPAREN, ")")];
    ListAccepted(items, accept);
  }

  lemma FourThen(a: Token, b: Token, c: Token, d: Token, list: seq<Token>)
    ensures var ts := [a] + ([b] + ([c] + ([d] + list)));
            |ts| == 4 + |list| && ts[0] == a && ts[1] == b && ts[2] == c && ts[3] == d && ts[4..] == list
  {
  }

  lemma FiveThen(a: Token, b: Token, c: Token, d: Token, e: Token, list: seq<Token>)
    ensures var ts := [a] + ([b] + ([c] + ([d] + ([e] + list))));
            && |ts| == 5 + |list| && ts[5..] == list
            && ts[0] == a && ts[1] == b && ts[2] == c && ts[3] == d && ts[4] == e
  {
  }

  lemma CreateParsed(ts: seq<Token>)
    requires |ts| >= 4 && IndexOf(ts[4..], RPAREN) < |ts[4..]|
    requires ts[0].kind == CREATE && ts[1].kind == TABLE && ts[2].kind == IDENTIFIER && ts[3].kind == LPAREN
    ensures ParseTokens(ts) == Some(Create(ts[2].literal, Accepted(ts[4..][..IndexOf(ts[4..], RPAREN)], IsColumn)))
  {
    hide IndexOf, Accepted;
    assert ts[1..][3..] == ts[4..];
  }

  lemma InsertParsed(ts: seq<Token>)
    requires |ts| >= 5 && IndexOf(ts[5..], RPAREN) < |ts[5..]|
    requires ts[0].kind == INSERT && ts[1].kind == INTO && ts[2].kind == IDENTIFIER
    requires ts[3].kind == VALUES && ts[4].kind == LPAREN
    ensures ParseTokens(ts) == Some(Insert(ts[2].literal, Accepted(ts[5..][..IndexOf(ts[5..], RPAREN)], IsValue)))
  {
    hide IndexOf, Accepted;
    assert ts[1..][4..] == ts[5..];
  }

  lemma ParseCreateOf(table: string, list: seq<Token>)
    requires IndexOf(list, RPAREN) < |list|
    ensures ParseTokens([Token(CREATE, "CREATE")] + ([Token(TABLE, "TABLE")] + ([Token(IDENTIFIER, table)]
              + ([Token(LPAREN, "(")] + list))))
         == Some(Create(table, Accepted(list[..IndexOf(list, RPAREN)], IsColumn)))
  {
    hide IndexOf, Accepted, ParseTokens;
    FourThen(Token(CREATE, "CREATE"), Token(TABLE, "TABLE"), Token(IDENTIFIER, table), Token(LPAREN, "("), list);
    CreateParsed([Token(CREATE, "CREATE")] + ([Token(TABLE, "TABLE")] + ([Token(IDENTIFIER, table)]
                 + ([Token(LPAREN, "(")] + list))));
  }

  lemma ParseInsertOf(table: string, list: seq<Token>)
    requires IndexOf(list, RPAREN) < |list|
    ensures ParseTokens([Token(INSERT, "INSERT")] + ([Token(INTO, "INTO")] + ([Token(IDENTIFIER, table)]
              + ([Token(VALUES, "VALUES")] + ([Token(LPAREN, "(")] + list)))))
         == Some(Insert(table, Accepted(list[..IndexOf(list, RPAREN)], IsValue)))
  {
    hide IndexOf, Accepted, ParseTokens;
    FiveThen(Token(INSERT, "INSERT"), Token(INTO, "INTO"), Token(IDENTIFIER, table), Token(VALUES, "VALUES"),
             Token(LPAREN, "("), list);
    InsertParsed([Token(INSERT, "INSERT")] + ([Token(INTO, "INTO")] + ([Token(IDENTIFIER, table)]
                 + ([Token(VALUES, "VALUES")] + ([Token(LPAREN, "(")] + list)))));
  }

  lemma CreateRoundTrip(table: string, columns: seq<string>)
    requires IsName(table) && forall c <- columns :: IsName(c)
    ensures Parse(Print(Create(table, columns))) == Some(Create(table, columns))
  {
    hide Tokens, LookupIdent, IndexOf, Accepted, ListTokens, Print, ParseTokens;
    forall c <- columns ensures IsItem(c) && IsColumn(ItemToken(c).kind) { NameIsItem(c); }
    CreateTokens(table, columns);
    ClosedListParsed(columns, IsColumn);
    ParseCreateOf(table, ListTokens(columns) + [Token(RPAREN, ")")]);
  }

  lemma InsertRoundTrip(table: string, values: seq<string>)
    requires IsName(table) && forall v <- values :: IsName(v) || IsNumber(v)
    ensures Parse(Print(Insert(table, values))) == Some(Insert(table, values))
  {
    hide Tokens, LookupIdent, IndexOf, Accepted, ListTokens, Print, ParseTokens;
    forall v <- values ensures IsItem(v) && IsValue(ItemToken(v).kind) {
      if IsName(v) { NameIsItem(v); } else { NumberIsItem(v); }
    }
    InsertTokens(table, values);
    ClosedListParsed(values, IsValue);
    ParseInsertOf(table, ListTokens(values) + [Token(RPAREN, ")")]);
  }

  lemma NameIsItem(w: string)
    requires IsName(w)
    ensures IsItem(w) && ItemToken(w).kind == IDENTIFIER
  {
    hide LookupIdent;
    assert w[0] in w;
  }

  lemma NumberIsItem(w: string)
    requires IsNumber(w)
    ensures IsItem(w) && ItemToken(w).kind == NUMBER
  {
    hide LookupIdent;
    assert w[0] in w;
  }

  lemma SelectRoundTrip(table: string, columns: seq<string>)
    requires IsName(table) && columns != [] && forall c <- columns :: c == "*" || IsName(c)
    ensures Parse(Print(Select(table, columns))) == Some(Select(table, columns))
  {
    hide Tokens, LookupIdent, IndexOf, Accepted, ListTokens, Print;
    forall c <- columns ensures IsItem(c) && IsSelectItem(ItemToken(c).kind) {
      if c != "*" { NameIsItem(c); }
    }
    SelectTokens(table, columns);
    StopNotInList(columns, FROM);
    var end := [Token(FROM, "FROM")] + [Token(IDENTIFIER, table)];
    IndexExact(ListTokens(columns), Token(FROM, "FROM"), [Token(IDENTIFIER, table)]);
    ListAccepted(columns, IsSelectItem);
    var ts := Tokens(Print(Select(table, columns)));
    assert ts[1..] == ListTokens(columns) + end;
  }

  /** Parsing what was printed gives a printable statement back, up to the empty select list. */
  lemma PrintableReadsBack(st: Statement)
    requires Printable(st)
    ensures Parse(Print(st)) == Some(Normal(st))
  {
    hide Parse, IsName;
    match st {
      case Create(table, columns) => CreateRoundTrip(table, columns);
      case Insert(table, values) => InsertRoundTrip(table, values);
      case Select(table, columns) =>
        SelectRoundTrip(table, Normal(st).columns);
        assert Join(["*"]) == "*";
    }
  }
}
