/** Printing, scanning and parsing again gives the same statement, and when. */
module SqlRoundTrip {
  import opened Wrappers
  import opened Text
  import opened Sequences
  import opened SqlLexer
  import opened SqlTiling
  import opened SqlParser
  import opened SqlPrinter
  import opened SqlReadBack

  // What the parser produces

  lemma ScannedGood(t: string)
    requires t != [] && t[0] != NUL
    ensures TokenGood(Scan(t).1)
  {
    hide LookupIdent;
    LookupNeverSymbol(t[..if IsLetter(t[0]) then Span(t, IsWordChar) else 0]);
  }

  ghost predicate TokenGood(t: Token) {
    && (t.kind == IDENTIFIER ==> IsName(t.literal))
    && (t.kind == NUMBER ==> IsNumber(t.literal))
    && (t.kind == ASTERISK ==> t.literal == "*")
  }

  lemma LookupNeverSymbol(w: string)
    ensures LookupIdent(w) != NUMBER && LookupIdent(w) != ASTERISK
  {
  }

  lemma {:induction false} TokensGood(s: string)
    ensures forall t <- Tokens(s) :: TokenGood(t)
    decreases |s|
  {
    hide Scan, TokenGood;
    var t := s[Span(s, IsSpace)..];
    if t != [] && t[0] != NUL {
      ScannedGood(t);
      TokensGood(Next(s).1);
    }
  }

  lemma {:induction false} AcceptedGood(ts: seq<Token>, accept: TokenType -> bool)
    requires forall t <- ts :: TokenGood(t)
    ensures forall w <- Accepted(ts, accept) :: exists t <- ts :: accept(t.kind) && t.literal == w
  {
    if ts != [] {
      AcceptedGood(ts[1..], accept);
    }
  }

  lemma CreatePrintable(us: seq<Token>)
    requires (forall t <- us :: TokenGood(t)) && ParseCreate(us).Some?
    ensures Printable(ParseCreate(us).value)
  {
    hide IndexOf, Accepted, IsName, IsNumber;
    var list := us[3..][..IndexOf(us[3..], RPAREN)];
    assert forall i | 0 <= i < |list| :: list[i] == us[i + 3];
    AcceptedGood(list, IsColumn);
    assert us[1] in us;
  }

  lemma SelectPrintable(us: seq<Token>)
    requires (forall t <- us :: TokenGood(t)) && ParseSelect(us).Some?
    ensures Printable(ParseSelect(us).value)
  {
    hide IndexOf, Accepted, IsName, IsNumber;
    var list := us[..IndexOf(us, FROM)];
    assert forall i | 0 <= i < |list| :: list[i] == us[i];
    AcceptedGood(list, IsSelectItem);
    assert us[IndexOf(us, FROM) + 1] in us;
  }

  /** Every statement that parsing yields can be printed and parsed again, unless it inserts a
      value that is neither a name nor a number. */
  lemma ParsedIsPrintable(input: string)
    requires Parse(input).Some?
    requires Parse(input).value.Insert? ==> forall v <- Parse(input).value.values :: IsName(v) || IsNumber(v)
    ensures Printable(Parse(input).value)
  {
    hide Tokens, IndexOf, Accepted, IsName, IsNumber, ParseCreate, ParseSelect, TokenGood;
    TokensGood(input);
    var ts := Tokens(input);
    var us := ts[1..];
    assert forall t <- us :: t in ts;
    match ts[0].kind {
      case CREATE => CreatePrintable(us);
      case INSERT => InsertPrintable(us);
      case SELECT => SelectPrintable(us);
    }
  }

  lemma InsertPrintable(us: seq<Token>)
    requires (forall t <- us :: TokenGood(t)) && ParseInsert(us).Some?
    requires forall v <- ParseInsert(us).value.values :: IsName(v) || IsNumber(v)
    ensures Printable(ParseInsert(us).value)
  {
    hide IndexOf, Accepted, IsName, IsNumber;
    assert us[1] in us;
  }

  // A value that is neither a name nor a number does not come back.

  predicate IsPlain(v: string) {
    IsName(v) || IsNumber(v)
  }

  /** The printed list, with the parenthesis that closes it. */
  ghost function Closed(vs: seq<string>): string {
    Join(vs) + ")"
  }

  lemma ClosedMore(vs: seq<string>)
    requires |vs| > 1
    ensures Closed(vs) == vs[0] + (", " + Closed(vs[1..]))
  {
    hide Join;
    assert Join(vs) == vs[0] + (", " + Join(vs[1..])) by { JoinMore(vs); }
  }

  /** What follows a value in the printed list. */
  lemma AfterValue(vs: seq<string>)
    requires vs != []
    ensures |vs[0]| < |Closed(vs)| && Closed(vs)[..|vs[0]|] == vs[0]
    ensures |vs| == 1 ==> Closed(vs) == vs[0] + ")"
    ensures Closed(vs)[|vs[0]|] == if |vs| == 1 then ')' else ','
  {
    hide Join;
    if |vs| == 1 {
      assert Join(vs) == vs[0] by { JoinOne(vs); }
    } else {
      ClosedMore(vs);
    }
  }

  /** A token at `at` whose value is the first of the list, and that does not start with it,
      starts after it: a quote cannot lie in its own string, and no name or number goes on
      over a separator. */
  lemma StartsAfter(vs: seq<string>, at: nat)
    requires vs != [] && at < |Closed(vs)| && Closed(vs)[at] != NUL
    requires at > 0 || !IsPlain(vs[0])
    requires var token := Scan(Closed(vs)[at..]).1; IsValue(token.kind) && token.literal == vs[0]
    ensures at >= |vs[0]|
  {
    hide Closed, Scan, IsName, IsNumber, LookupIdent;
    var v, x := vs[0], Closed(vs);
    var t := x[at..];
    var (k, token) := Scan(t);
    AfterValue(vs);
    ScanSpells(t);
    ScannedGood(t);
    assert at < |v| ==> x[at] == x[..|v|][at] && v[at] in v;
    if at < |v| && token.kind != STRING_LITERAL {
      assert t[..k] == v;
      assert t[|v| - at] == x[|v|] && t[|v| - at] == v[|v| - at];
      PlainHasNoSeparator(v, |v| - at);
      assert false;
    }
  }

  lemma PlainHasNoSeparator(v: string, i: nat)
    requires IsPlain(v) && i < |v|
    ensures v[i] != ',' && v[i] != ')' && v[i] != ' '
  {
    hide LookupIdent;
    assert v[i] in v;
  }

  /** Value tokens start with no separator. */
  lemma ValueStart(t: string)
    requires t != [] && t[0] != NUL && IsValue(Scan(t).1.kind)
    ensures t[0] != ',' && t[0] != ')' && t[0] != ' '
  {
    hide LookupIdent, Span;
  }

  ghost function Values(s: string): seq<string> {
    Listed(Tokens(s), RPAREN, IsValue)
  }

  lemma ValuesStep(s: string)
    ensures AtEnd(s) ==> Values(s) == []
    ensures !AtEnd(s) ==>
              var t := s[Span(s, IsSpace)..];
              var (k, token) := Scan(t);
              Values(s) == if token.kind == RPAREN then [] else Item(token, IsValue) + Values(t[k..])
  {
    hide Scan, Span, Listed, Tokens;
    TokensStep(s);
    var ts := Tokens(s);
    if AtEnd(s) || ts[0].kind == RPAREN {
      ListDone(ts, RPAREN, IsValue);
    } else {
      ListStep(ts, RPAREN, IsValue);
    }
  }

  /** Reading a printed list from behind the start of its first value, or from the start of a
      value that is not plain, never gives the list: the last value has no token left. */
  lemma {:induction false} TooLate(vs: seq<string>, pos: nat)
    requires vs != [] && pos <= |Closed(vs)|
    requires pos > 0 || !IsPlain(vs[0])
    ensures Values(Closed(vs)[pos..]) != vs
    decreases |Closed(vs)| - pos
  {
    hide Closed, Scan, Values, IsPlain, IsValue, AtEnd;
    var x, v := Closed(vs), vs[0];
    if AtEnd(x[pos..]) {
      ValuesStep(x[pos..]);
    } else {
      var at, k := NextToken(x, pos);
      var token, rest := Scan(x[at..]).1, Values(x[at + k..]);
      if token.kind != RPAREN && !IsValue(token.kind) {
        TooLate(vs, at + k);
        assert [] + rest == rest;
      } else if token.kind != RPAREN && token.literal == v {
        StartsAfter(vs, at);
        ValueStart(x[at..]);
        NextValue(vs, at, k);
        TooLate(vs[1..], at + k - |v| - 2);
        assert ([v] + rest)[1..] == rest;
      }
    }
  }

  /** The first token behind `pos`: where it starts, and how long its text is. */
  lemma NextToken(x: string, pos: nat) returns (at: nat, k: nat)
    requires pos <= |x| && !AtEnd(x[pos..])
    ensures pos <= at < |x| && 0 < k && at + k <= |x| && x[at] != NUL
    ensures var token := Scan(x[at..]).1;
            Values(x[pos..]) == if token.kind == RPAREN then [] else Item(token, IsValue) + Values(x[at + k..])
  {
    hide Scan, Span, Values, IsValue;
    var r := x[pos..];
    ValuesStep(r);
    at := pos + Span(r, IsSpace);
    Dropped(x, pos, Span(r, IsSpace));
    k := Scan(x[at..]).0;
    Dropped(x, at, k);
  }

  /** A token behind the first value starts with the next one or behind it. */
  lemma NextValue(vs: seq<string>, at: nat, k: nat)
    requires vs != [] && |vs[0]| <= at && 0 < k && at + k <= |Closed(vs)|
    requires Closed(vs)[at] !in [',', ')', ' ']
    ensures |vs| > 1 && at >= |vs[0]| + 2
    ensures at + k - |vs[0]| - 2 <= |Closed(vs[1..])|
    ensures Closed(vs)[at + k..] == Closed(vs[1..])[at + k - |vs[0]| - 2..]
  {
    hide Closed;
    AfterValue(vs);
    if |vs| > 1 {
      ClosedMore(vs);
      assert Closed(vs)[|vs[0]| + 1] == ' ';
    }
  }

  lemma {:induction false} OnlyPlainReturn(vs: seq<string>)
    ensures Values(Closed(vs)) == vs <==> forall v <- vs :: IsPlain(v)
    decreases |vs|
  {
    hide Closed, Values, IsPlain;
    if vs == [] {
      NothingListed();
    } else if !IsPlain(vs[0]) {
      assert Closed(vs)[0..] == Closed(vs);
      TooLate(vs, 0);
    } else {
      PlainFirst(vs);
      if |vs| > 1 {
        OnlyPlainReturn(vs[1..]);
        assert ([vs[0]] + Values(Closed(vs[1..])))[1..] == Values(Closed(vs[1..]));
        assert vs == [vs[0]] + vs[1..];
      }
    }
  }

  lemma NothingListed()
    ensures Closed([]) == ")" && Values(")") == []
  {
    hide Tokens, Listed;
    assert Closed([]) == ")";
    ParenAlone();
    ListDone([Token(RPAREN, ")")], RPAREN, IsValue);
  }

  lemma PlainThen(v: string, rest: string)
    requires IsPlain(v) && Breaks(rest)
    ensures Values(v + rest) == [v] + Values(rest)
  {
    hide Tokens, Listed, IsName, IsNumber, Breaks, ItemToken;
    if IsName(v) { NameIsItem(v); } else { NumberIsItem(v); }
    ItemTokens(v, rest);
    LiteralOfItem(v);
    ListStep(Tokens(v + rest), RPAREN, IsValue);
  }

  lemma SeparatorThen(rest: string)
    ensures Values("," + (" " + rest)) == Values(rest)
  {
    hide Tokens, Listed;
    CommaTokens(" " + rest);
    SpaceSkipped(rest);
    var ts := Tokens("," + (" " + rest));
    assert ts[1..] == Tokens(rest);
    ListStep(ts, RPAREN, IsValue);
  }

  lemma PlainFirst(vs: seq<string>)
    requires vs != [] && IsPlain(vs[0])
    ensures Values(Closed(vs)) == [vs[0]] + if |vs| == 1 then [] else Values(Closed(vs[1..]))
  {
    hide Closed, Values, IsPlain, Breaks;
    if |vs| == 1 {
      AfterValue(vs);
      NothingListed();
      ParenBreaks();
      PlainThen(vs[0], ")");
    } else {
      ClosedMore(vs);
      var more := Closed(vs[1..]);
      SeparatorThen(more);
      CommaBreaks(" " + more);
      PlainThen(vs[0], "," + (" " + more));
      assert ", " + more == "," + (" " + more);
    }
  }

  lemma InsertReturnsOnlyPlain(table: string, values: seq<string>)
    requires Parse(Print(Insert(table, values))) == Some(Insert(table, values))
    ensures Printable(Insert(table, values))
  {
    hide Tokens, IndexOf, Accepted, ParseTokens, IsName, IsNumber;
    var st := Insert(table, values);
    ParsedTableIsName(Print(st));
    InsertHead(table, Join(values));
    var ts := Tokens(Closed(values));
    InsertOf(table, ts);
    OnlyPlainReturn(values);
  }

  lemma ParsedTableIsName(input: string)
    requires Parse(input).Some?
    ensures IsName(Parse(input).value.table)
  {
    hide Tokens, IndexOf, Accepted, IsName, IsNumber, LookupIdent;
    TokensGood(input);
    var us := Tokens(input)[1..];
    assert forall i | 0 <= i < |us| :: us[i] == Tokens(input)[i + 1];
    if Parse(input).value.Select? {
      assert us[IndexOf(us, FROM) + 1] in Tokens(input);
    } else {
      assert us[1] in Tokens(input);
    }
  }

  /** An insertion is read up to the first closing parenthesis, if there is one. */
  lemma InsertOf(table: string, list: seq<Token>)
    ensures var st := ParseTokens([Token(INSERT, "INSERT")] + ([Token(INTO, "INTO")] + ([Token(IDENTIFIER, table)]
                      + ([Token(VALUES, "VALUES")] + ([Token(LPAREN, "(")] + list)))));
            st.Some? ==> st == Some(Insert(table, Listed(list, RPAREN, IsValue)))
  {
    hide IndexOf, Accepted;
    FiveThen(Token(INSERT, "INSERT"), Token(INTO, "INTO"), Token(IDENTIFIER, table), Token(VALUES, "VALUES"),
             Token(LPAREN, "("), list);
    var ts := [Token(INSERT, "INSERT")] + ([Token(INTO, "INTO")] + ([Token(IDENTIFIER, table)]
              + ([Token(VALUES, "VALUES")] + ([Token(LPAREN, "(")] + list))));
    assert ts[1..][4..] == ts[5..];
  }

  /** Parsing what was printed gives the statement back, up to the empty select list, exactly
      when all its names are identifiers that are no keywords, its values are such identifiers
      or digit strings, and its select items such identifiers or asterisks. */
  lemma RoundTrip(st: Statement)
    ensures Parse(Print(st)) == Some(Normal(st)) <==> Printable(st)
  {
    hide Parse, Print, IsName, IsNumber;
    if Printable(st) {
      PrintableReadsBack(st);
    } else if Parse(Print(st)) == Some(Normal(st)) {
      if st.Insert? {
        InsertReturnsOnlyPlain(st.table, st.values);
      } else {
        ParsedIsPrintable(Print(st));
      }
    }
  }

  /** Reparsing the printed form of whatever was parsed changes nothing, exactly when it does
      not insert a value that is neither a name nor a number. */
  lemma Reparse(input: string)
    requires Parse(input).Some?
    ensures var st := Parse(input).value;
            Parse(Print(st)) == Some(Normal(st)) <==> (st.Insert? ==> forall v <- st.values :: IsName(v) || IsNumber(v))
  {
    hide Parse, Print, IsName, IsNumber;
    RoundTrip(Parse(input).value);
    if Parse(input).value.Insert? ==> forall v <- Parse(input).value.values :: IsName(v) || IsNumber(v) {
      ParsedIsPrintable(input);
    }
  }

  // String values are printed without their quotes, so they need not survive.

  lemma TwoWordsTokens()
    ensures Tokens("a b)") == [Token(IDENTIFIER, "a")] + ([Token(IDENTIFIER, "b")] + [Token(RPAREN, ")")])
  {
    hide Tokens, LookupIdent;
    assert IsName("a") && IsName("b") by { SingleLetters(); }
    assert "a b)" == "a" + (" " + ("b" + ")"));
    WordThenSpace("a", IDENTIFIER, "b" + ")");
    ParenBreaks();
    WordTokens("b", IDENTIFIER, ")");
    ParenAlone();
  }

  lemma SingleLetters()
    ensures IsName("a") && IsName("b") && IsName("t")
  {
    assert Upper("a") == "A" && Upper("b") == "B" && Upper("t") == "T";
  }

  /** A string value with a space in it comes back as two values. */
  lemma StringValueLost()
    ensures Parse(Print(Insert("t", ["a b"]))) == Some(Insert("t", ["a", "b"]))
  {
    hide Tokens, LookupIdent, ParseTokens, Accepted, IndexOf;
    SingleLetters();
    assert Join(["a b"]) == "a b" && "a b" + ")" == "a b)";
    InsertHead("t", "a b");
    TwoWordsTokens();
    var ts := [Token(IDENTIFIER, "a")] + ([Token(IDENTIFIER, "b")] + [Token(RPAREN, ")")]);
    assert IndexOf(ts, RPAREN) == 2 && Accepted(ts[..2], IsValue) == ["a", "b"] by { TwoWordsAccepted(); }
    ParseInsertOf("t", ts);
  }

  lemma TwoWordsAccepted()
    ensures var ts := [Token(IDENTIFIER, "a")] + ([Token(IDENTIFIER, "b")] + [Token(RPAREN, ")")]);
            IndexOf(ts, RPAREN) == 2 && Accepted(ts[..2], IsValue) == ["a", "b"]
  {
    var ts := [Token(IDENTIFIER, "a")] + ([Token(IDENTIFIER, "b")] + [Token(RPAREN, ")")]);
    assert ts == [Token(IDENTIFIER, "a"), Token(IDENTIFIER, "b"), Token(RPAREN, ")")];
    assert IndexOf(ts, RPAREN) == 2 by {
      assert ts[0].kind == IDENTIFIER && ts[1].kind == IDENTIFIER && ts[2].kind == RPAREN;
    }
    var us := ts[..2];
    assert us == [Token(IDENTIFIER, "a"), Token(IDENTIFIER, "b")];
    assert us[1..] == [Token(IDENTIFIER, "b")] && us[1..][1..] == [];
    assert Accepted(us[1..], IsValue) == ["b"];
  }
}
