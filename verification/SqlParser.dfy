/**
 The SQL parser. `ParseTokens` says what a statement is in terms of the token sequence: the
 keywords in their places, and a list that is just the accepted tokens before the closing one,
 with or without commas. The parser object gets there with one token of lookahead.
 */
module SqlParser {
  import opened Wrappers
  import opened Sequences
  import opened SqlLexer

  datatype Statement =
    | Create(table: string, columns: seq<string>)
    | Insert(table: string, values: seq<string>)
    | Select(table: string, columns: seq<string>)

  predicate IsColumn(k: TokenType) { k == IDENTIFIER }
  predicate IsValue(k: TokenType) { k == STRING_LITERAL || k == NUMBER || k == IDENTIFIER }
  predicate IsSelectItem(k: TokenType) { k == ASTERISK || k == IDENTIFIER }

  /** The position of the first token of kind `k`, or the length. */
  function IndexOf(ts: seq<Token>, k: TokenType): (n: nat)
    ensures n <= |ts|
    ensures n < |ts| ==> ts[n].kind == k
    ensures forall i | 0 <= i < n :: ts[i].kind != k
  {
    if ts == [] || ts[0].kind == k then 0 else 1 + IndexOf(ts[1..], k)
  }

  /** The literals of the tokens of accepted kinds, in order. */
  function Accepted(ts: seq<Token>, accept: TokenType -> bool): seq<string> {
    if ts == [] then []
    else (if accept(ts[0].kind) then [ts[0].literal] else []) + Accepted(ts[1..], accept)
  }

  function ParseCreate(ts: seq<Token>): Option<Statement> {
    if |ts| < 3 || ts[0].kind != TABLE || ts[1].kind != IDENTIFIER || ts[2].kind != LPAREN then None
    else
      var list := ts[3..];
      var n := IndexOf(list, RPAREN);
      if n == |list| then None else Some(Create(ts[1].literal, Accepted(list[..n], IsColumn)))
  }

  function ParseInsert(ts: seq<Token>): Option<Statement> {
    if |ts| < 4 || ts[0].kind != INTO || ts[1].kind != IDENTIFIER
       || ts[2].kind != VALUES || ts[3].kind != LPAREN then None
    else
      var list := ts[4..];
      var n := IndexOf(list, RPAREN);
      if n == |list| then None else Some(Insert(ts[1].literal, Accepted(list[..n], IsValue)))
  }

  function ParseSelect(ts: seq<Token>): Option<Statement> {
    var n := IndexOf(ts, FROM);
    if n + 1 >= |ts| || ts[n + 1].kind != IDENTIFIER then None
    else Some(Select(ts[n + 1].literal, Accepted(ts[..n], IsSelectItem)))
  }

  /** Parser::parse_statement */
  function ParseTokens(ts: seq<Token>): Option<Statement> {
    if ts == [] then None
    else match ts[0].kind
      case CREATE => ParseCreate(ts[1..])
      case INSERT => ParseInsert(ts[1..])
      case SELECT => ParseSelect(ts[1..])
      case _ => None
  }

  function Parse(input: string): Option<Statement> {
    ParseTokens(Tokens(input))
  }

  /** What a list that ends with `stop` contains, and what comes after its items. */
  ghost function Listed(ts: seq<Token>, stop: TokenType, accept: TokenType -> bool): seq<string> {
    Accepted(ts[..IndexOf(ts, stop)], accept)
  }

  ghost function Beyond(ts: seq<Token>, stop: TokenType): seq<Token> {
    ts[IndexOf(ts, stop)..]
  }

  ghost function Item(t: Token, accept: TokenType -> bool): seq<string> {
    if accept(t.kind) then [t.literal] else []
  }

  ghost function ClosedList(ts: seq<Token>, accept: TokenType -> bool): Option<seq<string>> {
    if IndexOf(ts, RPAREN) == |ts| then None else Some(Listed(ts, RPAREN, accept))
  }

  lemma ListStep(ts: seq<Token>, stop: TokenType, accept: TokenType -> bool)
    requires ts != [] && ts[0].kind != stop
    ensures Listed(ts, stop, accept) == Item(ts[0], accept) + Listed(ts[1..], stop, accept)
    ensures Beyond(ts, stop) == Beyond(ts[1..], stop)
  {
    var n := IndexOf(ts[1..], stop);
    assert IndexOf(ts, stop) == n + 1;
    assert ts[..n + 1][0] == ts[0] && ts[..n + 1][1..] == ts[1..][..n];
  }

  lemma ListDone(ts: seq<Token>, stop: TokenType, accept: TokenType -> bool)
    requires ts == [] || ts[0].kind == stop
    ensures Listed(ts, stop, accept) == [] && Beyond(ts, stop) == ts
  {
  }

  class Parser {
    const lexer: Lexer
    var current: Token
    var peek: Token

    ghost predicate Valid()
      reads this, lexer
    {
      lexer.Valid()
    }

    /** The tokens that come after the current one. */
    ghost function Ahead(): seq<Token>
      reads this, lexer
    {
      if peek.kind == END_OF_FILE then [] else [peek] + Tokens(lexer.Rest())
    }

    constructor (lexer: Lexer)
      requires lexer.Valid()
      modifies lexer
      ensures Valid() && this.lexer == lexer
      ensures var ts := Tokens(old(lexer.Rest()));
              if ts == [] then current.kind == END_OF_FILE else current == ts[0] && Ahead() == ts[1..]
    {
      this.lexer := lexer;
      current, peek := EOF_TOKEN, EOF_TOKEN;
      new;
      hide Next;
      NextToken();
      NextToken();
    }

    method NextToken()
      requires Valid()
      modifies this, lexer
      ensures Valid()
      ensures current == old(peek) && (peek, lexer.Rest()) == Next(old(lexer.Rest()))
      ensures old(Ahead()) != [] ==> current == old(Ahead())[0] && Ahead() == old(Ahead())[1..]
    {
      hide Next;
      current := peek;
      peek := lexer.NextToken();
    }

    method ExpectPeek(kind: TokenType) returns (ok: bool)
      requires Valid() && kind != END_OF_FILE
      modifies this, lexer
      ensures Valid()
      ensures ok <==> old(Ahead()) != [] && old(Ahead())[0].kind == kind
      ensures ok ==> current == old(Ahead())[0] && Ahead() == old(Ahead())[1..]
    {
      ok := peek.kind == kind;
      if ok {
        NextToken();
      }
    }

    /** The loop that the three statements share: up to `stop` or the end, keep the accepted
        literals, and let at most one comma pass after each token. */
    method ParseList(stop: TokenType, accept: TokenType -> bool) returns (items: seq<string>)
      requires Valid() && stop != END_OF_FILE && stop != COMMA && !accept(COMMA)
      modifies this, lexer
      ensures Valid()
      ensures items == Listed(old(Ahead()), stop, accept) && Ahead() == Beyond(old(Ahead()), stop)
    {
      hide Listed, Beyond, Tokens, Next;
      items := [];
      ghost var ts := Ahead();
      while peek.kind != stop && peek.kind != END_OF_FILE
        invariant Valid()
        invariant Listed(ts, stop, accept) == items + Listed(Ahead(), stop, accept)
        invariant Beyond(Ahead(), stop) == Beyond(ts, stop)
        decreases |Ahead()|
      {
        var item := ParseItem(stop, accept);
        Associative(items, item, Listed(Ahead(), stop, accept));
        items := items + item;
      }
      ListDone(Ahead(), stop, accept);
    }

    /** One iteration of that loop. */
    method ParseItem(stop: TokenType, accept: TokenType -> bool) returns (item: seq<string>)
      requires Valid() && stop != COMMA && !accept(COMMA)
      requires peek.kind != stop && peek.kind != END_OF_FILE
      modifies this, lexer
      ensures Valid()
      ensures Listed(old(Ahead()), stop, accept) == item + Listed(Ahead(), stop, accept)
      ensures Beyond(Ahead(), stop) == Beyond(old(Ahead()), stop)
      ensures |Ahead()| < |old(Ahead())|
    {
      hide Listed, Beyond, Tokens, Next;
      ListStep(Ahead(), stop, accept);
      NextToken();
      item := [];
      if accept(current.kind) {
        item := [current.literal];
      }
      PassComma(stop, accept);
    }

    method PassComma(stop: TokenType, ghost accept: TokenType -> bool)
      requires Valid() && stop != COMMA && !accept(COMMA)
      modifies this, lexer
      ensures Valid()
      ensures Listed(Ahead(), stop, accept) == Listed(old(Ahead()), stop, accept)
      ensures Beyond(Ahead(), stop) == Beyond(old(Ahead()), stop)
      ensures |Ahead()| <= |old(Ahead())|
    {
      hide Listed, Beyond, Tokens, Next;
      if peek.kind == COMMA {
        ListStep(Ahead(), stop, accept);
        NextToken();
      }
    }

    /** The rest of a list in parentheses. */
    method ParseClosedList(accept: TokenType -> bool) returns (items: Option<seq<string>>)
      requires Valid() && !accept(COMMA)
      modifies this, lexer
      ensures Valid()
      ensures items == ClosedList(old(Ahead()), accept)
    {
      hide IndexOf, Accepted, Tokens, Next;
      var list := ParseList(RPAREN, accept);
      var ok := ExpectPeek(RPAREN);
      items := if ok then Some(list) else None;
    }

    method ParseCreateTable() returns (stmt: Option<Statement>)
      requires Valid()
      modifies this, lexer
      ensures Valid()
      ensures stmt == ParseCreate(old(Ahead()))
    {
      hide IndexOf, Accepted, Tokens, Next;
      ghost var ts := Ahead();
      assert |ts| >= 3 ==> ts[1..][1..][1..] == ts[3..];
      var ok := ExpectPeek(TABLE);
      if !ok { return None; }
      ok := ExpectPeek(IDENTIFIER);
      if !ok { return None; }
      var table := current.literal;
      ok := ExpectPeek(LPAREN);
      if !ok { return None; }
      var columns := ParseClosedList(IsColumn);
      stmt := if columns.Some? then Some(Create(table, columns.value)) else None;
    }

    method ParseInsertInto() returns (stmt: Option<Statement>)
      requires Valid()
      modifies this, lexer
      ensures Valid()
      ensures stmt == ParseInsert(old(Ahead()))
    {
      hide IndexOf, Accepted, Tokens, Next;
      ghost var ts := Ahead();
      assert |ts| >= 4 ==> ts[1..][1..][1..][1..] == ts[4..];
      var ok := ExpectPeek(INTO);
      if !ok { return None; }
      ok := ExpectPeek(IDENTIFIER);
      if !ok { return None; }
      var table := current.literal;
      ok := ExpectPeek(VALUES);
      if !ok { return None; }
      ok := ExpectPeek(LPAREN);
      if !ok { return None; }
      var values := ParseClosedList(IsValue);
      stmt := if values.Some? then Some(Insert(table, values.value)) else None;
    }

    method ParseSelectFrom() returns (stmt: Option<Statement>)
      requires Valid()
      modifies this, lexer
      ensures Valid()
      ensures stmt == ParseSelect(old(Ahead()))
    {
      var columns := ParseList(FROM, IsSelectItem);
      var ok := ExpectPeek(FROM);
      if !ok { return None; }
      ok := ExpectPeek(IDENTIFIER);
      stmt := if ok then Some(Select(current.literal, columns)) else None;
    }

    method ParseStatement() returns (stmt: Option<Statement>)
      requires Valid()
      modifies this, lexer
      ensures Valid()
      ensures stmt == ParseTokens([old(current)] + old(Ahead()))
    {
      assert ([current] + Ahead())[1..] == Ahead();
      match current.kind {
        case CREATE => stmt := ParseCreateTable();
        case INSERT => stmt := ParseInsertInto();
        case SELECT => stmt := ParseSelectFrom();
        case _ => stmt := None;
      }
    }
  }

  lemma FirstToken(ts: seq<Token>, first: Token, ahead: seq<Token>)
    requires if ts == [] then first.kind == END_OF_FILE else first == ts[0] && ahead == ts[1..]
    ensures ParseTokens([first] + ahead) == ParseTokens(ts)
  {
    hide ParseCreate, ParseInsert, ParseSelect;
    if ts != [] {
      assert ts == [ts[0]] + ts[1..];
    }
  }

  /** Scanner and parser together, from the text to the statement. */
  method ParseText(input: string) returns (stmt: Option<Statement>)
    ensures stmt == Parse(input)
  {
    hide ParseTokens, Tokens, Next;
    var lexer := new Lexer(input);
    var parser := new Parser(lexer);
    FirstToken(Tokens(input), parser.current, parser.Ahead());
    stmt := parser.ParseStatement();
  }
}
