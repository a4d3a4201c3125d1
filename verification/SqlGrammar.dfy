/**
 What the parser accepts, said without the parser: which tokens stand where, and that a list is
 made of the tokens of certain kinds before the one that ends it, each once and in their order.
 */
module SqlGrammar {
  import opened Wrappers
  import opened Sequences
  import opened SqlLexer
  import opened SqlParser
  import opened SqlReadBack

  /** `out` are the literals of the tokens at the positions `at`: all those of the given kinds. */
  ghost predicate Picks(ts: seq<Token>, kinds: set<TokenType>, at: seq<nat>, out: seq<string>) {
    && |at| == |out| && (at == [] || at[|at| - 1] < |ts|)
    && (forall j | 0 <= j < |at| :: at[j] < |ts| && ts[at[j]].kind in kinds && ts[at[j]].literal == out[j])
    && (forall i, j | 0 <= i < j < |at| :: at[i] < at[j])
    && (forall i | 0 <= i < |ts| && ts[i].kind in kinds :: i in at)
  }

  ghost predicate Selected(ts: seq<Token>, kinds: set<TokenType>, out: seq<string>) {
    exists at :: Picks(ts, kinds, at, out)
  }

  /** Position `n` has the first token of kind `stop` from `from` on. */
  ghost predicate FirstFrom(ts: seq<Token>, from: nat, n: nat, stop: TokenType) {
    from <= n < |ts| && ts[n].kind == stop && forall i | from <= i < n :: ts[i].kind != stop
  }

  ghost predicate Derives(ts: seq<Token>, st: Statement) {
    match st
    case Create(table, columns) =>
      && |ts| >= 4 && ts[0].kind == CREATE && ts[1].kind == TABLE && ts[2] == Token(IDENTIFIER, table)
      && ts[3].kind == LPAREN
      && exists n: nat | FirstFrom(ts, 4, n, RPAREN) :: Selected(ts[4..n], {IDENTIFIER}, columns)
    case Insert(table, values) =>
      && |ts| >= 5 && ts[0].kind == INSERT && ts[1].kind == INTO && ts[2] == Token(IDENTIFIER, table)
      && ts[3].kind == VALUES && ts[4].kind == LPAREN
      && exists n: nat | FirstFrom(ts, 5, n, RPAREN) :: Selected(ts[5..n], {STRING_LITERAL, NUMBER, IDENTIFIER}, values)
    case Select(table, columns) =>
      && |ts| >= 1 && ts[0].kind == SELECT
      && exists n: nat | FirstFrom(ts, 1, n, FROM) ::
           && n + 1 < |ts| && ts[n + 1] == Token(IDENTIFIER, table)
           && Selected(ts[1..n], {ASTERISK, IDENTIFIER}, columns)
  }

  // Lists

  lemma {:induction false} AcceptedLast(ts: seq<Token>, t: Token, accept: TokenType -> bool)
    ensures Accepted(ts + [t], accept) == Accepted(ts, accept) + Item(t, accept)
  {
    hide Accepted;
    NoneAccepted(accept);
    if ts == [] {
      AcceptedFirst(t, [], accept);
      assert ts + [t] == [t] + [] && [] + Item(t, accept) == Item(t, accept) + [];
    } else {
      var rest := ts[1..];
      AcceptedLast(rest, t, accept);
      AcceptedFirst(ts[0], rest, accept);
      AcceptedFirst(ts[0], rest + [t], accept);
      assert ts == [ts[0]] + rest && ts + [t] == [ts[0]] + (rest + [t]);
      Associative(Item(ts[0], accept), Accepted(rest, accept), Item(t, accept));
    }
  }

  lemma PicksMore(ts: seq<Token>, t: Token, kinds: set<TokenType>, at: seq<nat>, out: seq<string>)
    requires Picks(ts, kinds, at, out)
    ensures t.kind in kinds ==> Picks(ts + [t], kinds, at + [|ts|], out + [t.literal])
    ensures t.kind !in kinds ==> Picks(ts + [t], kinds, at, out)
  {
    var us := ts + [t];
    assert forall i | 0 <= i < |ts| :: us[i] == ts[i];
    if t.kind in kinds {
      var bt := at + [|ts|];
      assert bt[|at|] == |ts|;
      assert forall i <- at :: i in bt;
    }
  }

  /** Leaving the last token out. */
  lemma PicksLess(ts: seq<Token>, t: Token, kinds: set<TokenType>, at: seq<nat>, out: seq<string>)
    requires Picks(ts + [t], kinds, at, out)
    ensures t.kind in kinds ==>
              && at != [] && |at| == |out| && out[|out| - 1] == t.literal
              && Picks(ts, kinds, at[..|at| - 1], out[..|out| - 1])
    ensures t.kind !in kinds ==> Picks(ts, kinds, at, out)
  {
    var us, n := ts + [t], |at| - 1;
    assert us[|ts|] == t;
    assert forall i | 0 <= i < |ts| :: us[i] == ts[i];
    if t.kind in kinds {
      var last :| 0 <= last < |at| && at[last] == |ts|;
      assert at[n] < |us|;
      assert last == n;
      forall i | 0 <= i < |ts| && ts[i].kind in kinds ensures i in at[..n] {
        var j :| 0 <= j < |at| && at[j] == i;
        assert at[..n][j] == i;
      }
    }
  }

  lemma {:induction false} AcceptedIsSelected(ts: seq<Token>, accept: TokenType -> bool, kinds: set<TokenType>)
    requires forall k :: accept(k) <==> k in kinds
    ensures Selected(ts, kinds, Accepted(ts, accept))
  {
    hide Picks, Accepted;
    if ts == [] {
      NothingPicked(accept, kinds);
    } else {
      var us, t := ts[..|ts| - 1], ts[|ts| - 1];
      AcceptedIsSelected(us, accept, kinds);
      var at :| Picks(us, kinds, at, Accepted(us, accept));
      PicksMore(us, t, kinds, at, Accepted(us, accept));
      AcceptedLast(us, t, accept);
      assert us + [t] == ts;
      assert Accepted(us, accept) + [] == Accepted(us, accept);
    }
  }

  lemma NothingPicked(accept: TokenType -> bool, kinds: set<TokenType>)
    ensures Picks([], kinds, [], []) && Accepted([], accept) == []
    ensures forall at, out :: Picks([], kinds, at, out) ==> out == []
  {
  }

  lemma {:induction false} PickedIsAccepted(
    ts: seq<Token>, accept: TokenType -> bool, kinds: set<TokenType>, at: seq<nat>, out: seq<string>)
    requires (forall k :: accept(k) <==> k in kinds) && Picks(ts, kinds, at, out)
    ensures out == Accepted(ts, accept)
    decreases |ts|
  {
    hide Picks, Accepted;
    NothingPicked(accept, kinds);
    if ts != [] {
      var us, t, n := ts[..|ts| - 1], ts[|ts| - 1], |out| - 1;
      assert us + [t] == ts;
      AcceptedLast(us, t, accept);
      PicksLess(us, t, kinds, at, out);
      if t.kind in kinds {
        PickedIsAccepted(us, accept, kinds, at[..n], out[..n]);
        assert out == out[..n] + [out[n]];
      } else {
        PickedIsAccepted(us, accept, kinds, at, out);
        assert out + [] == out;
      }
    }
  }

  /** A list is what is selected, and nothing else is. */
  lemma SelectedExact(ts: seq<Token>, accept: TokenType -> bool, kinds: set<TokenType>, out: seq<string>)
    requires forall k :: accept(k) <==> k in kinds
    ensures Selected(ts, kinds, out) <==> out == Accepted(ts, accept)
  {
    hide Picks;
    AcceptedIsSelected(ts, accept, kinds);
    if Selected(ts, kinds, out) {
      var at :| Picks(ts, kinds, at, out);
      PickedIsAccepted(ts, accept, kinds, at, out);
    }
  }

  // Statements

  /** The first token of a kind, seen from the start and from behind the head. */
  lemma FirstIs(ts: seq<Token>, from: nat, stop: TokenType, n: nat)
    requires from <= |ts|
    ensures FirstFrom(ts, from, n, stop) <==>
            from <= n < |ts| && IndexOf(ts[from..], stop) == n - from
  {
    hide IndexOf;
    var list := ts[from..];
    var m := IndexOf(list, stop);
    assert forall i | from <= i < |ts| :: ts[i] == list[i - from];
    if FirstFrom(ts, from, n, stop) {
      assert list[n - from].kind == stop;
    }
  }

  lemma ListDerived(ts: seq<Token>, from: nat, stop: TokenType, accept: TokenType -> bool, kinds: set<TokenType>,
                    out: seq<string>, n: nat)
    requires from <= |ts| && FirstFrom(ts, from, n, stop) && forall k :: accept(k) <==> k in kinds
    ensures IndexOf(ts[from..], stop) == n - from < |ts[from..]|
    ensures Selected(ts[from..n], kinds, out) <==> out == Accepted(ts[from..][..n - from], accept)
  {
    hide IndexOf, Selected, Accepted;
    FirstIs(ts, from, stop, n);
    SelectedExact(ts[from..n], accept, kinds, out);
    assert ts[from..][..n - from] == ts[from..n];
  }

  lemma ListMissing(ts: seq<Token>, from: nat, stop: TokenType)
    requires from <= |ts| && IndexOf(ts[from..], stop) < |ts[from..]|
    ensures FirstFrom(ts, from, from + IndexOf(ts[from..], stop), stop)
  {
    hide IndexOf, FirstFrom;
    FirstIs(ts, from, stop, from + IndexOf(ts[from..], stop));
  }

  lemma CreateDerived(ts: seq<Token>, table: string, columns: seq<string>)
    requires ts != [] && ts[0].kind == CREATE
    ensures ParseCreate(ts[1..]) == Some(Create(table, columns)) <==> Derives(ts, Create(table, columns))
  {
    hide IndexOf, Selected, Accepted, FirstFrom;
    if |ts| >= 4 {
      assert ts[1..][3..] == ts[4..];
      forall n: nat | FirstFrom(ts, 4, n, RPAREN)
        ensures IndexOf(ts[4..], RPAREN) == n - 4 < |ts[4..]|
        ensures Selected(ts[4..n], {IDENTIFIER}, columns) <==> columns == Accepted(ts[4..][..n - 4], IsColumn)
      {
        ListDerived(ts, 4, RPAREN, IsColumn, {IDENTIFIER}, columns, n);
      }
      if IndexOf(ts[4..], RPAREN) < |ts[4..]| {
        ListMissing(ts, 4, RPAREN);
      }
    }
  }

  lemma InsertDerived(ts: seq<Token>, table: string, values: seq<string>)
    requires ts != [] && ts[0].kind == INSERT
    ensures ParseInsert(ts[1..]) == Some(Insert(table, values)) <==> Derives(ts, Insert(table, values))
  {
    hide IndexOf, Selected, Accepted, FirstFrom;
    if |ts| >= 5 {
      assert ts[1..][4..] == ts[5..];
      var kinds := {STRING_LITERAL, NUMBER, IDENTIFIER};
      forall n: nat | FirstFrom(ts, 5, n, RPAREN)
        ensures IndexOf(ts[5..], RPAREN) == n - 5 < |ts[5..]|
        ensures Selected(ts[5..n], kinds, values) <==> values == Accepted(ts[5..][..n - 5], IsValue)
      {
        ListDerived(ts, 5, RPAREN, IsValue, kinds, values, n);
      }
      if IndexOf(ts[5..], RPAREN) < |ts[5..]| {
        ListMissing(ts, 5, RPAREN);
      }
    }
  }

  lemma SelectDerived(ts: seq<Token>, table: string, columns: seq<string>)
    requires ts != [] && ts[0].kind == SELECT
    ensures ParseSelect(ts[1..]) == Some(Select(table, columns)) <==> Derives(ts, Select(table, columns))
  {
    hide IndexOf, Selected, Accepted, FirstFrom;
    var kinds := {ASTERISK, IDENTIFIER};
    forall n: nat | FirstFrom(ts, 1, n, FROM)
      ensures IndexOf(ts[1..], FROM) == n - 1 < |ts[1..]|
      ensures Selected(ts[1..n], kinds, columns) <==> columns == Accepted(ts[1..][..n - 1], IsSelectItem)
    {
      ListDerived(ts, 1, FROM, IsSelectItem, kinds, columns, n);
    }
    if IndexOf(ts[1..], FROM) < |ts[1..]| {
      ListMissing(ts, 1, FROM);
    }
  }

  /** The parser accepts a sequence of tokens as a statement exactly if the tokens derive it. */
  lemma ParseExact(ts: seq<Token>, st: Statement)
    ensures ParseTokens(ts) == Some(st) <==> Derives(ts, st)
  {
    hide ParseCreate, ParseInsert, ParseSelect, Selected, FirstFrom;
    KindsOfStatements(ts);
    if ts != [] {
      match st {
        case Create(table, columns) => if ts[0].kind == CREATE { CreateDerived(ts, table, columns); }
        case Insert(table, values) => if ts[0].kind == INSERT { InsertDerived(ts, table, values); }
        case Select(table, columns) => if ts[0].kind == SELECT { SelectDerived(ts, table, columns); }
      }
    }
  }

  lemma KindsOfStatements(ts: seq<Token>)
    ensures var st := ParseTokens(ts);
            st.Some? ==>
              && ts != [] && (st.value.Create? <==> ts[0].kind == CREATE)
              && (st.value.Insert? <==> ts[0].kind == INSERT) && (st.value.Select? <==> ts[0].kind == SELECT)
  {
    hide IndexOf, Accepted;
  }
}
