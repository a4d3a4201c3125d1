/** The scanner loses nothing and always reaches the end. */
module SqlTiling {
  import opened SqlLexer

  /** A token's text with the white space before it. */
  datatype Piece = Piece(space: string, text: string)

  function Pieces(s: string): seq<Piece>
    decreases |s|
  {
    var n := Span(s, IsSpace);
    var t := s[n..];
    if t == [] || t[0] == NUL then [] else [Piece(s[..n], t[..Scan(t).0])] + Pieces(t[Scan(t).0..])
  }

  /** Where scanning meets its first end of file. */
  function Tail(s: string): string
    decreases |s|
  {
    var t := s[Span(s, IsSpace)..];
    if t == [] || t[0] == NUL then s else Tail(t[Scan(t).0..])
  }

  function Glue(ps: seq<Piece>): string {
    if ps == [] then [] else ps[0].space + ps[0].text + Glue(ps[1..])
  }

  /** `text` is a way to write `token`: its literal, between quotes if it is a string; the
      closing quote may be missing at the end. */
  ghost predicate Spells(token: Token, text: string) {
    if token.kind == STRING_LITERAL then
      && text != [] && IsQuote(text[0])
      && (forall c <- token.literal :: c != text[0] && c != NUL)
      && (text == [text[0]] + token.literal || text == [text[0]] + token.literal + [text[0]])
    else
      text == token.literal
  }

  ghost predicate AllSpace(s: string) {
    forall c <- s :: IsSpace(c)
  }

  lemma ScanSpells(t: string)
    requires t != [] && t[0] != NUL
    ensures Spells(Scan(t).1, t[..Scan(t).0])
  {
    hide LookupIdent;
    if IsQuote(t[0]) {
      var n := Span(t[1..], InString(t[0]));
      var body := t[1..1 + n];
      forall i | 0 <= i < |body| ensures body[i] != t[0] && body[i] != NUL {
        assert InString(t[0])(t[1..][i]);
      }
      if 1 + n < |t| && t[1 + n] == t[0] {
        assert t[..n + 2] == [t[0]] + t[1..1 + n] + [t[0]];
      } else {
        assert t[..n + 1] == [t[0]] + t[1..1 + n];
      }
    } else if IsLetter(t[0]) {
      LookupIsWordKind(t[..Span(t, IsWordChar)]);
    }
  }

  lemma LookupIsWordKind(w: string)
    ensures LookupIdent(w) != STRING_LITERAL
  {
  }

  // One step of the scan, for each of the functions that follow it.

  ghost predicate AtEnd(s: string) {
    var t := s[Span(s, IsSpace)..];
    t == [] || t[0] == NUL
  }

  lemma PiecesStep(s: string)
    ensures AtEnd(s) ==> Pieces(s) == []
    ensures !AtEnd(s) ==>
              var n := Span(s, IsSpace);
              var t := s[n..];
              Pieces(s) == [Piece(s[..n], t[..Scan(t).0])] + Pieces(t[Scan(t).0..])
  {
    hide Scan, Span;
  }

  lemma TokensStep(s: string)
    ensures AtEnd(s) ==> Tokens(s) == []
    ensures !AtEnd(s) ==>
              var t := s[Span(s, IsSpace)..];
              Tokens(s) == [Scan(t).1] + Tokens(t[Scan(t).0..])
  {
    hide Scan, Span;
  }

  lemma TailStep(s: string)
    ensures AtEnd(s) ==> Tail(s) == s
    ensures !AtEnd(s) ==>
              var t := s[Span(s, IsSpace)..];
              Tail(s) == Tail(t[Scan(t).0..])
  {
    hide Scan, Span;
  }

  lemma OneStep(s: string)
    ensures var n := Span(s, IsSpace);
            var t := s[n..];
            if t == [] || t[0] == NUL then Pieces(s) == [] && Tokens(s) == [] && Tail(s) == s
            else
              var (k, token) := Scan(t);
              && Pieces(s) == [Piece(s[..n], t[..k])] + Pieces(t[k..])
              && Tokens(s) == [token] + Tokens(t[k..])
              && Tail(s) == Tail(t[k..])
              && s == s[..n] + t[..k] + t[k..]
              && |t[k..]| < |s|
  {
    hide Scan, Span, Pieces, Tokens, Tail;
    PiecesStep(s);
    TokensStep(s);
    TailStep(s);
  }

  lemma {:induction false} GlueAndTail(s: string)
    ensures Glue(Pieces(s)) + Tail(s) == s
    ensures |Pieces(s)| == |Tokens(s)| <= |s|
    ensures var r := Tail(s)[Span(Tail(s), IsSpace)..]; r == [] || r[0] == NUL
    decreases |s|
  {
    hide Scan, Span, Pieces, Tokens, Tail;
    OneStep(s);
    var n := Span(s, IsSpace);
    var t := s[n..];
    if t != [] && t[0] != NUL {
      var k := Scan(t).0;
      GlueAndTail(t[k..]);
      assert Pieces(s)[1..] == Pieces(t[k..]);
    }
  }

  lemma {:induction false} EachPieceSpells(s: string, i: nat)
    requires i < |Pieces(s)|
    ensures |Pieces(s)| == |Tokens(s)|
    ensures AllSpace(Pieces(s)[i].space) && Spells(Tokens(s)[i], Pieces(s)[i].text)
    decreases |s|
  {
    hide Scan, Span, Pieces, Tokens, Tail, Spells;
    OneStep(s);
    GlueAndTail(s);
    var n := Span(s, IsSpace);
    var t := s[n..];
    var k := Scan(t).0;
    if i == 0 {
      ScanSpells(t);
    } else {
      EachPieceSpells(t[k..], i - 1);
    }
  }

  /** Token texts and the white space between them concatenate back to the input, up to the
      white space before its end or its first NUL outside a token. */
  lemma Tiling(s: string)
    ensures Glue(Pieces(s)) + Tail(s) == s
    ensures |Pieces(s)| == |Tokens(s)| <= |s|
    ensures forall i | 0 <= i < |Pieces(s)| :: AllSpace(Pieces(s)[i].space) && Spells(Tokens(s)[i], Pieces(s)[i].text)
    ensures var r := Tail(s)[Span(Tail(s), IsSpace)..]; r == [] || r[0] == NUL
  {
    hide *;
    GlueAndTail(s);
    forall i | 0 <= i < |Pieces(s)| ensures AllSpace(Pieces(s)[i].space) && Spells(Tokens(s)[i], Pieces(s)[i].text) {
      EachPieceSpells(s, i);
    }
  }

  /** The text that remains after `n` calls of next_token. */
  function After(s: string, n: nat): string {
    if n == 0 then s else Next(After(s, n - 1)).1
  }

  lemma {:induction false} AfterFirst(s: string, n: nat)
    ensures After(s, n + 1) == After(Next(s).1, n)
  {
    hide Next;
    if n > 0 {
      AfterFirst(s, n - 1);
    }
  }

  lemma {:induction false} TailReached(s: string)
    ensures After(s, |Tokens(s)|) == Tail(s)
    decreases |s|
  {
    hide Scan, Span, Pieces, Tokens, Tail, After;
    OneStep(s);
    if AtEnd(s) {
      AfterNone(s);
    } else {
      TailReached(Next(s).1);
      AfterFirst(s, |Tokens(s)| - 1);
    }
  }

  lemma AfterNone(s: string)
    ensures After(s, 0) == s
  {
  }

  ghost predicate Blank(s: string) {
    forall c <- s :: IsSpace(c) || c == NUL
  }

  lemma BlankNext(s: string)
    ensures Blank(s) <==> Next(s).0.kind == END_OF_FILE && Blank(Next(s).1)
  {
    hide Scan, Span, Blank;
    var n := Span(s, IsSpace);
    var t := s[n..];
    assert s == s[..n] + t;
    BlankParts(s[..n], t);
    SpacesAreBlank(s, n);
    if t == [] {
      NothingIsBlank();
    } else {
      assert t == [t[0]] + t[1..];
      BlankParts([t[0]], t[1..]);
      OneBlank(t[0]);
    }
  }

  lemma BlankParts(a: string, b: string)
    ensures Blank(a + b) <==> Blank(a) && Blank(b)
  {
  }

  lemma SpacesAreBlank(s: string, n: nat)
    requires n <= |s| && (forall i | 0 <= i < n :: IsSpace(s[i]))
    ensures Blank(s[..n])
  {
  }

  lemma NothingIsBlank()
    ensures Blank("")
  {
  }

  lemma OneBlank(c: char)
    ensures Blank([c]) <==> IsSpace(c) || c == NUL
  {
    assert c in [c];
  }

  lemma {:induction false} BlankAfter(s: string, n: nat)
    requires Blank(s)
    ensures Blank(After(s, n)) && Next(After(s, n)).0.kind == END_OF_FILE
  {
    hide Next, Blank;
    if n > 0 {
      BlankAfter(s, n - 1);
      BlankNext(After(s, n - 1));
    }
    BlankNext(After(s, n));
  }

  /** Call number `n`, counted from zero, returns an end of file. */
  ghost predicate AtEof(s: string, n: nat) {
    Next(After(s, n)).0.kind == END_OF_FILE
  }

  ghost predicate OnlyEof(s: string) {
    forall n: nat :: AtEof(s, n)
  }

  lemma {:induction false} OnlyEofMeansBlank(s: string)
    requires OnlyEof(s)
    ensures Blank(s)
    decreases |s|
  {
    assert AtEof(s, 0) && After(s, 0) == s;
    if |Next(s).1| < |s| {
      forall n: nat ensures AtEof(Next(s).1, n) {
        AfterFirst(s, n);
        assert AtEof(s, n + 1);
      }
      OnlyEofMeansBlank(Next(s).1);
      BlankNext(s);
    }
  }

  /** Scanning is at the end of file for good exactly when only white space and NULs remain. */
  lemma EofForGood(s: string)
    ensures OnlyEof(s) <==> Blank(s)
  {
    hide Next, After, Blank;
    if Blank(s) {
      forall n: nat ensures AtEof(s, n) {
        BlankAfter(s, n);
      }
    } else if OnlyEof(s) {
      OnlyEofMeansBlank(s);
    }
  }

  lemma TailIsBlank(s: string)
    requires NUL !in s
    ensures Blank(Tail(s))
  {
    hide Tail, Pieces, Span, Glue, Blank;
    GlueAndTail(s);
    var u := Tail(s);
    var n := Span(u, IsSpace);
    SuffixWithoutNul(Glue(Pieces(s)), u);
    assert u == u[..n] + u[n..];
    SpacesAreBlank(u, n);
    assert forall c <- u[n..] :: c in u;
    assert u[..n] + [] == u[..n];
  }

  lemma SuffixWithoutNul(a: string, b: string)
    requires NUL !in a + b
    ensures NUL !in b
  {
    forall i | 0 <= i < |b| ensures b[i] != NUL {
      assert (a + b)[|a| + i] == b[i];
    }
  }

  /** On text without NULs, after at most |s| tokens every further call is an end of file. */
  lemma ReachesEof(s: string, n: nat)
    requires NUL !in s
    ensures |Tokens(s)| <= |s|
    ensures n >= |Tokens(s)| ==> AtEof(s, n)
  {
    hide Next, Tokens, Tail, Pieces, After, Blank;
    GlueAndTail(s);
    TailReached(s);
    TailIsBlank(s);
    if n >= |Tokens(s)| {
      BlankAfter(Tail(s), n - |Tokens(s)|);
      AfterSum(s, |Tokens(s)|, n - |Tokens(s)|);
    }
  }

  lemma {:induction false} AfterSum(s: string, m: nat, n: nat)
    ensures After(s, m + n) == After(After(s, m), n)
  {
    hide Next;
    if n > 0 {
      AfterSum(s, m, n - 1);
      assert After(s, m + n) == Next(After(s, m + n - 1)).1;
    }
  }
}
