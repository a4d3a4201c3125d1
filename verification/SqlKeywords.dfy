/** Keywords are recognised in any letter case, and nothing else is a keyword. */
module SqlKeywords {
  import opened Wrappers
  import opened Text
  import opened Sequences
  import opened LetterCase
  import opened SqlLexer
  import opened SqlTiling
  import opened SqlParser
  import opened SqlPrinter
  import opened SqlReadBack

  /** Letter case plays no role in what a word is. */
  lemma CaseIgnored(v: string, w: string)
    requires SameWord(v, w)
    ensures LookupIdent(v) == LookupIdent(w)
  {
    hide SameWord, Upper;
    UpperWord(v, w);
  }

  /** The eight keywords, up to letter case, and no other word. */
  lemma KeywordExact(w: string)
    ensures LookupIdent(w) == SELECT <==> SameWord(w, "SELECT")
    ensures LookupIdent(w) == FROM <==> SameWord(w, "FROM")
    ensures LookupIdent(w) == WHERE <==> SameWord(w, "WHERE")
    ensures LookupIdent(w) == INSERT <==> SameWord(w, "INSERT")
    ensures LookupIdent(w) == INTO <==> SameWord(w, "INTO")
    ensures LookupIdent(w) == VALUES <==> SameWord(w, "VALUES")
    ensures LookupIdent(w) == CREATE <==> SameWord(w, "CREATE")
    ensures LookupIdent(w) == TABLE <==> SameWord(w, "TABLE")
    ensures LookupIdent(w) in [SELECT, FROM, WHERE, INSERT, INTO, VALUES, CREATE, TABLE, IDENTIFIER]
  {
    hide SameWord, Upper;
    UpperIs(w, "SELECT");
    UpperIs(w, "FROM");
    UpperIs(w, "WHERE");
    UpperIs(w, "INSERT");
    UpperIs(w, "INTO");
    UpperIs(w, "VALUES");
    UpperIs(w, "CREATE");
    UpperIs(w, "TABLE");
  }

  predicate IsKeyword(k: TokenType) {
    k in [SELECT, FROM, WHERE, INSERT, INTO, VALUES, CREATE, TABLE]
  }

  // Texts whose keywords are written in another case

  /** `v` is the first token of `t`, its keyword recased or not. */
  ghost predicate RecasedToken(t: string, v: string)
    requires t != [] && t[0] != NUL
  {
    var (k, token) := Scan(t);
    if IsKeyword(token.kind) then SameWord(v, t[..k]) else v == t[..k]
  }

  /** `r` is `s` with the letter case of its keywords changed, and nothing else. */
  ghost predicate Recased(s: string, r: string)
    decreases |s|
  {
    if AtEnd(s) then r == s
    else
      var n := Span(s, IsSpace);
      var t := s[n..];
      var k := Scan(t).0;
      && |r| == |s| && r[..n] == s[..n]
      && RecasedToken(t, r[n..n + k])
      && Recased(t[k..], r[n + k..])
  }

  lemma ClassKept(a: char, b: char)
    requires SameLetter(a, b)
    ensures IsWordChar(a) == IsWordChar(b) && IsLetter(a) == IsLetter(b)
    ensures !IsLetter(a) ==> a == b
  {
    if a != b {
      var i :| 0 <= i < 26 && ((a == SMALL[i] && b == CAPITAL[i]) || (a == CAPITAL[i] && b == SMALL[i]));
      Alphabets(i);
    }
  }

  /** Only words are keywords. */
  lemma KeywordStarts(t: string)
    requires t != [] && t[0] != NUL && IsKeyword(Scan(t).1.kind)
    ensures IsLetter(t[0]) && !IsQuote(t[0])
  {
    hide LookupIdent, Span;
  }

  lemma RecasedHead(s: string, r: string)
    requires Recased(s, r)
    ensures |r| == |s| && (s != [] ==> SameLetter(s[0], r[0]))
  {
    hide Scan, Span, SameLetter;
    if s != [] && !AtEnd(s) {
      var n := Span(s, IsSpace);
      var t := s[n..];
      var (k, token) := Scan(t);
      if n > 0 {
        assert r[..n][0] == s[..n][0];
        SameAsItself(s[0]);
      } else if IsKeyword(token.kind) {
        assert r[n..n + k][0] == r[0] && t[..k][0] == s[0];
        SameBack(r[0], s[0]);
      } else {
        assert r[n..n + k][0] == r[0] && t[..k][0] == s[0];
        SameAsItself(s[0]);
      }
    } else if s != [] {
      SameAsItself(s[0]);
    }
  }

  lemma SameAsItself(a: char)
    ensures SameLetter(a, a)
  {
  }

  lemma SameBack(a: char, b: char)
    requires SameLetter(a, b)
    ensures SameLetter(b, a)
  {
  }

  /** The text that follows a token begins alike. */
  ghost predicate BeginAlike(u: string, v: string) {
    |u| == |v| && (u != [] ==> SameLetter(u[0], v[0]))
  }

  /** A word ends where it ended. */
  lemma WordStays(t: string, v: string, u: string)
    requires t != [] && IsLetter(t[0]) && !IsQuote(t[0]) && t[0] != NUL
    requires var k := Span(t, IsWordChar); SameWord(v, t[..k]) && BeginAlike(t[k..], u)
    ensures v != [] && IsLetter(v[0]) && !IsQuote(v[0]) && v[0] != NUL
    ensures Scan(v + u) == (|v|, Token(LookupIdent(t[..|v|]), v)) && |v| == Span(t, IsWordChar)
  {
    hide LookupIdent, Span, SameLetter;
    var k := Span(t, IsWordChar);
    forall i | 0 <= i < k ensures IsWordChar(v[i]) && (i == 0 ==> IsLetter(v[0])) {
      ClassKept(v[i], t[..k][i]);
    }
    assert k > 0;
    if u != [] {
      ClassKept(t[k..][0], u[0]);
    }
    SpanExact(v, u, IsWordChar);
    assert (v + u)[..k] == v && (v + u)[0] == v[0];
    CaseIgnored(v, t[..k]);
  }

  lemma NumberStays(t: string, u: string)
    requires t != [] && IsDigit(t[0])
    requires var k := Span(t, IsDigit); BeginAlike(t[k..], u)
    ensures Scan(t[..Scan(t).0] + u) == Scan(t)
  {
    hide Scan, Span, SameLetter;
    var k := Span(t, IsDigit);
    var v := t[..k];
    var x := v + u;
    assert k > 0;
    if u != [] {
      ClassKept(t[k..][0], u[0]);
    }
    SpanExact(v, u, IsDigit);
    assert x[..k] == v && x[0] == t[0];
    NumberScan(t);
    NumberScan(x);
  }

  lemma StringStays(t: string, u: string)
    requires t != [] && IsQuote(t[0])
    requires var k := Scan(t).0; BeginAlike(t[k..], u)
    ensures Scan(t[..Scan(t).0] + u) == Scan(t)
  {
    hide LookupIdent, Span, SameLetter, SymbolType;
    var q, n := t[0], Span(t[1..], InString(t[0]));
    var k := Scan(t).0;
    var x := t[..k] + u;
    var body := t[1..][..n];
    assert x[0] == q && body == t[1..1 + n];
    if k == n + 2 {
      assert x[1..] == body + ([q] + u);
      SpanExact(body, [q] + u, InString(q));
    } else {
      assert x[1..] == body + u;
      if u != [] {
        assert t[k..][0] == t[1..][n];
        ClassKept(t[k..][0], u[0]);
      }
      SpanExact(body, u, InString(q));
    }
    assert x[1..1 + n] == body;
  }

  lemma SymbolStays(t: string, u: string)
    requires t != [] && t[0] != NUL && !IsQuote(t[0]) && !IsLetter(t[0]) && !IsDigit(t[0])
    ensures Scan(t) == (1, Token(SymbolType(t[0]), [t[0]])) && Scan(t[..1] + u) == Scan(t)
  {
    hide LookupIdent, Span, SymbolType;
    assert (t[..1] + u)[0] == t[0];
  }

  ghost function TokenOf(t: string, v: string): Token
    requires t != [] && t[0] != NUL
  {
    var token := Scan(t).1;
    if IsKeyword(token.kind) then Token(token.kind, v) else token
  }

  /** The token at the start of `t`, its keyword recased or not, is found again before any text that
      begins like the one that followed it. */
  lemma TokenStays(t: string, v: string, u: string)
    requires t != [] && t[0] != NUL
    requires BeginAlike(t[Scan(t).0..], u) && RecasedToken(t, v)
    ensures v != [] && (v + u)[0] != NUL && !IsSpace(v[0]) == !IsSpace(t[0])
    ensures Scan(v + u) == (Scan(t).0, TokenOf(t, v))
  {
    hide LookupIdent, Span, SameLetter, SymbolType, Scan;
    var k := Scan(t).0;
    if IsKeyword(Scan(t).1.kind) {
      KeywordStarts(t);
    }
    if IsQuote(t[0]) {
      StringStays(t, u);
    } else if IsLetter(t[0]) {
      WordScan(t);
      if !IsKeyword(Scan(t).1.kind) { SameWordItself(v); }
      WordStays(t, v, u);
      ClassKept(v[0], t[..k][0]);
    } else if IsDigit(t[0]) {
      NumberScan(t);
      NumberStays(t, u);
    } else {
      SymbolStays(t, u);
    }
  }

  lemma SameWordItself(v: string)
    ensures SameWord(v, v)
  {
    hide SameLetter;
    forall i | 0 <= i < |v| ensures SameLetter(v[i], v[i]) { SameAsItself(v[i]); }
  }

  lemma WordScan(t: string)
    requires t != [] && IsLetter(t[0])
    ensures Scan(t) == (Span(t, IsWordChar), Token(LookupIdent(t[..Span(t, IsWordChar)]), t[..Span(t, IsWordChar)]))
  {
    hide LookupIdent, Span;
  }

  lemma NumberScan(t: string)
    requires t != [] && IsDigit(t[0])
    ensures Scan(t) == (Span(t, IsDigit), Token(NUMBER, t[..Span(t, IsDigit)]))
  {
    hide LookupIdent, Span;
  }

  /** Tokens that are the same but for the spelling of keywords. */
  ghost predicate Alike(ts: seq<Token>, us: seq<Token>) {
    |ts| == |us| && forall i | 0 <= i < |ts| :: ts[i].kind == us[i].kind && (!IsKeyword(ts[i].kind) ==> ts[i] == us[i])
  }

  lemma AlikeCons(t: Token, ts: seq<Token>, u: Token, us: seq<Token>)
    requires Alike(ts, us) && t.kind == u.kind && (!IsKeyword(t.kind) ==> t == u)
    ensures Alike([t] + ts, [u] + us)
  {
  }

  lemma ThreeParts(r: string, n: nat, k: nat)
    requires n + k <= |r|
    ensures r == r[..n] + (r[n..n + k] + r[n + k..]) && r[n..] == r[n..n + k] + r[n + k..]
  {
  }

  /** The first token of a text `r` that consists of space, the text of a token, and a rest. */
  lemma FirstToken(r: string, n: nat, k: nat)
    requires n + k <= |r| && 0 < k && r[n] != NUL && !IsSpace(r[n])
    requires forall i | 0 <= i < n :: IsSpace(r[i])
    requires Scan(r[n..]).0 == k
    ensures Tokens(r) == [Scan(r[n..]).1] + Tokens(r[n + k..])
  {
    hide Scan, Span, Tokens, IsSpace;
    var space, t := r[..n], r[n..];
    TwoParts(r, n);
    SpanExact(space, t, IsSpace);
    TokensStep(r);
    Dropped(r, n, k);
  }

  lemma RecasedEnd(s: string, r: string)
    requires Recased(s, r) && AtEnd(s)
    ensures r == s
  {
  }

  lemma RecasedParts(s: string, r: string, n: nat, k: nat)
    requires Recased(s, r) && !AtEnd(s) && n == Span(s, IsSpace) && k == Scan(s[n..]).0
    ensures |r| == |s| && r[..n] == s[..n] && Recased(s[n..][k..], r[n + k..])
    ensures RecasedToken(s[n..], r[n..n + k])
  {
    hide Scan, Span, RecasedToken;
  }

  lemma FoundAgain(t: string, r: string, n: nat, k: nat)
    requires t != [] && t[0] != NUL && !IsSpace(t[0]) && k == Scan(t).0
    requires n + k <= |r| && RecasedToken(t, r[n..n + k]) && BeginAlike(t[k..], r[n + k..])
    requires forall i | 0 <= i < n :: IsSpace(r[i])
    ensures Tokens(r) == [TokenOf(t, r[n..n + k])] + Tokens(r[n + k..])
  {
    hide Scan, Span, Tokens, SameWord, SameLetter, IsSpace, BeginAlike;
    var v, u := r[n..n + k], r[n + k..];
    TokenStays(t, v, u);
    ThreeParts(r, n, k);
    assert v[0] == r[n] && (v + u)[0] == v[0];
    FirstToken(r, n, k);
  }

  /** The first token of a recased text, and what follows it. */
  lemma RecasedStep(s: string, r: string, n: nat, k: nat)
    requires Recased(s, r) && !AtEnd(s) && n == Span(s, IsSpace) && k == Scan(s[n..]).0
    ensures |r| == |s| && Recased(s[n..][k..], r[n + k..])
    ensures Tokens(r) == [TokenOf(s[n..], r[n..n + k])] + Tokens(r[n + k..])
  {
    hide Recased, Scan, Span, Tokens, IsSpace, RecasedToken, TokenOf, SameLetter;
    RecasedParts(s, r, n, k);
    RecasedHead(s[n..][k..], r[n + k..]);
    SpaceKept(s, r, n);
    FoundAgain(s[n..], r, n, k);
  }

  lemma SpaceKept(s: string, r: string, n: nat)
    requires n == Span(s, IsSpace) && |r| == |s| && r[..n] == s[..n]
    ensures forall i | 0 <= i < n :: IsSpace(r[i])
  {
    hide Span, IsSpace;
    forall i | 0 <= i < n ensures IsSpace(r[i]) {
      assert r[..n][i] == s[..n][i];
    }
  }

  lemma {:induction false} RecasedTokens(s: string, r: string)
    requires Recased(s, r)
    ensures Alike(Tokens(s), Tokens(r))
    decreases |s|
  {
    hide Recased, Scan, Span, Tokens, Alike;
    if AtEnd(s) {
      RecasedEnd(s, r);
      AlikeItself(Tokens(s));
    } else {
      var n := Span(s, IsSpace);
      var t := s[n..];
      var (k, token) := Scan(t);
      TokensStep(s);
      RecasedStep(s, r, n, k);
      RecasedTokens(t[k..], r[n + k..]);
      AlikeCons(token, Tokens(t[k..]), TokenOf(t, r[n..n + k]), Tokens(r[n + k..]));
    }
  }

  lemma AlikeItself(ts: seq<Token>)
    ensures Alike(ts, ts)
  {
  }

  lemma {:induction false} SameIndex(ts: seq<Token>, us: seq<Token>, k: TokenType)
    requires Alike(ts, us)
    ensures IndexOf(ts, k) == IndexOf(us, k)
  {
    hide IsKeyword;
    if ts != [] && ts[0].kind != k {
      AlikeFrom(ts, us, 1, |ts|);
      SameIndex(ts[1..], us[1..], k);
    }
  }

  lemma {:induction false} SameAccepted(ts: seq<Token>, us: seq<Token>, accept: TokenType -> bool)
    requires Alike(ts, us) && forall k | IsKeyword(k) :: !accept(k)
    ensures Accepted(ts, accept) == Accepted(us, accept)
  {
    if ts != [] {
      SameAccepted(ts[1..], us[1..], accept);
    }
  }

  lemma AlikeFrom(ts: seq<Token>, us: seq<Token>, i: nat, j: nat)
    requires Alike(ts, us) && i <= j <= |ts|
    ensures Alike(ts[i..], us[i..]) && Alike(ts[i..j], us[i..j])
  {
  }

  lemma AlikeAt(ts: seq<Token>, us: seq<Token>)
    requires Alike(ts, us)
    ensures |ts| == |us|
    ensures forall i | 0 <= i < |ts| :: ts[i].kind == us[i].kind && (ts[i].kind == IDENTIFIER ==> ts[i] == us[i])
  {
  }

  lemma SameCreate(ts: seq<Token>, us: seq<Token>)
    requires Alike(ts, us)
    ensures ParseCreate(ts) == ParseCreate(us)
  {
    hide IndexOf, Accepted, Alike;
    AlikeAt(ts, us);
    if |ts| >= 3 {
      AlikeFrom(ts, us, 3, |ts|);
      SameList(ts[3..], us[3..], RPAREN, IsColumn);
    }
  }

  lemma SameInsert(ts: seq<Token>, us: seq<Token>)
    requires Alike(ts, us)
    ensures ParseInsert(ts) == ParseInsert(us)
  {
    hide IndexOf, Accepted, Alike;
    AlikeAt(ts, us);
    if |ts| >= 4 {
      AlikeFrom(ts, us, 4, |ts|);
      SameList(ts[4..], us[4..], RPAREN, IsValue);
    }
  }

  lemma SameSelect(ts: seq<Token>, us: seq<Token>)
    requires Alike(ts, us)
    ensures ParseSelect(ts) == ParseSelect(us)
  {
    hide IndexOf, Accepted, Alike;
    AlikeAt(ts, us);
    SameList(ts, us, FROM, IsSelectItem);
  }

  lemma SameParse(ts: seq<Token>, us: seq<Token>)
    requires Alike(ts, us)
    ensures ParseTokens(ts) == ParseTokens(us)
  {
    hide ParseCreate, ParseInsert, ParseSelect, Alike;
    AlikeAt(ts, us);
    if ts != [] {
      AlikeFrom(ts, us, 1, |ts|);
      SameCreate(ts[1..], us[1..]);
      SameInsert(ts[1..], us[1..]);
      SameSelect(ts[1..], us[1..]);
    }
  }

  lemma SameList(ts: seq<Token>, us: seq<Token>, stop: TokenType, accept: TokenType -> bool)
    requires Alike(ts, us) && forall k | IsKeyword(k) :: !accept(k)
    ensures |ts| == |us| && IndexOf(ts, stop) == IndexOf(us, stop)
    ensures Accepted(ts[..IndexOf(ts, stop)], accept) == Accepted(us[..IndexOf(us, stop)], accept)
  {
    hide IndexOf, Accepted;
    SameIndex(ts, us, stop);
    var n := IndexOf(ts, stop);
    AlikeFrom(ts, us, 0, n);
    assert ts[0..n] == ts[..n] && us[0..n] == us[..n];
    SameAccepted(ts[..n], us[..n], accept);
  }

  /** A text parses the same when the letter case of its keywords is changed. */
  lemma KeywordCase(s: string, r: string)
    requires Recased(s, r)
    ensures Parse(s) == Parse(r)
  {
    hide Recased, Tokens, ParseTokens, Alike;
    RecasedTokens(s, r);
    SameParse(Tokens(s), Tokens(r));
  }

  /** A printed statement comes back whatever the letter case of its keywords. */
  lemma AnyCaseReadsBack(st: Statement, r: string)
    requires Printable(st) && Recased(Print(st), r)
    ensures Parse(r) == Some(Normal(st))
  {
    hide Recased, Parse, Print, Printable;
    PrintableReadsBack(st);
    KeywordCase(Print(st), r);
  }
}
