/**
 The texts of commands, put together from their parts: words with white space between them, and
 padded items with a separator between them. Every text is put together so, and taking it apart
 gives the parts.
 */
module EngineText {
  import opened Wrappers
  import opened Text
  import opened Sequences
  import opened LetterCase
  import opened Engine
  import opened EngineCommands
  import EngineLosses

  const PADDING := " \t\n\r"
  const BLANKS := [' ', '\t', '\n', 11 as char, 12 as char, '\r']

  predicate AllIn(s: string, chars: string) { forall c <- s :: c in chars }
  predicate NoneIn(s: string, chars: string) { forall c <- s :: c !in chars }

  // Items

  datatype Item = Item(left: string, piece: string, right: string)

  /** What a list consists of: no separator, and no padding at its ends. */
  predicate IsPiece(p: string, c: char) {
    p != [] && c !in p && p[0] !in PADDING && p[|p| - 1] !in PADDING
  }

  predicate IsItem(x: Item, c: char) {
    AllIn(x.left, PADDING) && AllIn(x.right, PADDING) && (x.piece == [] || IsPiece(x.piece, c))
  }

  function ItemText(x: Item): string { x.left + (x.piece + x.right) }

  function Glued(xs: seq<Item>, c: char): string {
    if xs == [] then []
    else if |xs| == 1 then ItemText(xs[0])
    else ItemText(xs[0]) + ([c] + Glued(xs[1..], c))
  }

  /** The pieces that are not empty. */
  function Pieces(xs: seq<Item>): seq<string> {
    if xs == [] then [] else (if xs[0].piece == [] then [] else [xs[0].piece]) + Pieces(xs[1..])
  }

  lemma {:induction false} LeftTrimmed(l: string, s: string)
    requires AllIn(l, PADDING) && (s == [] || s[0] !in PADDING)
    ensures TrimLeft(l + s) == s
  {
    if l == [] {
      assert l + s == s;
    } else {
      assert (l + s)[0] == l[0] && l[0] in l && (l + s)[1..] == l[1..] + s;
      LeftTrimmed(l[1..], s);
    }
  }

  lemma {:induction false} RightTrimmed(s: string, r: string)
    requires AllIn(r, PADDING) && (s == [] || s[|s| - 1] !in PADDING)
    ensures TrimRight(s + r) == s
  {
    if r == [] {
      assert s + r == s;
    } else {
      var n := |s + r| - 1;
      assert (s + r)[n] == r[|r| - 1] && r[|r| - 1] in r && (s + r)[..n] == s + r[..|r| - 1];
      RightTrimmed(s, r[..|r| - 1]);
    }
  }

  /** The padding goes, the piece stays. */
  lemma ItemTrimmed(x: Item, c: char)
    requires IsItem(x, c)
    ensures Trim(ItemText(x)) == x.piece
  {
    hide TrimLeft, TrimRight, AllIn;
    if x.piece == [] {
      assert ItemText(x) == (x.left + x.right) + [];
      AllInBoth(x.left, x.right);
      LeftTrimmed(x.left + x.right, []);
      RightTrimmed([], []);
      NothingIn();
      assert "" + "" == "";
    } else {
      LeftTrimmed(x.left, x.piece + x.right);
      RightTrimmed(x.piece, x.right);
    }
  }

  lemma AllInBoth(a: string, b: string)
    requires AllIn(a, PADDING) && AllIn(b, PADDING)
    ensures AllIn(a + b, PADDING)
  {
  }

  lemma NothingIn()
    ensures AllIn([], PADDING)
  {
  }

  lemma NoSeparatorIn(x: Item, c: char)
    requires IsItem(x, c) && c !in PADDING
    ensures c !in ItemText(x)
  {
  }

  lemma CutAt(a: string, c: char, rest: string)
    requires c !in a
    ensures var s := a + ([c] + rest); Find(s, c) == |a| && s[..|a|] == a && AfterLine(s, c) == rest
    ensures Find(a, c) == |a| && AfterLine(a, c) == []
  {
    hide Find;
    var s := a + ([c] + rest);
    assert s[|a|] == c && s[|a| + 1..] == rest;
    assert forall i | 0 <= i < |a| :: s[i] == a[i];
  }

  lemma SplitNext(s: string, c: char, a: string, rest: string, p: string)
    requires s != [] && s[..Find(s, c)] == a && AfterLine(s, c) == rest && Trim(a) == p
    ensures Split(s, c) == (if p == [] then [] else [p]) + Split(rest, c)
  {
    hide Find, Trim, AfterLine;
  }

  /** Splitting gives the pieces, in their order, without padding and without the empty ones. */
  lemma {:induction false} SplitGlued(xs: seq<Item>, c: char)
    requires c !in PADDING && forall x <- xs :: IsItem(x, c)
    ensures Split(Glued(xs, c), c) == Pieces(xs)
  {
    hide Find, Trim, AfterLine, Split, IsItem, ItemText;
    SplitNothing(c);
    if xs != [] {
      var a, rest := ItemText(xs[0]), Glued(xs[1..], c);
      ItemTrimmed(xs[0], c);
      NoSeparatorIn(xs[0], c);
      CutAt(a, c, rest);
      SplitGlued(xs[1..], c);
      if |xs| > 1 {
        SplitNext(Glued(xs, c), c, a, rest, xs[0].piece);
      } else if a == [] {
        NothingTrimmed();
      } else {
        assert a[..|a|] == a;
        SplitNext(a, c, a, [], xs[0].piece);
      }
    }
  }

  lemma NothingTrimmed()
    ensures Trim([]) == []
  {
  }

  lemma {:induction false} LeftPart(s: string) returns (l: string)
    ensures s == l + TrimLeft(s) && AllIn(l, PADDING)
    ensures TrimLeft(s) == [] || TrimLeft(s)[0] !in PADDING
  {
    if s == [] || !IsTrimmed(s[0]) {
      l := [];
    } else {
      l := LeftPart(s[1..]);
      l := [s[0]] + l;
      assert s == [s[0]] + s[1..];
    }
  }

  lemma {:induction false} RightPart(s: string) returns (r: string)
    ensures s == TrimRight(s) + r && AllIn(r, PADDING)
    ensures TrimRight(s) == [] || TrimRight(s)[|TrimRight(s)| - 1] !in PADDING
  {
    if s == [] || !IsTrimmed(s[|s| - 1]) {
      r := [];
    } else {
      r := RightPart(s[..|s| - 1]);
      r := r + [s[|s| - 1]];
      assert s == s[..|s| - 1] + [s[|s| - 1]];
    }
  }

  /** What a text without separators is, seen as an item. */
  lemma AsItem(s: string, c: char) returns (x: Item)
    requires c !in s
    ensures IsItem(x, c) && ItemText(x) == s && x.piece == Trim(s)
  {
    hide TrimLeft, TrimRight, AllIn;
    var l := LeftPart(s);
    var t := TrimLeft(s);
    var r := RightPart(t);
    x := Item(l, TrimRight(t), r);
    if x.piece != [] {
      assert t[0] == x.piece[0];
    }
    assert forall i | 0 <= i < |x.piece| :: x.piece[i] == s[|l| + i];
  }

  lemma GluedMore(x: Item, more: seq<Item>, c: char)
    ensures more == [] ==> Glued([x] + more, c) == ItemText(x)
    ensures more != [] ==> Glued([x] + more, c) == ItemText(x) + ([c] + Glued(more, c))
    ensures Pieces([x] + more) == (if x.piece == [] then [] else [x.piece]) + Pieces(more)
  {
    hide ItemText;
    assert ([x] + more)[0] == x && ([x] + more)[1..] == more;
  }

  /** Every text is a list of padded items, and splitting gives their pieces. */
  lemma {:induction false} SplitExact(s: string, c: char) returns (xs: seq<Item>)
    ensures (forall x <- xs :: IsItem(x, c)) && s == Glued(xs, c) && (s != [] ==> xs != [])
    ensures Split(s, c) == Pieces(xs)
    decreases |s|
  {
    hide Find, Trim, AfterLine, Split, IsItem, ItemText, Glued, Pieces;
    SplitNothing(c);
    xs := [];
    NothingGlued(c);
    if s != [] {
      var a, rest := s[..Find(s, c)], AfterLine(s, c);
      var x := AsItem(a, c);
      var more := [];
      if rest != [] {
        more := SplitExact(rest, c);
      } else if Find(s, c) < |s| {
        more := [Item([], [], [])];
      }
      SplitNext(s, c, a, rest, x.piece);
      GluedMore(x, more, c);
      TakenApart(s, c);
      xs := [x] + more;
    }
  }

  lemma TakenApart(s: string, c: char)
    ensures var n := Find(s, c);
            if n < |s| then s == s[..n] + ([c] + AfterLine(s, c)) else s == s[..n] && AfterLine(s, c) == []
  {
    hide Find;
    var n := Find(s, c);
    TwoParts(s, n);
    if n < |s| {
      HeadAndTail(s[n..]);
      Dropped(s, n, 1);
    }
  }

  lemma HeadAndTail(s: string)
    requires s != []
    ensures s == [s[0]] + s[1..]
  {
  }

  lemma NothingGlued(c: char)
    ensures Glued([], c) == [] && Pieces([]) == []
    ensures var x := Item([], [], []); IsItem(x, c) && Glued([x], c) == [] && Pieces([x]) == []
  {
    assert [Item([], [], [])][1..] == [];
  }

  /** No piece is empty, has a separator in it, or has padding at its ends. */
  lemma PiecesClean(s: string, c: char)
    ensures forall p <- Split(s, c) :: IsPiece(p, c)
  {
    hide Split, Glued, IsPiece;
    var xs := SplitExact(s, c);
    PiecesOfItems(xs, c);
  }

  lemma {:induction false} PiecesOfItems(xs: seq<Item>, c: char)
    requires forall x <- xs :: IsItem(x, c)
    ensures forall p <- Pieces(xs) :: IsPiece(p, c)
  {
    hide IsPiece, AllIn;
    if xs != [] {
      PiecesOfItems(xs[1..], c);
      assert IsItem(xs[0], c);
      var first, rest := if xs[0].piece == [] then [] else [xs[0].piece], Pieces(xs[1..]);
      assert forall p <- first :: IsPiece(p, c);
      assert forall p <- first + rest :: p in first || p in rest;
    }
  }

  // Words

  datatype Spaced = Spaced(blank: string, word: string)

  /** Words with white space before each of them but, possibly, the first one. */
  predicate IsSpaced(ws: seq<Spaced>) {
    forall i | 0 <= i < |ws| ::
      && AllIn(ws[i].blank, BLANKS) && (i > 0 ==> ws[i].blank != [])
      && ws[i].word != [] && NoneIn(ws[i].word, BLANKS)
  }

  function Line(ws: seq<Spaced>, tail: string): string {
    if ws == [] then tail else ws[0].blank + (ws[0].word + Line(ws[1..], tail))
  }

  function WordAt(ws: seq<Spaced>, n: nat): string {
    if n < |ws| then ws[n].word else []
  }

  lemma BlankIs(c: char)
    ensures IsBlank(c) <==> c in BLANKS
  {
  }

  lemma {:induction false} BlanksThen(b: string, s: string, n: nat)
    requires AllIn(b, BLANKS)
    ensures Word(b + s, n) == Word(s, n)
  {
    hide Word, IsBlank;
    if b == [] {
      assert b + s == s;
    } else {
      assert b + s == [b[0]] + (b[1..] + s);
      BlankIs(b[0]);
      EngineLosses.BlankThen(b[0], b[1..] + s, n);
      BlanksThen(b[1..], s, n);
    }
  }

  lemma {:induction false} NoWords(n: nat)
    ensures Word([], n) == []
  {
    if n > 0 {
      NoWords(n - 1);
    }
  }

  /** A text that is empty or starts with white space. */
  predicate Pauses(s: string) {
    s == [] || s[0] in BLANKS
  }

  lemma SpacedWord(x: Spaced, s: string, n: nat)
    requires AllIn(x.blank, BLANKS) && x.word != [] && NoneIn(x.word, BLANKS) && Pauses(s)
    ensures Word(x.blank + (x.word + s), 0) == x.word
    ensures Word(x.blank + (x.word + s), n + 1) == Word(s, n)
  {
    hide Word, IsBlank;
    BlanksThen(x.blank, x.word + s, 0);
    BlanksThen(x.blank, x.word + s, n + 1);
    forall c <- x.word ensures !IsBlank(c) { BlankIs(c); }
    if s != [] { BlankIs(s[0]); }
    EngineLosses.WordThen(x.word, s, n);
  }

  lemma LinePauses(ws: seq<Spaced>, tail: string)
    requires IsSpaced(ws) && AllIn(tail, BLANKS) && ws != []
    ensures Pauses(Line(ws[1..], tail)) && IsSpaced(ws[1..])
    ensures |ws| > 1 || tail != [] ==> Line(ws[1..], tail) != []
  {
    if |ws| > 1 {
      var b := ws[1].blank;
      assert ws[1..][0] == ws[1] && b[0] in b;
      assert Line(ws[1..], tail)[0] == b[0];
    }
  }

  /** Word number `n` of a line. */
  lemma {:induction false} WordOfLine(ws: seq<Spaced>, tail: string, n: nat)
    requires IsSpaced(ws) && AllIn(tail, BLANKS)
    ensures Word(Line(ws, tail), n) == WordAt(ws, n)
  {
    hide Word, IsSpaced, AllIn, NoneIn, Pauses;
    if ws == [] {
      assert tail + [] == tail;
      BlanksThen(tail, [], n);
      NoWords(n);
    } else {
      LinePauses(ws, tail);
      FirstSpaced(ws);
      SpacedWord(ws[0], Line(ws[1..], tail), if n == 0 then 0 else n - 1);
      if n > 0 {
        WordOfLine(ws[1..], tail, n - 1);
      }
    }
  }

  lemma FirstSpaced(ws: seq<Spaced>)
    requires IsSpaced(ws) && ws != []
    ensures AllIn(ws[0].blank, BLANKS) && ws[0].word != [] && NoneIn(ws[0].word, BLANKS)
  {
  }

  // Commands

  /** The command that a keyword, a name and items make. */
  function CommandFor(word: string, name: string, items: seq<string>): Option<Command> {
    if SameWord(word, "CREATE") then Some(Creation(name, items))
    else if SameWord(word, "INSERT") then Some(Insertion(name, items))
    else None
  }

  lemma Keywords(word: string)
    ensures Upper(word) == "CREATE" <==> SameWord(word, "CREATE")
    ensures Upper(word) == "INSERT" <==> SameWord(word, "INSERT")
  {
    hide Upper, SameWord;
    UpperIs(word, "CREATE");
    UpperIs(word, "INSERT");
  }

  lemma FirstWordOf(ws: seq<Spaced>, tail: string, more: string)
    requires IsSpaced(ws) && AllIn(tail, BLANKS) && ws != [] && (|ws| > 1 || tail != [])
    ensures Word(Line(ws, tail) + more, 0) == ws[0].word
  {
    hide Word, IsSpaced, AllIn, NoneIn;
    LinePauses(ws, tail);
    FirstSpaced(ws);
    var s := Line(ws[1..], tail);
    assert (s + more)[0] == s[0];
    SpacedWord(ws[0], s + more, 0);
    assert Line(ws, tail) + more == ws[0].blank + (ws[0].word + (s + more));
  }

  lemma CommandWord(q: string, word: string, open: nat, close: nat, name: string, items: seq<string>)
    requires Word(q, 0) == word && open == Find(q, '(') < |q| && close == Find(q, ')') < |q|
    requires Word(q[..open], 2) == name && Split(Between(q, open, close), ',') == items
    ensures CommandOf(q) == CommandFor(word, name, items)
  {
    hide Word, Find, Split, Between, Upper, SameWord;
    Keywords(word);
  }

  lemma ParensIn(head: string, body: string, rest: string)
    requires '(' !in head && ')' !in head && ')' !in body
    ensures var q := head + ("(" + (body + (")" + rest)));
            && Find(q, '(') == |head| && Find(q, ')') == |head| + 1 + |body|
            && q[..|head|] == head && Between(q, |head|, |head| + 1 + |body|) == body
  {
    hide Find;
    var q := head + ("(" + (body + (")" + rest)));
    assert q == head + (['('] + (body + (")" + rest)));
    CutAt(head, '(', body + (")" + rest));
    assert q == (head + ("(" + body)) + ([')'] + rest);
    CutAt(head + ("(" + body), ')', rest);
    assert q[|head| + 1..|head| + 1 + |body|] == body;
  }

  /** A line of words, padded items between parentheses, and anything behind them: the first word says
      which command it is, if it is one; the third, or nothing, is the name; the pieces are the items. */
  lemma CommandRead(ws: seq<Spaced>, tail: string, xs: seq<Item>, rest: string)
    requires IsSpaced(ws) && AllIn(tail, BLANKS) && ws != [] && (|ws| > 1 || tail != [])
    requires forall x <- xs :: IsItem(x, ',')
    requires var head := Line(ws, tail); '(' !in head && ')' !in head && ')' !in Glued(xs, ',')
    ensures CommandOf(Line(ws, tail) + ("(" + (Glued(xs, ',') + (")" + rest))))
         == CommandFor(ws[0].word, WordAt(ws, 2), Pieces(xs))
  {
    hide Word, Find, Split, Between, IsSpaced, AllIn, CommandFor, CommandOf;
    var head, body := Line(ws, tail), Glued(xs, ',');
    var q := head + ("(" + (body + (")" + rest)));
    ParensIn(head, body, rest);
    FirstWordOf(ws, tail, "(" + (body + (")" + rest)));
    WordOfLine(ws, tail, 2);
    SplitGlued(xs, ',');
    CommandWord(q, ws[0].word, |head|, |head| + 1 + |body|, WordAt(ws, 2), Pieces(xs));
  }

  /** With a closing parenthesis already among the words, the items go on to the end of the text. */
  lemma CommandReadToEnd(ws: seq<Spaced>, tail: string, xs: seq<Item>)
    requires IsSpaced(ws) && AllIn(tail, BLANKS) && ws != [] && (|ws| > 1 || tail != [])
    requires forall x <- xs :: IsItem(x, ',')
    requires var head := Line(ws, tail); '(' !in head && ')' in head
    ensures CommandOf(Line(ws, tail) + ("(" + Glued(xs, ','))) == CommandFor(ws[0].word, WordAt(ws, 2), Pieces(xs))
  {
    hide Word, Find, Split, IsSpaced, AllIn, CommandFor, CommandOf;
    var head, body := Line(ws, tail), Glued(xs, ',');
    var q := head + ("(" + body);
    assert q == head + (['('] + body);
    CutAt(head, '(', body);
    FindInPrefix(head, "(" + body, ')');
    assert q[|head| + 1..] == body;
    FirstWordOf(ws, tail, "(" + body);
    WordOfLine(ws, tail, 2);
    SplitGlued(xs, ',');
    CommandWord(q, ws[0].word, |head|, Find(q, ')'), WordAt(ws, 2), Pieces(xs));
  }

  lemma {:induction false} BlankPart(s: string) returns (b: string)
    ensures s == b + SkipBlank(s) && AllIn(b, BLANKS)
    ensures SkipBlank(s) == [] || SkipBlank(s)[0] !in BLANKS
  {
    if s == [] || !IsBlank(s[0]) {
      b := [];
    } else {
      b := BlankPart(s[1..]);
      b := [s[0]] + b;
      assert s == [s[0]] + s[1..];
    }
  }

  lemma {:induction false} WordPart(t: string)
    ensures NoneIn(t[..WordLength(t)], BLANKS) && Pauses(t[WordLength(t)..])
    ensures t != [] && t[0] !in BLANKS ==> WordLength(t) > 0
  {
    if t != [] && !IsBlank(t[0]) {
      WordPart(t[1..]);
      var k := WordLength(t[1..]);
      assert t[..k + 1] == [t[0]] + t[1..][..k] && t[k + 1..] == t[1..][k..];
    }
  }

  lemma SpacedMore(x: Spaced, ws: seq<Spaced>, tail: string)
    requires IsSpaced(ws) && Pauses(Line(ws, tail))
    requires AllIn(x.blank, BLANKS) && x.word != [] && NoneIn(x.word, BLANKS)
    ensures IsSpaced([x] + ws) && Line([x] + ws, tail) == x.blank + (x.word + Line(ws, tail))
  {
    var all := [x] + ws;
    assert all[1..] == ws;
    if ws != [] {
      assert ws[0].word[0] in ws[0].word;
    }
    assert forall i | 0 < i < |all| :: all[i] == ws[i - 1];
  }

  /** Every text is a line of words. */
  lemma {:induction false} LaidOut(s: string) returns (ws: seq<Spaced>, tail: string)
    ensures IsSpaced(ws) && AllIn(tail, BLANKS) && s == Line(ws, tail)
    decreases |s|
  {
    hide SkipBlank, WordLength, IsSpaced, AllIn, NoneIn, Pauses, Line;
    var b := BlankPart(s);
    var t := SkipBlank(s);
    if t == [] {
      ws, tail := [], s;
      assert b + [] == b;
      EmptyLineOf(s);
    } else {
      WordPart(t);
      var k := WordLength(t);
      TwoParts(t, k);
      ws, tail := LaidOut(t[k..]);
      SpacedMore(Spaced(b, t[..k]), ws, tail);
      ws := [Spaced(b, t[..k])] + ws;
    }
  }

  lemma EmptyLineOf(tail: string)
    ensures IsSpaced([]) && Line([], tail) == tail
  {
  }

  /** Which texts are commands: those whose first word is one of the two, in any letter case, and
      that have both parentheses somewhere. */
  lemma CommandExact(ws: seq<Spaced>, tail: string)
    requires IsSpaced(ws) && AllIn(tail, BLANKS)
    ensures var q := Line(ws, tail);
            CommandOf(q).Some? <==>
              && ws != [] && (SameWord(ws[0].word, "CREATE") || SameWord(ws[0].word, "INSERT"))
              && '(' in q && ')' in q
  {
    hide Word, Find, Split, Between, Upper, SameWord, IsSpaced, AllIn, Line;
    var q := Line(ws, tail);
    WordOfLine(ws, tail, 0);
    Keywords(WordAt(ws, 0));
    NoKeyword();
  }

  lemma NoKeyword()
    ensures !SameWord([], "CREATE") && !SameWord([], "INSERT")
  {
  }

  // Running them

  /** What running such a text does: a creation of a new table or an insertion into a known one changes
      that table and adds the text to the log as a line; everything else changes nothing. A semicolon
      at the end is dropped before. */
  lemma Executed<T>(
    ops: TableOps<T>, e: State<T>, ws: seq<Spaced>, tail: string, xs: seq<Item>, rest: string, write: LineWrite)
    requires IsSpaced(ws) && AllIn(tail, BLANKS) && ws != [] && (|ws| > 1 || tail != [])
    requires forall x <- xs :: IsItem(x, ',')
    requires var head := Line(ws, tail); '(' !in head && ')' !in head && ')' !in Glued(xs, ',')
    ensures var q, name, items := Line(ws, tail) + ("(" + (Glued(xs, ',') + (")" + rest))), WordAt(ws, 2), Pieces(xs);
            var r := Execute(ops, e, q + ";", write);
            && (q[|q| - 1] != ';' ==> Execute(ops, e, q, write) == r)
            && (SameWord(ws[0].word, "CREATE") ==>
                  r == if name in e.tables then e else Done(e, q, name, ops.make(name, items), write))
            && (SameWord(ws[0].word, "INSERT") ==>
                  r == if name !in e.tables || ops.insert(e.tables[name], items).None? then e
                       else Done(e, q, name, ops.insert(e.tables[name], items).value, write))
            && (!SameWord(ws[0].word, "CREATE") && !SameWord(ws[0].word, "INSERT") ==> r == e)
  {
    hide IsSpaced, AllIn, IsItem, Line, Glued, Pieces, WordAt, CommandOf, Apply, SameWord;
    var q := Line(ws, tail) + ("(" + (Glued(xs, ',') + (")" + rest)));
    assert (q + ";")[..|q|] == q;
    CommandRead(ws, tail, xs, rest);
    ApplyIsRun(ops, e.tables, q);
    NotBoth(ws[0].word);
    assert e.log + "" == e.log;
  }

  /** A table is new. A log that takes lines has one more, whole or cut; after a cut it takes no more. */
  function Done<T>(e: State<T>, q: string, name: string, t: T, write: LineWrite): State<T> {
    var tables := e.tables[name := t];
    if !e.writable then State(tables, e.log, false)
    else match write
      case Whole => State(tables, e.log + (q + "\n"), true)
      case Cut(n) => State(tables, e.log + if n <= |q| then (q + "\n")[..n] else q + "\n", false)
  }

  lemma NotBoth(w: string)
    ensures !(SameWord(w, "CREATE") && SameWord(w, "INSERT"))
  {
    hide Upper, SameWord;
    Keywords(w);
  }
}
