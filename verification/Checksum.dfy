/**
 The register of `Page::compute_checksum`. A 32-bit word is kept as its four bytes, so
 that the shift by eight moves bytes and the exclusive or acts byte by byte; StepIsCrcStep
 ties this to the program's own expression. The register's laws hold for every table whose
 entries have pairwise distinct most significant bytes.
 */
module Checksum {
  import CrcTable
  import opened ShiftRegister

  /** A 32-bit word, most significant byte first. */
  datatype Word = Word(b3: bv8, b2: bv8, b1: bv8, b0: bv8)

  type Table = bv8 -> Word

  ghost predicate DistinctTops(t: Table) {
    forall i, j :: t(i).b3 == t(j).b3 ==> i == j
  }

  function Xor(a: bv8, b: bv8): bv8 { a ^ b }

  lemma XorCancels(e: bv8, x: bv8, y: bv8)
    requires Xor(e, x) == Xor(e, y) || Xor(x, e) == Xor(y, e)
    ensures x == y
  {
  }

  /** The table index used for byte `b` in state `crc`. */
  function Index(crc: Word, b: bv8): bv8 { Xor(crc.b0, b) }

  /** The entry, exclusive or'ed with the state shifted right by one byte. */
  function Step(t: Table, crc: Word, b: bv8): Word {
    var e := t(Index(crc, b));
    Word(e.b3, Xor(e.b2, crc.b3), Xor(e.b1, crc.b2), Xor(e.b0, crc.b1))
  }

  function Complement(x: Word): Word {
    Word(Xor(x.b3, 0xFF), Xor(x.b2, 0xFF), Xor(x.b1, 0xFF), Xor(x.b0, 0xFF))
  }

  lemma ComplementInjective(x: Word, y: Word)
    requires Complement(x) == Complement(y)
    ensures x == y
  {
    XorCancels(0xFF, x.b3, y.b3);
    XorCancels(0xFF, x.b2, y.b2);
    XorCancels(0xFF, x.b1, y.b1);
    XorCancels(0xFF, x.b0, y.b0);
  }

  function CrcRegister(t: Table): Register<Word, bv8, Word, bv8> {
    Register((crc, b) => Step(t, crc, b), (crc, b) => Index(crc, b),
             (x: Word) => x.(b2 := 0, b1 := 0, b0 := 0), (x: Word) => x.(b1 := 0, b0 := 0), (x: Word) => x.(b0 := 0))
  }

  /** Equal leading bytes of two steps' results: the same entry was used, and one byte less
      of the states is equal. */
  lemma PeelStep(t: Table, x: Word, b: bv8, y: Word, c: bv8)
    requires DistinctTops(t)
    requires Step(t, x, b).b3 == Step(t, y, c).b3
    ensures Index(x, b) == Index(y, c)
    ensures Step(t, x, b).b2 == Step(t, y, c).b2 ==> x.b3 == y.b3
    ensures Step(t, x, b).b1 == Step(t, y, c).b1 ==> x.b2 == y.b2
    ensures Step(t, x, b).b0 == Step(t, y, c).b0 ==> x.b1 == y.b1
  {
    hide Xor, DistinctTops;
    var u, v := Step(t, x, b), Step(t, y, c);
    SameEntry(t, Index(x, b), Index(y, c));
    var e := t(Index(x, b));
    if u.b2 == v.b2 { XorCancels(e.b2, x.b3, y.b3); }
    if u.b1 == v.b1 { XorCancels(e.b1, x.b2, y.b2); }
    if u.b0 == v.b0 { XorCancels(e.b0, x.b1, y.b1); }
  }

  lemma SameEntry(t: Table, i: bv8, j: bv8)
    requires DistinctTops(t) && t(i).b3 == t(j).b3
    ensures i == j
  {
  }

  lemma SameIndex(x: Word, b: bv8, c: bv8)
    requires Index(x, b) == Index(x, c)
    ensures b == c
  {
    hide Xor;
    XorCancels(x.b0, b, c);
  }

  lemma SameLowByte(x: Word, y: Word, b: bv8)
    requires Index(x, b) == Index(y, b)
    ensures x.b0 == y.b0
  {
    hide Xor;
    XorCancels(b, x.b0, y.b0);
  }

  /** Equal tops of the results, and what they say of the states before. */
  lemma TopsReveal(t: Table, x: Word, b: bv8, y: Word, c: bv8)
    requires DistinctTops(t)
    ensures var r := CrcRegister(t);
            && (r.step(x, b) == r.step(y, c) ==> r.index(x, b) == r.index(y, c) && r.top3(x) == r.top3(y))
            && (r.top3(r.step(x, b)) == r.top3(r.step(y, c)) ==>
                  r.index(x, b) == r.index(y, c) && r.top2(x) == r.top2(y))
            && (r.top2(r.step(x, b)) == r.top2(r.step(y, c)) ==>
                  r.index(x, b) == r.index(y, c) && r.top1(x) == r.top1(y))
            && (r.top1(r.step(x, b)) == r.top1(r.step(y, c)) ==> r.index(x, b) == r.index(y, c))
  {
    hide Xor, Step, Index, DistinctTops;
    if Step(t, x, b).b3 == Step(t, y, c).b3 {
      PeelStep(t, x, b, y, c);
    }
  }

  lemma CrcStepsReveal(t: Table, x: Word, b: bv8, y: Word, c: bv8)
    requires DistinctTops(t)
    ensures StepsReveal(CrcRegister(t), x, b, y, c)
  {
    hide Xor, Step, Index, DistinctTops;
    TopsReveal(t, x, b, y, c);
    if x == y && Index(x, b) == Index(y, c) {
      SameIndex(x, b, c);
    }
    if b == c && Index(x, b) == Index(y, c) {
      SameLowByte(x, y, b);
    }
  }

  lemma CrcReveals(t: Table)
    requires DistinctTops(t)
    ensures Revealing(CrcRegister(t))
  {
    forall x, b, y, c ensures StepsReveal(CrcRegister(t), x, b, y, c) {
      CrcStepsReveal(t, x, b, y, c);
    }
  }

  // The program's table.

  function Split(x: bv32): Word {
    Word((x >> 24) as bv8, ((x >> 16) & 0xFF) as bv8, ((x >> 8) & 0xFF) as bv8, (x & 0xFF) as bv8)
  }

  function Join(w: Word): bv32 {
    ((w.b3 as bv32) << 24) | ((w.b2 as bv32) << 16) | ((w.b1 as bv32) << 8) | (w.b0 as bv32)
  }

  function PageTable(i: bv8): Word { Split(CrcTable.Entry(i)) }

  const PAGE_REGISTER := CrcRegister(i => PageTable(i))

  /** A step on split words is the program's step on 32-bit words, whatever the table. */
  lemma StepIsCrcStep(entry: bv8 -> bv32, crc: Word, b: bv8)
    ensures Join(Step(i => Split(entry(i)), crc, b))
         == entry(((Join(crc) ^ (b as bv32)) & 0xFF) as bv8) ^ (Join(crc) >> 8)
  {
    LowByteOfJoin(crc, b);
    JoinOfXor(entry(Index(crc, b)), crc);
  }

  lemma LowByteOfJoin(crc: Word, b: bv8)
    ensures ((Join(crc) ^ (b as bv32)) & 0xFF) as bv8 == Index(crc, b)
  {
  }

  lemma JoinOfXor(e: bv32, crc: Word)
    ensures var s := Split(e);
            Join(Word(s.b3, Xor(s.b2, crc.b3), Xor(s.b1, crc.b2), Xor(s.b0, crc.b1))) == e ^ (Join(crc) >> 8)
  {
  }

  lemma PageTopDeterminesIndex(i: bv8)
    ensures CrcTable.IndexOfTop(PageTable(i).b3) == i
  {
    hide CrcTable.Entry, CrcTable.IndexOfTop;
    CrcTable.TopDeterminesIndex(i);
  }

  lemma PageTopsDistinct(i: bv8, j: bv8)
    requires PageTable(i).b3 == PageTable(j).b3
    ensures i == j
  {
    hide PageTable, CrcTable.IndexOfTop;
    PageTopDeterminesIndex(i);
    PageTopDeterminesIndex(j);
  }

  lemma PageTableHasDistinctTops()
    ensures DistinctTops(i => PageTable(i))
  {
    hide PageTable;
    forall i, j | PageTable(i).b3 == PageTable(j).b3 ensures i == j {
      PageTopsDistinct(i, j);
    }
  }

  /** BurstDetected for the program's register. */
  lemma PageBurstDetected(crc: Word, a: seq<bv8>, b: seq<bv8>, k: nat, n: nat)
    requires n <= 4 <= |a|
    requires DifferOnlyWithin(a, b, k, n)
    requires a != b
    ensures Fold(PAGE_REGISTER.step, crc, a) != Fold(PAGE_REGISTER.step, crc, b)
  {
    PageTableHasDistinctTops();
    CrcReveals(i => PageTable(i));
    if Fold(PAGE_REGISTER.step, crc, a) == Fold(PAGE_REGISTER.step, crc, b) {
      BurstDetected(PAGE_REGISTER, crc, a, b, k, n);
    }
  }
}
