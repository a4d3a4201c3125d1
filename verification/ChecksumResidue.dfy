/**
 The checksum of a page told by the program's 32-bit register alone: a page verifies exactly if the
 register, started with all bits set and fed the covered bytes and then the inverted bytes of the
 checksum field, ends in zero.
 */
module ChecksumResidue {
  import CrcTable
  import opened ShiftRegister
  import opened Checksum
  import opened Pages

  function LowByte(crc: bv32, b: bv8): bv8 { ((crc ^ (b as bv32)) & 0xFF) as bv8 }

  function Mixed(entry: bv32, crc: bv32): bv32 { entry ^ (crc >> 8) }

  /** One turn of the byte loop. */
  function CrcStep(crc: bv32, b: bv8): bv32 { Mixed(CrcTable.Entry(LowByte(crc, b)), crc) }

  const NOTHING := Word(0, 0, 0, 0)

  lemma JoinSplit(x: bv32, w: Word)
    ensures Join(Split(x)) == x && Split(Join(w)) == w
  {
  }

  lemma SplitConstants()
    ensures Split(0xFFFF_FFFF) == ALL_ONES && Split(0) == NOTHING
  {
  }

  lemma SplitIndex(crc: bv32, b: bv8)
    ensures LowByte(crc, b) == Index(Split(crc), b)
  {
  }

  lemma SplitXor(e: bv32, crc: bv32)
    ensures var s, w := Split(e), Split(crc);
            Split(Mixed(e, crc)) == Word(s.b3, Xor(s.b2, w.b3), Xor(s.b1, w.b2), Xor(s.b0, w.b1))
  {
  }

  lemma SplitStep(crc: bv32, b: bv8)
    ensures Split(CrcStep(crc, b)) == PAGE_REGISTER.step(Split(crc), b)
  {
    hide Split, Index, Xor, Mixed, LowByte, CrcTable.Entry;
    SplitIndex(crc, b);
    SplitXor(CrcTable.Entry(Index(Split(crc), b)), crc);
  }

  /** The register of four bytes and the one of 32 bits run alike. */
  lemma {:induction false} SplitFold(crc: bv32, s: seq<bv8>)
    ensures Split(Fold(CrcStep, crc, s)) == Fold(PAGE_REGISTER.step, Split(crc), s)
  {
    hide Split, CrcStep, PAGE_REGISTER;
    if s != [] {
      SplitFold(crc, s[..|s| - 1]);
      SplitStep(Fold(CrcStep, crc, s[..|s| - 1]), s[|s| - 1]);
    }
  }

  lemma XorFacts(x: bv8)
    ensures Xor(x, x) == 0 && Xor(0, x) == x
  {
  }

  lemma EntryZero()
    ensures PageTable(0) == NOTHING
  {
  }

  /** A byte equal to the low byte of the state consults entry 0: the state is shifted, no more. */
  lemma ShiftOut(crc: Word)
    ensures PAGE_REGISTER.step(crc, crc.b0) == Word(0, crc.b3, crc.b2, crc.b1)
  {
    hide PageTable, Xor;
    XorFacts(crc.b0);
    EntryZero();
    XorFacts(crc.b3);
    XorFacts(crc.b2);
    XorFacts(crc.b1);
  }

  /** Fed its own bytes, least significant first, the register ends in zero. */
  lemma OwnBytes(crc: Word)
    ensures Fold(PAGE_REGISTER.step, crc, Store32(crc)) == NOTHING
  {
    hide PAGE_REGISTER, Fold;
    FoldOfFour(PAGE_REGISTER.step, crc, Store32(crc));
    ShiftOut(crc);
    ShiftOut(Word(0, crc.b3, crc.b2, crc.b1));
    ShiftOut(Word(0, 0, crc.b3, crc.b2));
    ShiftOut(Word(0, 0, 0, crc.b3));
  }

  /** Four bytes take the register to zero exactly if they are its own. */
  lemma ZeroExact(crc: Word, w: seq<bv8>)
    requires |w| == 4
    ensures Fold(PAGE_REGISTER.step, crc, w) == NOTHING <==> w == Store32(crc)
  {
    hide Fold, Step, Index;
    OwnBytes(crc);
    PageTableHasDistinctTops();
    CrcReveals(i => PageTable(i));
    if Fold(PAGE_REGISTER.step, crc, w) == NOTHING {
      WordInjective(PAGE_REGISTER, crc, w, Store32(crc));
    }
  }

  function Inverted(b: bv8): bv8 { b ^ 0xFF }

  lemma InvertedTwice(x: bv8, y: bv8)
    ensures Xor(x, 0xFF) == y <==> x == Inverted(y)
  {
  }

  lemma InvertedField(img: Image, crc: Word)
    ensures [Inverted(img[16]), Inverted(img[17]), Inverted(img[18]), Inverted(img[19])] == Store32(crc)
       <==> Complement(crc) == StoredChecksum(img)
  {
    hide Xor, Inverted;
    var f := img[16..20];
    assert f[0] == img[16] && f[1] == img[17] && f[2] == img[18] && f[3] == img[19];
    InvertedTwice(crc.b0, img[16]);
    InvertedTwice(crc.b1, img[17]);
    InvertedTwice(crc.b2, img[18]);
    InvertedTwice(crc.b3, img[19]);
    SameFour(Inverted(img[16]), Inverted(img[17]), Inverted(img[18]), Inverted(img[19]), crc);
  }

  lemma SameFour(a: bv8, b: bv8, c: bv8, d: bv8, w: Word)
    ensures [a, b, c, d] == Store32(w) <==> a == w.b0 && b == w.b1 && c == w.b2 && d == w.b3
  {
    var s, t := [a, b, c, d], Store32(w);
    assert s == t ==> s[0] == t[0] && s[1] == t[1] && s[2] == t[2] && s[3] == t[3];
  }

  /** A page verifies exactly if its bytes leave no residue. */
  lemma Residue(img: Image)
    ensures ChecksumOk(img) <==>
            Fold(CrcStep, 0xFFFF_FFFF,
                 img[..16] + img[20..] + [img[16] ^ 0xFF, img[17] ^ 0xFF, img[18] ^ 0xFF, img[19] ^ 0xFF]) == 0
  {
    hide Fold, CrcStep, Split, PAGE_REGISTER, Store32, Complement;
    var covered, field := img[..16] + img[20..],
                          [Inverted(img[16]), Inverted(img[17]), Inverted(img[18]), Inverted(img[19])];
    var crc := Fold(PAGE_REGISTER.step, ALL_ONES, covered);
    SplitConstants();
    SplitFold(0xFFFF_FFFF, covered + field);
    FoldConcat(PAGE_REGISTER.step, ALL_ONES, covered, field);
    ZeroExact(crc, field);
    InvertedField(img, crc);
    var last := Fold(CrcStep, 0xFFFF_FFFF, covered + field);
    JoinSplit(last, NOTHING);
    JoinSplit(0, NOTHING);
  }

  /** The value computed for a page is the program's: the register over the covered bytes, inverted. */
  lemma ChecksumIsCrc(img: Image)
    ensures Join(ChecksumOf(img)) == Fold(CrcStep, 0xFFFF_FFFF, img[..16] + img[20..]) ^ 0xFFFF_FFFF
  {
    hide Fold, CrcStep, Split, PAGE_REGISTER, Complement, Join;
    SplitConstants();
    SplitFold(0xFFFF_FFFF, img[..16] + img[20..]);
    JoinComplement(Fold(CrcStep, 0xFFFF_FFFF, img[..16] + img[20..]));
  }

  lemma JoinComplement(x: bv32)
    ensures Join(Complement(Split(x))) == x ^ 0xFFFF_FFFF
  {
  }
}
