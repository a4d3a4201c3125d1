/** The bytes of a 32-bit word, least significant first. A byte is put together from its bits, so
    that arithmetic and bit-vectors do not meet in one proof. */
module Bytes {
  function Bit(n: nat): bool { n % 2 == 1 }

  function Half(n: nat): nat { n / 2 }

  function FromBits(b0: bool, b1: bool, b2: bool, b3: bool, b4: bool, b5: bool, b6: bool, b7: bool): bv8 {
    (if b0 then 1 else 0) | (if b1 then 2 else 0) | (if b2 then 4 else 0) | (if b3 then 8 else 0)
    | (if b4 then 16 else 0) | (if b5 then 32 else 0) | (if b6 then 64 else 0) | (if b7 then 128 else 0)
  }

  /** The low byte of `n`. */
  function Low(n: nat): bv8 {
    var n1 := Half(n);
    var n2 := Half(n1);
    var n3 := Half(n2);
    var n4 := Half(n3);
    var n5 := Half(n4);
    var n6 := Half(n5);
    FromBits(Bit(n), Bit(n1), Bit(n2), Bit(n3), Bit(n4), Bit(n5), Bit(n6), Bit(Half(n6)))
  }

  /** What is left of `n` without its low byte. */
  function Rest(n: nat): nat {
    Half(Half(Half(Half(Half(Half(Half(Half(n))))))))
  }

  function LittleEndian(n: nat): (r: seq<bv8>)
    ensures |r| == 4
  {
    [Low(n), Low(Rest(n)), Low(Rest(Rest(n))), Low(Rest(Rest(Rest(n))))]
  }

  lemma {:induction false} RestBounded(n: nat)
    ensures n < 256 ==> Rest(n) == 0
    ensures 256 * Rest(n) <= n
  {
  }

  lemma FourBytes(n: nat)
    requires n < 0x1_0000_0000
    ensures Rest(Rest(Rest(Rest(n)))) == 0
  {
    hide Rest;
    RestBounded(n);
    RestBounded(Rest(n));
    RestBounded(Rest(Rest(n)));
    RestBounded(Rest(Rest(Rest(n))));
  }

  // The numbers that bytes stand for

  function ByteValue(b: bv8): nat { b as nat }

  function One(b: bool): nat { if b then 1 else 0 }

  lemma FromBitsValue(b0: bool, b1: bool, b2: bool, b3: bool, b4: bool, b5: bool, b6: bool, b7: bool)
    ensures ByteValue(FromBits(b0, b1, b2, b3, b4, b5, b6, b7))
         == One(b0) + 2 * One(b1) + 4 * One(b2) + 8 * One(b3)
            + 16 * One(b4) + 32 * One(b5) + 64 * One(b6) + 128 * One(b7)
  {
  }

  lemma HalfValue(n: nat)
    ensures n == 2 * Half(n) + One(Bit(n))
  {
  }

  /** A number is its low byte and 256 times the rest. */
  lemma LowValue(n: nat)
    ensures n == ByteValue(Low(n)) + 256 * Rest(n)
  {
    hide FromBits, Bit, Half, One, ByteValue;
    var n1 := Half(n);
    var n2 := Half(n1);
    var n3 := Half(n2);
    var n4 := Half(n3);
    var n5 := Half(n4);
    var n6 := Half(n5);
    var n7 := Half(n6);
    FromBitsValue(Bit(n), Bit(n1), Bit(n2), Bit(n3), Bit(n4), Bit(n5), Bit(n6), Bit(n7));
    HalfValue(n);
    HalfValue(n1);
    HalfValue(n2);
    HalfValue(n3);
    HalfValue(n4);
    HalfValue(n5);
    HalfValue(n6);
    HalfValue(n7);
  }

  /** The four bytes are the number's digits to the base 256, the least significant one first. */
  lemma LittleEndianValue(n: nat)
    requires n < 0x1_0000_0000
    ensures var r := LittleEndian(n);
            n == ByteValue(r[0]) + 0x100 * ByteValue(r[1]) + 0x1_0000 * ByteValue(r[2]) + 0x100_0000 * ByteValue(r[3])
  {
    hide Low, Rest, ByteValue;
    LowValue(n);
    LowValue(Rest(n));
    LowValue(Rest(Rest(n)));
    LowValue(Rest(Rest(Rest(n))));
    FourBytes(n);
  }

  lemma LittleEndianInjective(m: nat, n: nat)
    requires m < 0x1_0000_0000 && n < 0x1_0000_0000
    requires LittleEndian(m) == LittleEndian(n)
    ensures m == n
  {
    hide LittleEndian, ByteValue;
    LittleEndianValue(m);
    LittleEndianValue(n);
  }
}
