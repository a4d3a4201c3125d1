/**
 The binary form of a log record: seven little-endian fields, the length of the data as a
 32-bit word, and the data. `Decode` returns None where `LogRecord::deserialize` would read
 past the buffer.
 */
module WalCodec {
  import opened Wrappers
  import opened Sequences

  type Octet = x: int | 0 <= x < 0x100
  type U8 = x: int | 0 <= x < 0x100
  type U16 = x: int | 0 <= x < 0x1_0000
  type U32 = x: int | 0 <= x < 0x1_0000_0000
  type U64 = x: int | 0 <= x < 0x1_0000_0000_0000_0000

  const U32_RANGE: nat := 0x1_0000_0000
  const HEADER_SIZE: nat := 37

  datatype Record = Record(
    kind: U8, lsn: U64, txn: U64, page: U32, offset: U16, length: U16, prev: U64, data: seq<Octet>)

  // Little-endian words

  function Pow256(w: nat): nat {
    if w == 0 then 1 else 256 * Pow256(w - 1)
  }

  /** The `w` low bytes of `n`. */
  function Le(n: nat, w: nat): (b: seq<Octet>)
    ensures |b| == w
  {
    if w == 0 then [] else [n % 256] + Le(n / 256, w - 1)
  }

  function Value(b: seq<Octet>): nat {
    if b == [] then 0 else b[0] + 256 * Value(b[1..])
  }

  lemma {:induction false} ValueOfLe(n: nat, w: nat)
    requires n < Pow256(w)
    ensures Value(Le(n, w)) == n
  {
    if w > 0 {
      ValueOfLe(n / 256, w - 1);
      assert Le(n, w)[1..] == Le(n / 256, w - 1);
    }
  }

  lemma {:induction false} ValueBounded(b: seq<Octet>)
    ensures Value(b) < Pow256(|b|)
  {
    if b != [] {
      ValueBounded(b[1..]);
    }
  }

  lemma WordRanges()
    ensures Pow256(0) == 1 && Pow256(1) == 0x100 && Pow256(2) == 0x1_0000
    ensures Pow256(4) == U32_RANGE && Pow256(8) == 0x1_0000_0000_0000_0000
  {
    assert Pow256(2) == 256 * Pow256(1);
    assert Pow256(4) == 256 * (256 * Pow256(2));
    assert Pow256(8) == 256 * (256 * (256 * (256 * Pow256(4))));
  }

  // Records

  /** The record's bytes, followed by `tail`. */
  function EncodeOnto(r: Record, tail: seq<Octet>): seq<Octet> {
    Le(r.kind, 1) + (Le(r.lsn, 8) + (Le(r.txn, 8) + (Le(r.page, 4) + (Le(r.offset, 2) + (Le(r.length, 2) +
    (Le(r.prev, 8) + (Le(|r.data|, 4) + (r.data + tail))))))))
  }

  /** LogRecord::serialize */
  function Encode(r: Record): seq<Octet> {
    EncodeOnto(r, [])
  }

  /** LogRecord::serialized_size */
  function SizeOf(r: Record): nat {
    HEADER_SIZE + |r.data|
  }

  lemma EncodeOntoIsConcat(r: Record, tail: seq<Octet>)
    ensures EncodeOnto(r, tail) == Encode(r) + tail
    ensures |Encode(r)| == SizeOf(r)
  {
    var e, f := Encode(r), EncodeOnto(r, tail);
    assert forall i | 0 <= i < |f| :: f[i] == (e + tail)[i];
  }

  /** LogRecord::deserialize, with the pointer moving over the buffer. */
  function Decode(buf: seq<Octet>): (r: Option<Record>)
    ensures r.Some? ==> SizeOf(r.value) <= |buf|
  {
    if |buf| < HEADER_SIZE then None
    else
      WordRanges();
      var b1 := buf[1..];
      var b2 := b1[8..];
      var b3 := b2[8..];
      var b4 := b3[4..];
      var b5 := b4[2..];
      var b6 := b5[2..];
      var b7 := b6[8..];
      var b8 := b7[4..];
      var n := Value(b7[..4]);
      if |b8| < n then None
      else
        Some(Record(Word8(buf[..1]), Word64(b1[..8]), Word64(b2[..8]), Word32(b3[..4]),
                    Word16(b4[..2]), Word16(b5[..2]), Word64(b6[..8]), b8[..n]))
  }

  function Word8(b: seq<Octet>): U8 requires |b| == 1 { ValueBounded(b); WordRanges(); Value(b) }
  function Word16(b: seq<Octet>): U16 requires |b| == 2 { ValueBounded(b); WordRanges(); Value(b) }
  function Word32(b: seq<Octet>): U32 requires |b| == 4 { ValueBounded(b); WordRanges(); Value(b) }
  function Word64(b: seq<Octet>): U64 requires |b| == 8 { ValueBounded(b); WordRanges(); Value(b) }

  lemma Peel(n: nat, w: nat, rest: seq<Octet>)
    ensures (Le(n, w) + rest)[..w] == Le(n, w) && (Le(n, w) + rest)[w..] == rest
    ensures n < Pow256(w) ==> Value((Le(n, w) + rest)[..w]) == n
  {
    if n < Pow256(w) {
      ValueOfLe(n, w);
    }
  }

  /** A record is decoded from the front of any buffer that starts with its encoding. */
  lemma DecodeFront(r: Record, tail: seq<Octet>)
    requires |r.data| < U32_RANGE
    ensures Decode(EncodeOnto(r, tail)) == Some(r)
  {
    WordRanges();
    var e8 := r.data + tail;
    var e7 := Le(|r.data|, 4) + e8;
    var e6 := Le(r.prev, 8) + e7;
    var e5 := Le(r.length, 2) + e6;
    var e4 := Le(r.offset, 2) + e5;
    var e3 := Le(r.page, 4) + e4;
    var e2 := Le(r.txn, 8) + e3;
    var e1 := Le(r.lsn, 8) + e2;
    Peel(r.kind, 1, e1);
    Peel(r.lsn, 8, e2);
    Peel(r.txn, 8, e3);
    Peel(r.page, 4, e4);
    Peel(r.offset, 2, e5);
    Peel(r.length, 2, e6);
    Peel(r.prev, 8, e7);
    Peel(|r.data|, 4, e8);
    assert e8[..|r.data|] == r.data;
  }

  /** What is decoded has less than 2^32 bytes of data. */
  lemma DecodedDataIsShort(buf: seq<Octet>)
    requires Decode(buf).Some?
    ensures |Decode(buf).value.data| < U32_RANGE
  {
    WordRanges();
    ValueBounded(buf[1..][8..][8..][4..][2..][2..][8..][..4]);
  }

  /** A record survives the round trip exactly when its data length fits the length field. */
  lemma RoundTrip(r: Record)
    ensures Decode(Encode(r)) == Some(r) <==> |r.data| < U32_RANGE
  {
    if |r.data| < U32_RANGE {
      DecodeFront(r, []);
    } else if Decode(Encode(r)) == Some(r) {
      DecodedDataIsShort(Encode(r));
    }
  }

  // Where the fields lie

  lemma DivideTwice(n: nat, p: nat)
    requires p > 0
    ensures n / 256 / p == n / (256 * p)
  {
    var q := n / 256 / p;
    assert p * q <= n / 256 < p * q + p;
    assert (256 * p) * q <= n < (256 * p) * q + 256 * p;
    Quotient(n, 256 * p, q);
  }

  lemma Quotient(n: nat, d: nat, q: nat)
    requires d * q <= n < d * q + d
    ensures n / d == q
  {
    var m := n / d;
    assert d * m <= n < d * m + d;
    assert d * (m + 1) == d * m + d && d * (q + 1) == d * q + d;
  }

  /** Byte `i` of a word is its digit number `i` to the base 256. */
  lemma {:induction false} Digit(n: nat, w: nat, i: nat)
    requires i < w
    ensures Pow256(i) > 0 && Le(n, w)[i] == n / Pow256(i) % 256
  {
    if i > 0 {
      Digit(n / 256, w - 1, i - 1);
      DivideTwice(n, Pow256(i - 1));
    }
  }

  /** The kind is byte 0; lsn, txn, page, offset, length, prev and the length of the data follow in this
      order, each least significant byte first; the data start at byte 37. */
  lemma Layout(r: Record, i: nat)
    ensures Pow256(i) > 0 && |Encode(r)| == 37 + |r.data| && Encode(r)[0] == r.kind
    ensures i < 8 ==> Encode(r)[1 + i] == r.lsn / Pow256(i) % 256
    ensures i < 8 ==> Encode(r)[9 + i] == r.txn / Pow256(i) % 256
    ensures i < 4 ==> Encode(r)[17 + i] == r.page / Pow256(i) % 256
    ensures i < 2 ==> Encode(r)[21 + i] == r.offset / Pow256(i) % 256
    ensures i < 2 ==> Encode(r)[23 + i] == r.length / Pow256(i) % 256
    ensures i < 8 ==> Encode(r)[25 + i] == r.prev / Pow256(i) % 256
    ensures i < 4 ==> Encode(r)[33 + i] == |r.data| / Pow256(i) % 256
    ensures i < |r.data| ==> Encode(r)[37 + i] == r.data[i]
  {
    hide Le, Pow256;
    Digit(0, i + 1, i);
    Digit(r.kind, 1, 0);
    WordRanges();
    if i < 8 {
      Digit(r.lsn, 8, i);
      Digit(r.txn, 8, i);
      Digit(r.prev, 8, i);
    }
    if i < 4 {
      Digit(r.page, 4, i);
      Digit(|r.data|, 4, i);
    }
    if i < 2 {
      Digit(r.offset, 2, i);
      Digit(r.length, 2, i);
    }
  }

  // Streams

  function EncodeAll(rs: seq<Record>): seq<Octet> {
    if rs == [] then [] else Encode(rs[0]) + EncodeAll(rs[1..])
  }

  /** Decode record after record, advancing by the size of each. */
  function DecodeAll(buf: seq<Octet>): Option<seq<Record>>
    decreases |buf|
  {
    if buf == [] then Some([])
    else
      var r := Decode(buf);
      if r.None? then None
      else
        var rest := DecodeAll(buf[SizeOf(r.value)..]);
        if rest.None? then None else Some([r.value] + rest.value)
  }

  /** A stream of records survives the round trip exactly when every record does. */
  lemma {:induction false} StreamRoundTrip(rs: seq<Record>)
    ensures DecodeAll(EncodeAll(rs)) == Some(rs) <==> forall r <- rs :: |r.data| < U32_RANGE
  {
    hide Encode, EncodeOnto, Decode;
    if rs != [] {
      var r, rest := rs[0], EncodeAll(rs[1..]);
      EncodeOntoIsConcat(r, rest);
      if |r.data| < U32_RANGE {
        DecodeFront(r, rest);
        assert EncodeAll(rs)[SizeOf(r)..] == rest;
        StreamRoundTrip(rs[1..]);
        assert rs == [r] + rs[1..];
        var d := DecodeAll(rest);
        if DecodeAll(EncodeAll(rs)) == Some(rs) {
          assert d.Some? && ([r] + d.value)[1..] == d.value;
        }
      } else if DecodeAll(EncodeAll(rs)) == Some(rs) {
        DecodedDataIsShort(EncodeAll(rs));
      }
    }
  }

  /** So the encoding of streams of records with short data is injective. */
  lemma StreamsInjective(rs: seq<Record>, ss: seq<Record>)
    requires forall r <- rs :: |r.data| < U32_RANGE
    requires forall r <- ss :: |r.data| < U32_RANGE
    requires EncodeAll(rs) == EncodeAll(ss)
    ensures rs == ss
  {
    StreamRoundTrip(rs);
    StreamRoundTrip(ss);
  }

  lemma {:induction false} EncodeAllAppend(rs: seq<Record>, r: Record)
    ensures EncodeAll(rs + [r]) == EncodeAll(rs) + Encode(r)
  {
    if rs == [] {
      assert rs + [r] == [r];
      assert EncodeAll([r]) == Encode(r) + EncodeAll([]);
    } else {
      EncodeAllAppend(rs[1..], r);
      assert (rs + [r])[0] == rs[0] && (rs + [r])[1..] == rs[1..] + [r];
      Associative(Encode(rs[0]), EncodeAll(rs[1..]), Encode(r));
    }
  }

  lemma {:induction false} EncodeAllConcat(a: seq<Record>, b: seq<Record>)
    ensures EncodeAll(a + b) == EncodeAll(a) + EncodeAll(b)
  {
    hide Encode;
    if a == [] {
      assert a + b == b;
    } else {
      EncodeAllConcat(a[1..], b);
      assert (a + b)[0] == a[0] && (a + b)[1..] == a[1..] + b;
      Associative(Encode(a[0]), EncodeAll(a[1..]), EncodeAll(b));
    }
  }

  // The buffer that serialize fills

  /** memcpy of the `w` bytes of a word to the moving pointer. */
  method PutWord(buf: array<Octet>, ptr: nat, n: nat, w: nat) returns (next: nat)
    requires ptr + w <= buf.Length
    modifies buf
    ensures next == ptr + w
    ensures buf[..next] == old(buf[..ptr]) + Le(n, w)
  {
    next := ptr;
    var rest := n;
    while next < ptr + w
      invariant ptr <= next <= ptr + w
      invariant buf[..next] + Le(rest, ptr + w - next) == old(buf[..ptr]) + Le(n, w)
    {
      ghost var before := buf[..next];
      assert Le(rest, ptr + w - next) == [rest % 256] + Le(rest / 256, ptr + w - next - 1);
      buf[next] := rest % 256;
      assert buf[..next + 1] == before + [rest % 256];
      rest, next := rest / 256, next + 1;
    }
  }

  // The header fields, in the order in which they are written.

  ghost function Identity(r: Record): seq<Octet> {
    Le(r.kind, 1) + Le(r.lsn, 8) + Le(r.txn, 8)
  }

  ghost function Place(r: Record): seq<Octet> {
    Le(r.page, 4) + Le(r.offset, 2) + Le(r.length, 2)
  }

  ghost function Chain(r: Record): seq<Octet> {
    Le(r.prev, 8) + Le(|r.data|, 4)
  }

  lemma HeaderThenData(r: Record)
    ensures Identity(r) + Place(r) + Chain(r) + r.data == Encode(r)
    ensures |Identity(r) + Place(r) + Chain(r)| == HEADER_SIZE
  {
    var e := Encode(r);
    assert forall i | 0 <= i < |e| :: (Identity(r) + Place(r) + Chain(r) + r.data)[i] == e[i];
  }

  method PutIdentity(buf: array<Octet>, r: Record) returns (ptr: nat)
    requires HEADER_SIZE <= buf.Length
    modifies buf
    ensures ptr == 17 && buf[..ptr] == Identity(r)
  {
    hide Le;
    ptr := PutWord(buf, 0, r.kind, 1);
    ptr := PutWord(buf, ptr, r.lsn, 8);
    ptr := PutWord(buf, ptr, r.txn, 8);
  }

  method PutPlace(buf: array<Octet>, at: nat, r: Record) returns (ptr: nat)
    requires at + 8 <= buf.Length
    modifies buf
    ensures ptr == at + 8 && buf[..ptr] == old(buf[..at]) + Place(r)
  {
    hide Le;
    ptr := PutWord(buf, at, r.page, 4);
    ptr := PutWord(buf, ptr, r.offset, 2);
    ptr := PutWord(buf, ptr, r.length, 2);
  }

  method PutChain(buf: array<Octet>, at: nat, r: Record) returns (ptr: nat)
    requires at + 12 <= buf.Length
    modifies buf
    ensures ptr == at + 12 && buf[..ptr] == old(buf[..at]) + Chain(r)
  {
    hide Le;
    ptr := PutWord(buf, at, r.prev, 8);
    ptr := PutWord(buf, ptr, |r.data|, 4);
  }

  method PutData(buf: array<Octet>, at: nat, data: seq<Octet>)
    requires at + |data| == buf.Length
    modifies buf
    ensures buf[..] == old(buf[..at]) + data
  {
    ghost var header := buf[..at];
    for i := 0 to |data|
      invariant buf[..at + i] == header + data[..i]
    {
      buf[at + i] := data[i];
      assert buf[..at + i + 1] == buf[..at + i] + [data[i]];
      assert data[..i + 1] == data[..i] + [data[i]];
    }
    assert buf[..] == header + data;
  }

  method Serialize(r: Record) returns (buf: array<Octet>)
    ensures fresh(buf) && buf[..] == Encode(r)
  {
    hide Encode, Identity, Place, Chain;
    buf := new Octet[SizeOf(r)](_ => 0);
    HeaderThenData(r);
    var ptr := PutIdentity(buf, r);
    ptr := PutPlace(buf, ptr, r);
    ptr := PutChain(buf, ptr, r);
    PutData(buf, ptr, r.data);
  }
}
