/**
 Page images and the `Page` object. An image is the 4096 bytes of a page; the first 24 are
 the packed header: page id (4 bytes), LSN (8), free space (2), flags (2), checksum (4),
 reserved (4).
 */
module Pages {
  import opened ShiftRegister
  import opened Checksum
  import opened Bytes

  const PAGE_SIZE := 4096
  const CHECKSUM_AT := 16
  const AFTER_CHECKSUM := 20

  /** 0xFFFFFFFF, the initial state of the register. */
  const ALL_ONES := Word(0xFF, 0xFF, 0xFF, 0xFF)

  type PageId = x: nat | x < 0x1_0000_0000
  const INVALID_PAGE_ID: PageId := 0xFFFF_FFFF

  function ZeroImage(): (r: seq<bv8>)
    ensures |r| == PAGE_SIZE
  {
    seq(PAGE_SIZE, _ => 0)
  }

  type Image = s: seq<bv8> | |s| == PAGE_SIZE witness ZeroImage()

  /** The bytes the checksum covers. */
  function Checksummed(img: Image): (r: seq<bv8>)
    ensures |r| == PAGE_SIZE - 4
  {
    img[..CHECKSUM_AT] + img[AFTER_CHECKSUM..]
  }

  /** Page::compute_checksum */
  function ChecksumOf(img: Image): Word {
    Complement(Fold(PAGE_REGISTER.step, ALL_ONES, Checksummed(img)))
  }

  // Little-endian storage of a 32-bit word.

  function Store32(x: Word): seq<bv8> {
    [x.b0, x.b1, x.b2, x.b3]
  }

  function Load32(b: seq<bv8>): Word
    requires |b| == 4
  {
    Word(b[3], b[2], b[1], b[0])
  }

  /** header()->checksum */
  function StoredChecksum(img: Image): Word {
    Load32(img[CHECKSUM_AT..AFTER_CHECKSUM])
  }

  /** Page::verify_checksum */
  predicate ChecksumOk(img: Image) {
    ChecksumOf(img) == StoredChecksum(img)
  }

  /** Page::update_checksum */
  function Sealed(img: Image): (r: Image)
  {
    img[..CHECKSUM_AT] + Store32(ChecksumOf(img)) + img[AFTER_CHECKSUM..]
  }

  function IdBytes(id: PageId): (r: seq<bv8>)
    ensures |r| == 4
  {
    LittleEndian(id)
  }

  /** The header write of Page::set_page_id */
  function WithId(img: Image, id: PageId): Image {
    IdBytes(id) + img[4..]
  }

  /** The header of `img` names page `id`. */
  predicate Names(img: Image, id: PageId) {
    img[..4] == IdBytes(id)
  }

  /** What a client owns of a page: every byte but the id and the checksum. */
  type Content = s: seq<bv8> | |s| == PAGE_SIZE - 8 witness seq(PAGE_SIZE - 8, _ => 0 as bv8)

  function ContentOf(img: Image): Content {
    img[4..CHECKSUM_AT] + img[AFTER_CHECKSUM..]
  }

  /** A client overwriting what it owns. */
  function WithContent(img: Image, c: Content): Image {
    img[..4] + c[..12] + img[CHECKSUM_AT..AFTER_CHECKSUM] + c[12..]
  }

  lemma SealedKeeps(img: Image)
    ensures Checksummed(Sealed(img)) == Checksummed(img)
    ensures ContentOf(Sealed(img)) == ContentOf(img)
    ensures Sealed(img)[..4] == img[..4]
  {
  }

  /** A sealed page verifies. */
  lemma SealedIsOk(img: Image)
    ensures ChecksumOk(Sealed(img))
  {
    SealedKeeps(img);
    var s := Sealed(img);
    assert s[CHECKSUM_AT..AFTER_CHECKSUM] == Store32(ChecksumOf(img));
  }

  lemma WithIdKeeps(img: Image, id: PageId)
    ensures ContentOf(WithId(img, id)) == ContentOf(img)
    ensures Names(WithId(img, id), id)
    ensures Names(img, id) ==> WithId(img, id) == img
  {
  }

  /** The id is the first four bytes, least significant first; no other byte is touched. */
  lemma IdInHeader(img: Image, id: PageId)
    ensures var r := WithId(img, id);
            && id == ByteValue(r[0]) + 0x100 * ByteValue(r[1])
                     + 0x1_0000 * ByteValue(r[2]) + 0x100_0000 * ByteValue(r[3])
            && forall i | 4 <= i < 4096 :: r[i] == img[i]
  {
    hide LittleEndian, ByteValue;
    LittleEndianValue(id);
    assert forall i | 4 <= i < 4096 :: img[4..][i - 4] == img[i];
  }

  lemma WithContentSets(img: Image, c: Content)
    ensures ContentOf(WithContent(img, c)) == c
    ensures WithContent(img, c)[..4] == img[..4]
  {
    var r := WithContent(img, c);
    assert r[4..CHECKSUM_AT] == c[..12] && r[AFTER_CHECKSUM..] == c[12..];
  }

  /** Pages that differ in, and only within, four consecutive checksummed bytes have
      different checksums. */
  lemma BurstChangesChecksum(p: Image, q: Image, k: nat, n: nat)
    requires n <= 4
    requires DifferOnlyWithin(Checksummed(p), Checksummed(q), k, n)
    requires Checksummed(p) != Checksummed(q)
    ensures ChecksumOf(p) != ChecksumOf(q)
  {
    PageBurstDetected(ALL_ONES, Checksummed(p), Checksummed(q), k, n);
    if ChecksumOf(p) == ChecksumOf(q) {
      ComplementInjective(Fold(PAGE_REGISTER.step, ALL_ONES, Checksummed(p)),
                          Fold(PAGE_REGISTER.step, ALL_ONES, Checksummed(q)));
    }
  }

  /** Such damage to a page that verifies, its checksum field intact, fails verification. */
  lemma BurstFailsVerification(good: Image, bad: Image, k: nat, n: nat)
    requires ChecksumOk(good)
    requires StoredChecksum(bad) == StoredChecksum(good)
    requires n <= 4
    requires DifferOnlyWithin(Checksummed(good), Checksummed(bad), k, n)
    requires Checksummed(good) != Checksummed(bad)
    ensures !ChecksumOk(bad)
  {
    BurstChangesChecksum(good, bad, k, n);
  }

  /** Damage to the checksum field alone makes a page fail verification. */
  lemma FieldDamageFailsVerification(good: Image, bad: Image)
    requires ChecksumOk(good)
    requires Checksummed(good) == Checksummed(bad)
    ensures ChecksumOk(bad) <==> StoredChecksum(bad) == StoredChecksum(good)
  {
  }

  /** The state of a `Page`. */
  datatype PageValue = PageValue(id: PageId, dirty: bool, pins: nat, data: Image)

  const EMPTY_PAGE := PageValue(INVALID_PAGE_ID, false, 0, ZeroImage())

  class Page {
    const data: array<bv8>
    var pageId: PageId
    var isDirty: bool
    var pinCount: nat

    ghost predicate Valid() {
      data.Length == PAGE_SIZE
    }

    ghost function Value(): PageValue
      requires Valid()
      reads this, data
    {
      PageValue(pageId, isDirty, pinCount, data[..])
    }

    constructor ()
      ensures Valid() && fresh(data)
      ensures Value() == EMPTY_PAGE
      ensures pageId == 0xFFFF_FFFF && !isDirty && pinCount == 0 && forall i | 0 <= i < 4096 :: data[i] == 0
    {
      data := new bv8[PAGE_SIZE](_ => 0);
      pageId, isDirty, pinCount := INVALID_PAGE_ID, false, 0;
      new;
      assert data[..] == ZeroImage();
    }

    method SetPageId(id: PageId)
      requires Valid()
      modifies this`pageId, data
      ensures Value() == old(Value()).(id := id, data := WithId(old(Value()).data, id))
    {
      pageId := id;
      StoreAt(0, IdBytes(id));
    }

    method Pin()
      requires Valid()
      modifies this`pinCount
      ensures Value() == old(Value()).(pins := old(pinCount) + 1)
    {
      pinCount := pinCount + 1;
    }

    method Unpin()
      requires Valid()
      modifies this`pinCount
      ensures Value() == old(Value()).(pins := if old(pinCount) > 0 then old(pinCount) - 1 else 0)
    {
      if pinCount > 0 {
        pinCount := pinCount - 1;
      }
    }

    method MarkDirty()
      requires Valid()
      modifies this`isDirty
      ensures Value() == old(Value()).(dirty := true)
    {
      isDirty := true;
    }

    method MarkClean()
      requires Valid()
      modifies this`isDirty
      ensures Value() == old(Value()).(dirty := false)
    {
      isDirty := false;
    }

    method Reset()
      requires Valid()
      modifies this, data
      ensures Value() == EMPTY_PAGE
      ensures pageId == 0xFFFF_FFFF && !isDirty && pinCount == 0 && forall i | 0 <= i < 4096 :: data[i] == 0
    {
      for i := 0 to PAGE_SIZE
        modifies data
        invariant forall j :: 0 <= j < i ==> data[j] == 0
      {
        data[i] := 0;
      }
      pageId, isDirty, pinCount := INVALID_PAGE_ID, false, 0;
      assert data[..] == ZeroImage();
    }

    method ComputeChecksum() returns (crc: Word)
      requires Valid()
      ensures crc == ChecksumOf(Value().data)
    {
      crc := FoldBytes(PAGE_REGISTER.step);
      crc := Complement(crc);
    }

    /** The byte loop of the checksum, which skips the checksum field. */
    method FoldBytes(step: (Word, bv8) -> Word) returns (crc: Word)
      requires Valid()
      ensures crc == Fold(step, ALL_ONES, Checksummed(Value().data))
    {
      crc := ALL_ONES;
      ghost var covered := Checksummed(data[..]);
      for i := 0 to PAGE_SIZE
        invariant crc == Fold(step, ALL_ONES, covered[..Covered(i)])
      {
        if i >= CHECKSUM_AT && i < CHECKSUM_AT + 4 {
          continue;
        }
        FoldExtend(step, ALL_ONES, covered, Covered(i));
        assert covered[Covered(i)] == data[i];
        crc := step(crc, data[i]);
      }
      assert covered[..Covered(PAGE_SIZE)] == covered;
    }

    method VerifyChecksum() returns (ok: bool)
      requires Valid()
      ensures ok == ChecksumOk(Value().data)
    {
      var crc := ComputeChecksum();
      ok := crc == Load32(data[CHECKSUM_AT..AFTER_CHECKSUM]);
    }

    method UpdateChecksum()
      requires Valid()
      modifies data
      ensures Value() == old(Value()).(data := Sealed(old(Value()).data))
    {
      var crc := ComputeChecksum();
      StoreAt(CHECKSUM_AT, Store32(crc));
    }

    /** Overwrites all bytes of the page, as a read does. */
    method Fill(img: Image)
      requires Valid()
      modifies data
      ensures Value() == old(Value()).(data := img)
    {
      for i := 0 to PAGE_SIZE
        modifies data
        invariant data[..i] == img[..i]
      {
        data[i] := img[i];
      }
      assert data[..] == img;
    }

    /** Overwrites four bytes of the page. */
    method StoreAt(at: nat, bytes: seq<bv8>)
      requires Valid() && at + 4 <= PAGE_SIZE && |bytes| == 4
      modifies data
      ensures data[..] == old(data[..])[..at] + bytes + old(data[..])[at + 4..]
    {
      data[at], data[at + 1], data[at + 2], data[at + 3] := bytes[0], bytes[1], bytes[2], bytes[3];
    }
  }

  /** How many of the first `i` bytes of a page the checksum covers. */
  function Covered(i: nat): nat {
    if i <= CHECKSUM_AT then i else if i <= AFTER_CHECKSUM then CHECKSUM_AT else i - 4
  }
}
