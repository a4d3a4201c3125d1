/**
 The data file behind `DiskManager`, as a map from page ids to images. `cached` is what a
 read sees (the stream with its buffer); `durable` is what the last flush of the stream
 made safe. I/O outcomes are inputs: a write may be refused, or may leave any image
 behind; a read may fail after leaving any bytes in the page.
 */
module DiskStore {
  import opened Pages

  datatype WriteOutcome = Written | Refused | Torn(left: Image)

  datatype ReadOutcome = Delivered | Broken(left: Image)

  datatype Disk = Disk(next: PageId, cached: map<PageId, Image>, durable: map<PageId, Image>)

  /** DiskManager::read_page: the id is stamped on the page before its checksum is checked. */
  function ReadPage(d: Disk, p: PageId, page: PageValue, r: ReadOutcome): (bool, PageValue) {
    if p >= d.next then
      (false, page)
    else if r.Broken? then
      (false, page.(data := r.left))
    else if p !in d.cached then
      (false, page)
    else
      var img := WithId(d.cached[p], p);
      (ChecksumOk(img), page.(id := p, dirty := false, data := img))
  }

  /** DiskManager::write_page: the page is sealed even if the write then fails. */
  function WritePage(d: Disk, p: PageId, page: PageValue, w: WriteOutcome): (bool, Disk, PageValue) {
    var sealed := page.(data := Sealed(page.data));
    match w
    case Written => (true, d.(cached := d.cached[p := sealed.data]), sealed)
    case Refused => (false, d, sealed)
    case Torn(left) => (false, d.(cached := d.cached[p := left]), sealed)
  }

  /** DiskManager::allocate_page: one zero byte at the end of the new page extends the file,
      then the stream is flushed. `grown` says whether that reached the file. The 32-bit
      counter wraps. */
  function AllocatePage(d: Disk, grown: bool): (Disk, PageId) {
    var id := d.next;
    var img := if id in d.cached then d.cached[id][..PAGE_SIZE - 1] + [0] else ZeroImage();
    var cached := if grown then d.cached[id := img] else d.cached;
    (Disk((id + 1) % 0x1_0000_0000, cached, if grown then cached else d.durable), id)
  }

  /** The file grows by one zero byte at the end of the new page: the other bytes of that page are what
      they were, or zero if it was not there; other pages stay; all of it is safe. */
  lemma AllocateExact(d: Disk)
    ensures var (u, id) := AllocatePage(d, true);
            && id == d.next && u.next == (if id == 0xFFFF_FFFF then 0 else id + 1)
            && id in u.cached && u.cached[id][4095] == 0
            && (forall i | 0 <= i < 4095 :: u.cached[id][i] == if id in d.cached then d.cached[id][i] else 0)
            && (forall p: PageId | p != id :: (p in u.cached <==> p in d.cached)
                                              && (p in d.cached ==> u.cached[p] == d.cached[p]))
            && u.durable == u.cached
            && AllocatePage(d, false) == (d.(next := u.next), id)
  {
  }

  /** DiskManager::sync */
  function Sync(d: Disk): Disk {
    d.(durable := d.cached)
  }

  /** What a read does to a page besides its bytes. */
  lemma ReadPageShape(d: Disk, p: PageId, page: PageValue, r: ReadOutcome)
    ensures var (ok, got) := ReadPage(d, p, page, r);
            && got.pins == page.pins
            && (got == page.(data := got.data) || (got.id == p && !got.dirty))
            && (ok ==> p < d.next && got.id == p && !got.dirty)
  {
  }

  /** A page written out and read back verifies, and comes back with the same content. */
  lemma ReadBack(d: Disk, p: PageId, page: PageValue, into: PageValue)
    requires p < d.next
    requires Names(page.data, p)
    ensures var (_, d', _) := WritePage(d, p, page, Written);
            var (ok, got) := ReadPage(d', p, into, Delivered);
            ok && got.id == p && ContentOf(got.data) == ContentOf(page.data) && Names(got.data, p)
  {
    SealedKeeps(page.data);
    SealedIsOk(page.data);
    WithIdKeeps(Sealed(page.data), p);
  }

  /** A stored page that differs from a good one only within four consecutive checksummed bytes is
      delivered if and only if its content is intact, and then exactly the good page is: damage to
      the id is mended by the stamping, any other damage is detected. */
  lemma ReadDetectsBurst(d: Disk, p: PageId, good: Image, into: PageValue, k: nat, n: nat)
    requires p < d.next && p in d.cached
    requires ChecksumOk(good) && Names(good, p)
    requires StoredChecksum(d.cached[p]) == StoredChecksum(good) && n <= 4
    requires ShiftRegister.DifferOnlyWithin(Checksummed(good), Checksummed(d.cached[p]), k, n)
    ensures var (ok, got) := ReadPage(d, p, into, Delivered);
            && (ok <==> ContentOf(d.cached[p]) == ContentOf(good))
            && (ok ==> got.data == good)
  {
    hide ChecksumOk, StoredChecksum, Checksummed, WithId, ContentOf, Names, ShiftRegister.DifferOnlyWithin;
    var img := WithId(d.cached[p], p);
    WithIdKeeps(d.cached[p], p);
    StampedDiffers(good, d.cached[p], p, k, n);
    PartsDetermine(good, img, p);
    if Checksummed(good) != Checksummed(img) {
      BurstFailsVerification(good, img, k, n);
    }
  }

  /** Stamping the id takes differences away and adds none. */
  lemma StampedDiffers(good: Image, bad: Image, p: PageId, k: nat, n: nat)
    requires Names(good, p) && StoredChecksum(bad) == StoredChecksum(good)
    requires ShiftRegister.DifferOnlyWithin(Checksummed(good), Checksummed(bad), k, n)
    ensures ShiftRegister.DifferOnlyWithin(Checksummed(good), Checksummed(WithId(bad, p)), k, n)
    ensures StoredChecksum(WithId(bad, p)) == StoredChecksum(good)
  {
    hide IdBytes;
    var img := WithId(bad, p);
    var a, b, c := Checksummed(good), Checksummed(bad), Checksummed(img);
    assert img[CHECKSUM_AT..AFTER_CHECKSUM] == bad[CHECKSUM_AT..AFTER_CHECKSUM];
    forall i | 0 <= i < |a| ensures c[i] == if i < 4 then a[i] else b[i] {
      if i < 4 { assert good[..4][i] == good[i] && a[i] == good[i]; }
    }
    var front, back := b[..k], b[k + n..];
    assert forall i | 0 <= i < |front| :: c[..k][i] == front[i];
    assert forall i | 0 <= i < |back| :: c[k + n..][i] == back[i];
  }

  /** A page is its id, its content and its checksum field; the checksum covers the first two. */
  lemma PartsDetermine(a: Image, b: Image, p: PageId)
    requires Names(a, p) && Names(b, p) && StoredChecksum(a) == StoredChecksum(b)
    ensures ContentOf(a) == ContentOf(b) <==> a == b
    ensures Checksummed(a) == Checksummed(b) <==> a == b
  {
    hide IdBytes;
    SameField(a, b);
    assert a == a[..4] + a[4..CHECKSUM_AT] + a[CHECKSUM_AT..AFTER_CHECKSUM] + a[AFTER_CHECKSUM..];
    assert b == b[..4] + b[4..CHECKSUM_AT] + b[CHECKSUM_AT..AFTER_CHECKSUM] + b[AFTER_CHECKSUM..];
    if ContentOf(a) == ContentOf(b) {
      assert ContentOf(a)[..12] == a[4..CHECKSUM_AT] && ContentOf(a)[12..] == a[AFTER_CHECKSUM..];
      assert ContentOf(b)[..12] == b[4..CHECKSUM_AT] && ContentOf(b)[12..] == b[AFTER_CHECKSUM..];
    }
    if Checksummed(a) == Checksummed(b) {
      var x, y := Checksummed(a), Checksummed(b);
      assert x[4..CHECKSUM_AT] == a[4..CHECKSUM_AT] && x[CHECKSUM_AT..] == a[AFTER_CHECKSUM..];
      assert y[4..CHECKSUM_AT] == b[4..CHECKSUM_AT] && y[CHECKSUM_AT..] == b[AFTER_CHECKSUM..];
    }
  }

  lemma SameField(a: Image, b: Image)
    requires StoredChecksum(a) == StoredChecksum(b)
    ensures a[CHECKSUM_AT..AFTER_CHECKSUM] == b[CHECKSUM_AT..AFTER_CHECKSUM]
  {
    var x, y := a[CHECKSUM_AT..AFTER_CHECKSUM], b[CHECKSUM_AT..AFTER_CHECKSUM];
    assert Load32(x) == Load32(y);
    assert x[0] == y[0] && x[1] == y[1] && x[2] == y[2] && x[3] == y[3];
  }

  class DiskManager {
    var nextPageId: PageId
    var cached: map<PageId, Image>
    var durable: map<PageId, Image>

    ghost function State(): Disk
      reads this
    {
      Disk(nextPageId, cached, durable)
    }

    /** Opens a data file that holds `file`, whole pages only. */
    constructor (file: map<PageId, Image>, pages: PageId)
      ensures State() == Disk(pages, file, file)
    {
      nextPageId, cached, durable := pages, file, file;
    }

    method Read(p: PageId, page: Page, r: ReadOutcome) returns (ok: bool)
      requires page.Valid()
      modifies page, page.data
      ensures (ok, page.Value()) == ReadPage(State(), p, old(page.Value()), r)
    {
      hide ChecksumOk, WithId;
      if p >= nextPageId {
        return false;
      }
      if r.Broken? {
        page.Fill(r.left);
        return false;
      }
      if p !in cached {
        return false;
      }
      page.Fill(cached[p]);
      page.SetPageId(p);
      page.MarkClean();
      ok := page.VerifyChecksum();
    }

    method Write(p: PageId, page: Page, w: WriteOutcome) returns (ok: bool)
      requires page.Valid()
      modifies this`cached, page.data
      ensures (ok, State(), page.Value()) == WritePage(old(State()), p, old(page.Value()), w)
    {
      hide Sealed;
      page.UpdateChecksum();
      if w.Refused? {
        return false;
      }
      cached := cached[p := if w.Written? then page.data[..] else w.left];
      ok := w.Written?;
    }

    method Allocate(grown: bool) returns (id: PageId)
      modifies this
      ensures (State(), id) == AllocatePage(old(State()), grown)
    {
      id := nextPageId;
      nextPageId := (nextPageId + 1) % 0x1_0000_0000;
      if grown {
        var img := if id in cached then cached[id][..PAGE_SIZE - 1] + [0] else ZeroImage();
        cached := cached[id := img];
        durable := cached;
      }
    }

    method Flush()
      modifies this`durable
      ensures State() == Sync(old(State()))
    {
      durable := cached;
    }
  }
}
