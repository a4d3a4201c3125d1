/**
 Exactly which pages can be fetched. A page that was created and released clean is never
 written, so that all the file has of it is zeros, whose checksum field is zero too; such an
 image verifies for at most one page id.
 */
module CleanPages {
  import opened Wrappers
  import opened Bytes
  import opened Pages
  import opened DiskStore
  import opened PoolSpec
  import opened PoolInvariant
  import opened PoolPreservation
  import opened PoolPages
  import opened PoolRuns

  /** A fetch succeeds exactly when the page is resident, or a frame can be had, the page was
      allocated and is in the file, the read works, and the image verifies. */
  lemma FetchExact(s: Pool, p: PageId, io: WriteOracle, r: ReadOutcome)
    requires Inv(s)
    ensures Fetch(s, p, io, r).1.Some? <==>
            || p in s.table
            || (&& FindVictim(s, io).1.Some? && r.Delivered?
                && p < s.disk.next && p in s.disk.cached && ChecksumOk(WithId(s.disk.cached[p], p)))
  {
    hide FindVictim, ChecksumOk, WithId, ImageOf;
    if p !in s.table {
      VictimYields(s, io, p);
      FindVictimKeeps(s, io);
      assert LookAt(FindVictim(s, io).0, p) == LookAt(s, p);
    }
  }

  // Zero images

  predicate ZeroVerifies(p: PageId) {
    ChecksumOk(WithId(ZeroImage(), p))
  }

  lemma ZeroImageParts(p: PageId)
    ensures var a := WithId(ZeroImage(), p);
            && Checksummed(a)[..4] == IdBytes(p) && Checksummed(a)[4..] == Checksummed(ZeroImage())[4..]
            && StoredChecksum(a) == StoredChecksum(ZeroImage())
  {
    hide IdBytes;
    var a, z := WithId(ZeroImage(), p), ZeroImage();
    assert a[CHECKSUM_AT..AFTER_CHECKSUM] == z[CHECKSUM_AT..AFTER_CHECKSUM];
    assert a[4..CHECKSUM_AT] == z[4..CHECKSUM_AT] && a[AFTER_CHECKSUM..] == z[AFTER_CHECKSUM..];
    assert Checksummed(a)[4..] == a[4..CHECKSUM_AT] + a[AFTER_CHECKSUM..];
    assert Checksummed(z)[4..] == z[4..CHECKSUM_AT] + z[AFTER_CHECKSUM..];
  }

  lemma IdBytesInjective(p: PageId, q: PageId)
    requires IdBytes(p) == IdBytes(q)
    ensures p == q
  {
    hide LittleEndian;
    LittleEndianInjective(p, q);
  }

  /** At most one page id makes a zero image verify. */
  lemma ZeroVerifiesOnce(p: PageId, q: PageId)
    requires ZeroVerifies(p) && ZeroVerifies(q)
    ensures p == q
  {
    hide ChecksumOf, IdBytes, Checksummed, StoredChecksum, WithId, ZeroImage;
    var a, b := WithId(ZeroImage(), p), WithId(ZeroImage(), q);
    ZeroImageParts(p);
    ZeroImageParts(q);
    if Checksummed(a) != Checksummed(b) {
      BurstChangesChecksum(a, b, 0, 4);
    }
    IdBytesInjective(p, q);
  }

  // A page that is created, released clean, and evicted

  ghost function Create(): Op { DoNew(_ => Written, true) }

  /** Page `p` is all that a pool of one frame holds, clean and with nothing written to it. */
  ghost predicate Alone(y: Sys, p: PageId, pins: nat) {
    && Good(y) && |y.pool.frames| == 1 && y.pool.disk.next == p + 1
    && LookAt(y.pool, p) ==
         Look(Some(Resident(false, pins, ContentOf(ZeroImage()), true)), Some(ZeroImage()), Some(ZeroImage()))
    && WritersOf(y, p) == 0
  }

  lemma AloneInTable(y: Sys, p: PageId, pins: nat)
    requires Alone(y, p, pins)
    ensures y.pool.table.Keys == {p} && y.pool.free == [] && y.pool.frames[0].page.pins == pins
  {
    hide ContentOf, ZeroImage, Names;
    var s := y.pool;
    assert s.table[p] == 0 && s.frames[0].page.id == p;
    forall q <- s.table ensures q == p {
      assert s.frames[s.table[q]].page.id == q;
    }
    assert Mapped(s, 0);
    assert 0 !in s.free;
    if s.free != [] {
      FirstFreeInRange(s);
      assert false;
    }
  }

  lemma FirstFreeInRange(s: Pool)
    requires Inv(s) && s.free != []
    ensures s.free[0] in s.free && s.free[0] < |s.frames|
  {
  }

  lemma CreatedAlone(y: Sys, p: PageId)
    requires Good(y) && |y.pool.frames| == 1 && y.pool.disk.next == p < INVALID_PAGE_ID
    requires FindVictim(y.pool, _ => Written).1.Some?
    ensures Allowed(y, Create()) && Alone(Step(y, Create()), p, 1)
  {
    hide FindVictim;
    assert PageGood(p, LookAt(y.pool, p), Lookup(y.books, p), p);
    StepKeepsGood(y, Create());
    StepBook(y, Create(), p);
    var mid := NewedPage(y.pool, Create().io, true, p);
    FindVictimKeeps(y.pool, Create().io);
  }

  lemma ReleasedAlone(y: Sys, p: PageId)
    requires Alone(y, p, 1)
    ensures Allowed(y, DoUnpin(p, false, false)) && Alone(Step(y, DoUnpin(p, false, false)), p, 0)
  {
    hide ContentOf, ZeroImage, Names, LookAt, Good, Unpin;
    var op := DoUnpin(p, false, false);
    GoodAt(y, p);
    StepKeepsGood(y, op);
    StepBook(y, op, p);
    UnpinnedPage(y.pool, p, false, p);
    UnpinKeepsNext(y.pool, p, false);
    UnpinKeepsSize(y.pool, p, false);
  }

  lemma UnpinKeepsSize(s: Pool, p: PageId, isDirty: bool)
    requires Shape(s)
    ensures |Unpin(s, p, isDirty).0.frames| == |s.frames|
  {
  }

  lemma VictimInOne(y: Sys, p: PageId, io: WriteOracle)
    requires Alone(y, p, 0) && forall k :: io(k).Written?
    ensures FindVictim(y.pool, io).1.Some?
  {
    hide FindVictim;
    AloneInTable(y, p, 0);
    NoVictimIffAllPinned(y.pool, io);
  }

  /** Another creation takes the only frame; the zero image of the first page stays. */
  lemma EvictedClean(y: Sys, p: PageId)
    requires Alone(y, p, 0) && p + 1 < INVALID_PAGE_ID
    ensures Allowed(y, Create()) && Alone(Step(y, Create()), p + 1, 1)
    ensures var s := Step(y, Create()).pool; p !in s.table && Lookup(s.disk.cached, p) == Some(ZeroImage())
  {
    hide FindVictim, Step, Inv, NewPage;
    VictimInOne(y, p, Create().io);
    CreatedAlone(y, p + 1);
    AloneInTable(Step(y, Create()), p + 1, 1);
    ZeroStays(y, p);
  }

  lemma ZeroStays(y: Sys, p: PageId)
    requires Alone(y, p, 0) && p + 1 < INVALID_PAGE_ID && Allowed(y, Create())
    ensures Lookup(Step(y, Create()).pool.disk.cached, p) == Some(ZeroImage())
  {
    hide FindVictim, NewPage, Inv, ImageOf;
    var mid := NewedPage(y.pool, Create().io, true, p);
    assert LookAt(Step(y, Create()).pool, p).disk == Some(ZeroImage());
  }

  ghost function CleanRun(p: PageId): seq<Op>
    requires p + 1 < INVALID_PAGE_ID
  {
    [Create(), DoUnpin(p, false, false), Create(), DoUnpin(p + 1, false, false)]
  }

  /** Create `p`, release it clean, let another page take its frame: fetching it again, with
      every write and the read succeeding, succeeds if and only if a zero image verifies for
      `p`, which it does for at most one id. */
  lemma CleanPageLost(p: PageId, file: map<PageId, Image>, io: WriteOracle) returns (z: Sys)
    requires p + 1 < INVALID_PAGE_ID && (forall q <- file :: q < p) && forall k :: io(k).Written?
    ensures RunsTo(Start(1, p, file), CleanRun(p), z) && Good(z)
    ensures Fetch(z.pool, p, io, Delivered).1.Some? <==> ZeroVerifies(p)
    ensures forall q: PageId :: ZeroVerifies(p) && ZeroVerifies(q) ==> p == q
  {
    hide FindVictim, Fetch, Step, Allowed, RunsTo, ZeroVerifies, LookAt, ContentOf, ZeroImage;
    var y0 := Start(1, p, file);
    StartGood(1, p, file);
    FirstFrame(y0.pool);
    CreatedAlone(y0, p);
    var y1 := Step(y0, Create());
    ReleasedAlone(y1, p);
    var y2 := Step(y1, DoUnpin(p, false, false));
    EvictedClean(y2, p);
    var y3 := Step(y2, Create());
    ReleasedAlone(y3, p + 1);
    z := Step(y3, DoUnpin(p + 1, false, false));
    RunOfFour(y0, Create(), DoUnpin(p, false, false), Create(), DoUnpin(p + 1, false, false));
    StillOnDisk(y3, p);
    VictimInOne(z, p + 1, io);
    AloneInTable(z, p + 1, 0);
    FetchedZero(z.pool, p, io);
    forall q: PageId | ZeroVerifies(p) && ZeroVerifies(q) ensures p == q {
      ZeroVerifiesOnce(p, q);
    }
  }

  lemma FirstFrame(s: Pool)
    requires s.free != [] && Shape(s)
    ensures FindVictim(s, _ => Written).1.Some?
  {
  }

  lemma StillOnDisk(y: Sys, p: PageId)
    requires p + 1 < INVALID_PAGE_ID && Allowed(y, DoUnpin(p + 1, false, false))
    ensures Step(y, DoUnpin(p + 1, false, false)).pool.disk == y.pool.disk
  {
  }

  lemma FetchedZero(s: Pool, p: PageId, io: WriteOracle)
    requires Inv(s) && p !in s.table && p < s.disk.next && Lookup(s.disk.cached, p) == Some(ZeroImage())
    requires FindVictim(s, io).1.Some?
    ensures Fetch(s, p, io, Delivered).1.Some? <==> ZeroVerifies(p)
  {
    hide FindVictim, Fetch, ChecksumOk;
    FetchExact(s, p, io, Delivered);
  }
}
