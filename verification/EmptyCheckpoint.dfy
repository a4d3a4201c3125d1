/**
 The early exit of `do_checkpoint` for an empty snapshot does lose the guarantee: a page is
 created, written, declared, and flushed to the stream; then nothing is dirty, the checkpoint
 logs CHECKPOINT_END without a sync, and the file still has the page's zero image.
 */
module EmptyCheckpoint {
  import opened Wrappers
  import opened Pages
  import opened DiskStore
  import opened PoolSpec
  import PoolInvariant
  import opened PoolPages
  import opened PoolRuns
  import opened CheckpointSpec

  /** A content that is not all zeros. */
  function OneByte(): Content {
    ContentOf(ZeroImage())[0 := 1]
  }

  ghost function Creation(): Op { DoNew(_ => Written, true) }

  ghost predicate OnlyPageZero(y: Sys, r: Resident, b: Book, disk: Content) {
    && Good(y)
    && LookAt(y.pool, 0).res == Some(r) && LookAt(y.pool, 0).safe == Some(ZeroImage())
    && LookAt(y.pool, 0).disk.Some? && ContentOf(LookAt(y.pool, 0).disk.value) == disk
    && Lookup(y.books, 0) == Some(b)
    && (forall q: PageId | q != 0 :: LookAt(y.pool, q).res.None? && Lookup(y.books, q).None?)
  }

  lemma Created(y: Sys)
    requires y == Start(1, 0, map[])
    ensures Allowed(y, Creation())
    ensures var zero := ContentOf(ZeroImage());
            OnlyPageZero(Step(y, Creation()), Resident(false, 1, zero, true), Book([zero], 0, None), zero)
  {
    hide WithId, ContentOf, ZeroImage, NewPage, PoolInvariant.Inv;
    StartGood(1, 0, map[]);
    FirstPage(y.pool);
    StepKeepsGood(y, Creation());
    forall q: PageId
      ensures q != 0 ==> LookAt(Step(y, Creation()).pool, q).res.None? && Lookup(Step(y, Creation()).books, q).None?
    {
      StepBook(y, Creation(), q);
      var mid := NewedPage(y.pool, Creation().io, true, q);
    }
    StepBook(y, Creation(), 0);
    var mid := NewedPage(y.pool, Creation().io, true, 0);
  }

  lemma FirstPage(s: Pool)
    requires Shape(s) && s.free != []
    ensures NewPage(s, Creation().io, true).1.Some?
  {
  }

  lemma WrittenTo(y: Sys)
    requires var zero := ContentOf(ZeroImage());
             OnlyPageZero(y, Resident(false, 1, zero, true), Book([zero], 0, None), zero)
    ensures var op := DoWrite(0, OneByte(), false);
            var zero := ContentOf(ZeroImage());
            && Allowed(y, op)
            && OnlyPageZero(Step(y, op), Resident(false, 1, OneByte(), true), Book([zero, OneByte()], 1, None), zero)
  {
    var op := DoWrite(0, OneByte(), false);
    StepKeepsGood(y, op);
    forall q: PageId
      ensures LookAt(Step(y, op).pool, q) == LookAt(y.pool, q) || q == 0
      ensures q != 0 ==> Lookup(Step(y, op).books, q).None?
    {
      StepBook(y, op, q);
      WrittenPage(y.pool, 0, OneByte(), q);
    }
    StepBook(y, op, 0);
    WrittenPage(y.pool, 0, OneByte(), 0);
    assert [ContentOf(ZeroImage())] + [OneByte()] == [ContentOf(ZeroImage()), OneByte()];
  }

  lemma DeclaredDirty(y: Sys)
    requires var zero := ContentOf(ZeroImage());
             OnlyPageZero(y, Resident(false, 1, OneByte(), true), Book([zero, OneByte()], 1, None), zero)
    ensures var op := DoUnpin(0, true, true);
            var zero := ContentOf(ZeroImage());
            && Allowed(y, op)
            && OnlyPageZero(Step(y, op), Resident(true, 0, OneByte(), true), Book([zero, OneByte()], 0, Some(1)), zero)
  {
    var op := DoUnpin(0, true, true);
    StepKeepsGood(y, op);
    forall q: PageId
      ensures LookAt(Step(y, op).pool, q) == LookAt(y.pool, q) || q == 0
      ensures q != 0 ==> Lookup(Step(y, op).books, q).None?
    {
      StepBook(y, op, q);
      UnpinnedPage(y.pool, 0, true, q);
    }
    StepBook(y, op, 0);
    UnpinnedPage(y.pool, 0, true, 0);
  }

  lemma FlushedToStream(y: Sys)
    requires var zero := ContentOf(ZeroImage());
             OnlyPageZero(y, Resident(true, 0, OneByte(), true), Book([zero, OneByte()], 0, Some(1)), zero)
    ensures var op := DoFlush(0, Written);
            var zero := ContentOf(ZeroImage());
            && Allowed(y, op)
            && OnlyPageZero(Step(y, op), Resident(false, 0, OneByte(), true),
                            Book([zero, OneByte()], 0, Some(1)), OneByte())
  {
    var op := DoFlush(0, Written);
    StepKeepsGood(y, op);
    forall q: PageId
      ensures LookAt(Step(y, op).pool, q) == LookAt(y.pool, q) || q == 0
      ensures q != 0 ==> Lookup(Step(y, op).books, q).None?
    {
      StepBook(y, op, q);
      FlushedPage(y.pool, 0, Written, q);
    }
    StepBook(y, op, 0);
    FlushedPage(y.pool, 0, Written, 0);
  }

  lemma NothingDirtyYetWaiting(z: Sys)
    requires var zero := ContentOf(ZeroImage());
             OnlyPageZero(z, Resident(false, 0, OneByte(), true), Book([zero, OneByte()], 0, Some(1)), OneByte())
    ensures Good(z) && Shape(z.pool) && Snapshot(z.pool, [])
    ensures Declared(z, 0) && !DurablyHeld(z.pool, 0, z.books[0])
  {
    forall q: PageId ensures q !in DirtyPages(z.pool) {
      DirtyInSnapshot(z.pool, q);
    }
    assert OneByte()[0] != ContentOf(ZeroImage())[0];
  }

  /** A reachable state in which a checkpoint ends, by the code's own account successfully,
      while a declared change is not durable. */
  lemma EmptySnapshotLoses(io: WriteOracle)
    ensures exists ops, z ::
              && RunsTo(Start(1, 0, map[]), ops, z) && Good(z)
              && Snapshot(z.pool, []) && Declared(z, 0)
              && !DurablyHeld(AtCheckpointEnd(z.pool, [], io), 0, z.books[0])
  {
    hide Step, Allowed, DurablyHeld, RunsTo, OneByte, OnlyPageZero, Good, Snapshot, Start;
    var y0 := Start(1, 0, map[]);
    Created(y0);
    var y1 := Step(y0, Creation());
    WrittenTo(y1);
    var y2 := Step(y1, DoWrite(0, OneByte(), false));
    DeclaredDirty(y2);
    var y3 := Step(y2, DoUnpin(0, true, true));
    FlushedToStream(y3);
    var z := Step(y3, DoFlush(0, Written));
    NothingDirtyYetWaiting(z);
    RunOfFour(y0, Creation(), DoWrite(0, OneByte(), false), DoUnpin(0, true, true), DoFlush(0, Written));
    assert RunsTo(y0, [Creation(), DoWrite(0, OneByte(), false), DoUnpin(0, true, true), DoFlush(0, Written)], z);
  }
}
