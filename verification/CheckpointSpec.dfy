/**
 The flushing part of a checkpoint as functions on the pool: `io(j)` is the outcome of the
 write for the j-th page of the snapshot, and `runs(k)` whether the manager was found
 running when iteration `k` of the batch loop began.
 */
module CheckpointSpec {
  import opened Pages
  import opened DiskStore
  import opened PoolSpec
  import opened PoolInvariant
  import opened PoolPreservation
  import opened PoolPages
  import opened PoolRuns

  datatype Trigger = Timer | WalSize | DirtySoftLimit | DirtyHardLimit | Manual | Shutdown

  function Min(a: nat, b: nat): nat { if a < b then a else b }

  /** The batch loop of do_checkpoint between two iterations; `written` is pages_written. */
  datatype Progress = Progress(pool: Pool, i: nat, written: nat)

  /** One iteration that is not broken off. */
  function OneBatch(p: Progress, pages: seq<PageId>, batch: nat, io: WriteOracle): (r: Progress)
    requires Shape(p.pool)
    ensures Shape(r.pool)
  {
    if p.i >= |pages| then p
    else
      var end := Min(p.i + batch, |pages|);
      var (pool, ok) := FlushRange(p.pool, pages, p.i, end, io);
      Progress(pool, p.i + batch, p.written + if ok then end - p.i else 0)
  }

  function ProgressAfter(s: Pool, pages: seq<PageId>, k: nat, batch: nat, io: WriteOracle): (r: Progress)
    requires Shape(s)
    ensures Shape(r.pool)
  {
    if k == 0 then Progress(s, 0, 0) else OneBatch(ProgressAfter(s, pages, k - 1, batch, io), pages, batch, io)
  }

  /** Before iteration `k` the loop ends, or it is broken off at its start. */
  predicate Stops(p: Progress, k: nat, pages: seq<PageId>, t: Trigger, runs: nat -> bool) {
    p.i >= |pages| || (!runs(k) && !t.Shutdown?)
  }

  ghost predicate StopsAt(
    s: Pool, pages: seq<PageId>, k: nat, batch: nat, t: Trigger, runs: nat -> bool, io: WriteOracle)
    requires Shape(s)
  {
    Stops(ProgressAfter(s, pages, k, batch, io), k, pages, t, runs)
  }

  /** With batches of size zero the index never moves, so that only an interruption ends the loop. */
  ghost predicate CanEnd(total: nat, batch: nat, t: Trigger, runs: nat -> bool) {
    batch > 0 || total == 0 || (!t.Shutdown? && exists k: nat :: !runs(k))
  }

  lemma {:induction false} ProgressIndex(s: Pool, pages: seq<PageId>, k: nat, batch: nat, io: WriteOracle)
    requires Shape(s)
    ensures var i := ProgressAfter(s, pages, k, batch, io).i;
            if batch == 0 then i == 0 else i >= |pages| || i >= k
  {
    hide FlushRange;
    if k > 0 {
      ProgressIndex(s, pages, k - 1, batch, io);
    }
  }

  /** The batch loop stops after some number of iterations if and only if the batch size is
      positive, there is nothing to write, or an interruption is seen. */
  lemma BatchLoopEnds(s: Pool, pages: seq<PageId>, batch: nat, t: Trigger, runs: nat -> bool, io: WriteOracle)
    requires Shape(s)
    ensures (exists k: nat :: StopsAt(s, pages, k, batch, t, runs, io)) <==> CanEnd(|pages|, batch, t, runs)
  {
    hide ProgressAfter;
    if batch > 0 || pages == [] {
      ProgressIndex(s, pages, |pages|, batch, io);
      assert StopsAt(s, pages, |pages|, batch, t, runs, io);
    } else if CanEnd(|pages|, batch, t, runs) {
      var k: nat :| !runs(k);
      assert StopsAt(s, pages, k, batch, t, runs, io);
    } else {
      forall k: nat ensures !StopsAt(s, pages, k, batch, t, runs, io) {
        ProgressIndex(s, pages, k, batch, io);
      }
    }
  }

  ghost predicate StopsFirstAt(
    s: Pool, pages: seq<PageId>, n: nat, batch: nat, t: Trigger, runs: nat -> bool, io: WriteOracle)
    requires Shape(s)
  {
    && StopsAt(s, pages, n, batch, t, runs, io)
    && forall k | 0 <= k < n :: !StopsAt(s, pages, k, batch, t, runs, io)
  }

  lemma {:induction false} FirstStop(
    s: Pool, pages: seq<PageId>, k: nat, batch: nat, t: Trigger, runs: nat -> bool, io: WriteOracle) returns (n: nat)
    requires Shape(s) && StopsAt(s, pages, k, batch, t, runs, io)
    ensures StopsFirstAt(s, pages, n, batch, t, runs, io)
  {
    hide StopsAt;
    n := k;
    if j :| 0 <= j < k && StopsAt(s, pages, j, batch, t, runs, io) {
      n := FirstStop(s, pages, j, batch, t, runs, io);
    }
  }

  /** How many iterations the loop makes. */
  ghost function Rounds(
    s: Pool, pages: seq<PageId>, batch: nat, t: Trigger, runs: nat -> bool, io: WriteOracle): (n: nat)
    requires Shape(s) && CanEnd(|pages|, batch, t, runs)
    ensures StopsFirstAt(s, pages, n, batch, t, runs, io)
  {
    assert exists n: nat :: StopsFirstAt(s, pages, n, batch, t, runs, io) by {
      BatchLoopEnds(s, pages, batch, t, runs, io);
      var k: nat :| StopsAt(s, pages, k, batch, t, runs, io);
      var n := FirstStop(s, pages, k, batch, t, runs, io);
    }
    var n: nat :| StopsFirstAt(s, pages, n, batch, t, runs, io);
    n
  }

  /** The batch loop: the pool after it and pages_written. */
  ghost function BatchLoop(
    s: Pool, pages: seq<PageId>, batch: nat, t: Trigger, runs: nat -> bool, io: WriteOracle): (Pool, nat)
    requires Shape(s) && CanEnd(|pages|, batch, t, runs)
  {
    var p := ProgressAfter(s, pages, Rounds(s, pages, batch, t, runs, io), batch, io);
    (p.pool, p.written)
  }

  // Splitting a range

  lemma {:induction false} FlushRangeSplit(s: Pool, pages: seq<PageId>, i: nat, k: nat, j: nat, io: WriteOracle)
    requires i <= k <= j <= |pages| && Shape(s)
    ensures var (t, ok) := FlushRange(s, pages, i, k, io);
            var (u, ok') := FlushRange(t, pages, k, j, io);
            FlushRange(s, pages, i, j, io) == (u, ok && ok')
    decreases j - k
  {
    if k < j {
      FlushRangeSplit(s, pages, i, k, j - 1, io);
    }
  }

  lemma {:induction false} FlushRangeReports(s: Pool, pages: seq<PageId>, i: nat, j: nat, io: WriteOracle)
    requires i <= j <= |pages| && Shape(s)
    requires forall k | i <= k < j :: io(k).Written?
    ensures FlushRange(s, pages, i, j, io).1
    decreases j - i
  {
    if i < j {
      FlushRangeReports(s, pages, i, j - 1, io);
    }
  }

  lemma {:induction false} FlushRangeKeeps(s: Pool, pages: seq<PageId>, i: nat, j: nat, io: WriteOracle)
    requires i <= j <= |pages| && Inv(s)
    ensures Inv(FlushRange(s, pages, i, j, io).0)
    decreases j - i
  {
    if i < j {
      FlushRangeKeeps(s, pages, i, j - 1, io);
      FlushKeeps(FlushRange(s, pages, i, j - 1, io).0, pages[j - 1], io(j - 1));
    }
  }

  /** However far the loop is, and whatever failed in it, it has flushed a prefix of the
      snapshot; pages_written counts all of it if no write failed. */
  lemma {:induction false} ProgressIsPrefix(s: Pool, pages: seq<PageId>, k: nat, batch: nat, io: WriteOracle)
    requires Shape(s)
    ensures var p := ProgressAfter(s, pages, k, batch, io);
            && p.pool == FlushRange(s, pages, 0, Min(p.i, |pages|), io).0
            && p.written <= Min(p.i, |pages|)
            && ((forall j :: io(j).Written?) ==> p.written == Min(p.i, |pages|))
  {
    hide FlushRange, FlushPage;
    if k == 0 {
      FlushRangeEmpty(s, pages, 0, io);
    } else {
      ProgressIsPrefix(s, pages, k - 1, batch, io);
      var p := ProgressAfter(s, pages, k - 1, batch, io);
      if p.i < |pages| {
        var end := Min(p.i + batch, |pages|);
        FlushRangeSplit(s, pages, 0, p.i, end, io);
        if forall j :: io(j).Written? {
          FlushRangeReports(p.pool, pages, p.i, end, io);
        }
      }
    }
  }

  /** Whatever the batch size, an uninterrupted loop whose writes succeed is one flush of the
      whole snapshot, and counts every page of it. */
  lemma BatchLoopIsOneFlush(
    s: Pool, pages: seq<PageId>, batch: nat, t: Trigger, runs: nat -> bool, io: WriteOracle)
    requires batch > 0 && Shape(s)
    requires forall k :: io(k).Written?
    requires t.Shutdown? || forall k :: runs(k)
    ensures BatchLoop(s, pages, batch, t, runs, io) == (FlushRange(s, pages, 0, |pages|, io).0, |pages|)
  {
    hide FlushRange, ProgressAfter;
    ProgressIsPrefix(s, pages, Rounds(s, pages, batch, t, runs, io), batch, io);
  }

  lemma FlushRangeEmpty(s: Pool, pages: seq<PageId>, i: nat, io: WriteOracle)
    requires i <= |pages| && Shape(s)
    ensures FlushRange(s, pages, i, i, io) == (s, true)
  {
  }

  // What a flush of the whole snapshot leaves behind

  lemma {:induction false} FlushRangePage(s: Pool, pages: seq<PageId>, i: nat, j: nat, io: WriteOracle, p: PageId)
    requires i <= j <= |pages| && Inv(s)
    requires forall k :: io(k).Written?
    ensures var l, m := LookAt(s, p), LookAt(FlushRange(s, pages, i, j, io).0, p);
            if p in pages[i..j] then FlushedLook(p, l, m) else m == l
    decreases j - i
  {
    hide LookAt, FlushPage, FlushedLook;
    if i < j {
      var k := j - 1;
      FlushRangePage(s, pages, i, k, io, p);
      FlushRangeKeeps(s, pages, i, k, io);
      var t := FlushRange(s, pages, i, k, io).0;
      WrittenOutPage(t, pages[k], p);
      assert pages[i..j] == pages[i..k] + [pages[k]];
      if p in pages[i..k] && p == pages[k] {
        FlushedTwice(p, LookAt(s, p), LookAt(t, p), LookAt(FlushRange(s, pages, i, j, io).0, p));
      }
    }
  }

  /** `pages` lists the dirty pages of `s`, each once. */
  ghost predicate Snapshot(s: Pool, pages: seq<PageId>)
    requires Shape(s)
  {
    && (forall p: PageId :: p in pages <==> p in DirtyPages(s))
    && (forall i, j | 0 <= i < j < |pages| :: pages[i] != pages[j])
  }

  lemma DirtyInSnapshot(s: Pool, p: PageId)
    requires Shape(s)
    ensures p in DirtyPages(s) <==> !Clean(LookAt(s, p))
  {
  }

  /** The quiescent checkpoint: no page is left dirty, both counters are zero, and every page
      that was dirty is in the stream with the content it has in the pool. */
  lemma SnapshotFlushed(s: Pool, pages: seq<PageId>, io: WriteOracle)
    requires Inv(s) && Snapshot(s, pages)
    requires forall k :: io(k).Written?
    ensures var t := FlushRange(s, pages, 0, |pages|, io).0;
            && Inv(t) && DirtyPages(t) == {} && t.dirtyCount == t.metric == 0
            && (forall p: PageId :: FlushedLook(p, LookAt(s, p), LookAt(t, p)))
  {
    var t := FlushRange(s, pages, 0, |pages|, io).0;
    FlushRangeKeeps(s, pages, 0, |pages|, io);
    assert pages[0..|pages|] == pages;
    forall p: PageId ensures FlushedLook(p, LookAt(s, p), LookAt(t, p)) && p !in DirtyPages(t) {
      FlushRangePage(s, pages, 0, |pages|, io, p);
      DirtyInSnapshot(s, p);
      DirtyInSnapshot(t, p);
    }
    assert DirtyPages(t) == {};
  }

  // Is what was declared before the checkpoint durable after it?

  ghost predicate Declared(y: Sys, p: PageId) {
    p in y.books && y.books[p].saved.Some?
  }

  /** The flushed image of `p` holds its declared content, or a later one. */
  ghost predicate DurablyHeld(s: Pool, p: PageId, b: Book) {
    var safe := LookAt(s, p).safe;
    b.saved.Some? && safe.Some? && Holds(safe.value, b.hist, b.saved.value)
  }

  /** The state when CHECKPOINT_END is logged: with nothing to write, the code takes the early
      exit, which does not sync. */
  function AtCheckpointEnd(s: Pool, pages: seq<PageId>, io: WriteOracle): Pool
    requires Shape(s)
  {
    if pages == [] then s else
      var t := FlushRange(s, pages, 0, |pages|, io).0;
      t.(disk := Sync(t.disk))
  }

  /** For one page, the stream being all that matters. */
  ghost predicate NotWaiting(s: Pool, p: PageId) {
    var l := LookAt(s, p);
    l.safe.Some? && l.disk.Some? && ContentOf(l.safe.value) == ContentOf(l.disk.value)
  }

  lemma LastIsHeld(img: Image, h: seq<Content>)
    requires h != []
    ensures Holds(img, h, |h| - 1) <==> ContentOf(img) == Last(h)
  {
  }

  /** A checkpoint among idle clients makes everything declared durable if and only if it had
      something to write, or nothing declared was waiting in the stream: the early exit for an
      empty snapshot logs CHECKPOINT_END without a sync. */
  lemma QuiescentGuarantee(y: Sys, pages: seq<PageId>, io: WriteOracle)
    requires Good(y) && Snapshot(y.pool, pages)
    requires forall k :: io(k).Written?
    requires forall p <- y.books :: y.books[p].writers == 0
    ensures var t := AtCheckpointEnd(y.pool, pages, io);
            (forall p | Declared(y, p) :: DurablyHeld(t, p, y.books[p])) <==>
            pages != [] || forall p | Declared(y, p) :: NotWaiting(y.pool, p)
  {
    var s, t := y.pool, AtCheckpointEnd(y.pool, pages, io);
    SnapshotFlushed(s, pages, io);
    forall p | Declared(y, p)
      ensures if pages != [] then DurablyHeld(t, p, y.books[p])
              else DurablyHeld(t, p, y.books[p]) <==> NotWaiting(s, p)
    {
      DeclaredPageAtEnd(y, pages, io, p);
    }
  }

  lemma DeclaredPageAtEnd(y: Sys, pages: seq<PageId>, io: WriteOracle, p: PageId)
    requires Good(y) && Snapshot(y.pool, pages) && Declared(y, p) && y.books[p].writers == 0
    requires FlushedLook(p, LookAt(y.pool, p), LookAt(FlushRange(y.pool, pages, 0, |pages|, io).0, p))
    ensures var t := AtCheckpointEnd(y.pool, pages, io);
            if pages != [] then DurablyHeld(t, p, y.books[p])
            else DurablyHeld(t, p, y.books[p]) <==> NotWaiting(y.pool, p)
  {
    var s, b := y.pool, y.books[p];
    var l := LookAt(s, p);
    assert PageGood(p, l, Lookup(y.books, p), s.disk.next);
    DirtyInSnapshot(s, p);
    var u := FlushRange(s, pages, 0, |pages|, io).0;
    if pages != [] {
      LastIsHeld(LookAt(u, p).disk.value, b.hist);
    } else if l.safe.Some? {
      LastIsHeld(l.safe.value, b.hist);
    }
  }
}
