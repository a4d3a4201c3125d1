/**
 What a checkpoint reports when writes fail: for every pattern of failures, which pages of the
 snapshot stay dirty, and that pages_written counts the pages of just those batches in which
 every write succeeded.
 */
module CheckpointCounts {
  import opened Pages
  import opened DiskStore
  import opened PoolSpec
  import opened PoolInvariant
  import opened PoolPreservation
  import opened PoolPages
  import opened PoolRuns
  import opened CheckpointSpec

  ghost predicate AllWritten(io: WriteOracle, i: nat, j: nat) {
    forall k | i <= k < j :: io(k).Written?
  }

  /** A page is in the range, and its write failed. */
  ghost predicate Failed(pages: seq<PageId>, i: nat, j: nat, io: WriteOracle, p: PageId) {
    exists k | i <= k < j <= |pages| :: pages[k] == p && !io(k).Written?
  }

  ghost predicate Distinct(pages: seq<PageId>) {
    forall i, j | 0 <= i < j < |pages| :: pages[i] != pages[j]
  }

  /** After a flush of part of the snapshot, a page is dirty exactly if it was dirty and is not in that
      part, or its write failed; and the flush reports success exactly if none failed. */
  lemma {:induction false} FlushRangeExact(s: Pool, pages: seq<PageId>, i: nat, j: nat, io: WriteOracle, p: PageId)
    requires Inv(s) && i <= j <= |pages| && Distinct(pages)
    requires forall k | i <= k < j :: !Clean(LookAt(s, pages[k]))
    ensures var (t, ok) := FlushRange(s, pages, i, j, io);
            && (Clean(LookAt(t, p)) <==> Clean(LookAt(s, p)) || (p in pages[i..j] && !Failed(pages, i, j, io, p)))
            && (ok <==> AllWritten(io, i, j))
    decreases j - i
  {
    hide Inv, LookAt, FlushPage, ImageOf, Failed, Clean;
    InvHasShape(s);
    FailedStep(pages, i, j, io, p);
    if i < j {
      var k := j - 1;
      var t := FlushRange(s, pages, i, k, io).0;
      FlushRangeExact(s, pages, i, k, io, p);
      FlushRangeExact(s, pages, i, k, io, pages[k]);
      FlushRangeKeeps(s, pages, i, k, io);
      FlushedClean(t, pages[k], io(k), p);
      FlushedClean(t, pages[k], io(k), pages[k]);
      assert pages[i..j] == pages[i..k] + [pages[k]];
      NotBefore(pages, i, k);
      FailedStep(pages, i, k, io, pages[k]);
    }
  }

  lemma NotBefore(pages: seq<PageId>, i: nat, k: nat)
    requires Distinct(pages) && i <= k < |pages|
    ensures pages[k] !in pages[i..k]
  {
  }

  /** The last of a range, and the rest of it. */
  lemma FailedStep(pages: seq<PageId>, i: nat, j: nat, io: WriteOracle, p: PageId)
    requires i <= j <= |pages|
    ensures i == j ==> !Failed(pages, i, j, io, p)
    ensures i < j ==> (Failed(pages, i, j, io, p) <==>
                       Failed(pages, i, j - 1, io, p) || (pages[j - 1] == p && !io(j - 1).Written?))
    ensures Failed(pages, i, j, io, p) ==> p in pages[i..j]
  {
    if Failed(pages, i, j, io, p) {
      var k :| i <= k < j && pages[k] == p && !io(k).Written?;
      assert pages[i..j][k - i] == p;
    }
  }

  /** One flush: what is dirty after it. */
  lemma FlushedClean(s: Pool, p: PageId, w: WriteOutcome, q: PageId)
    requires Inv(s)
    ensures var (t, ok) := FlushPage(s, p, w);
            && (Clean(LookAt(t, q)) <==> Clean(LookAt(s, q)) || (q == p && w.Written?))
            && (!Clean(LookAt(s, p)) ==> ok == w.Written?)
  {
    hide Inv, LookAt, FlushPage, ImageOf;
    FlushedPage(s, p, w, q);
    FlushedPage(s, p, w, p);
  }

  // The batches

  /** Where batch `k` starts. */
  function Start(k: nat, batch: nat): nat { k * batch }

  lemma StartNext(k: nat, batch: nat)
    requires k > 0
    ensures Start(0, batch) == 0 && Start(k, batch) == Start(k - 1, batch) + batch
  {
  }

  /** The pages of the first `k` batches, without the batches in which a write failed. */
  ghost function Counted(total: nat, batch: nat, k: nat, io: WriteOracle): nat {
    if k == 0 then 0
    else
      var i := Start(k - 1, batch);
      var end := Min(i + batch, total);
      Counted(total, batch, k - 1, io) + if i < total && AllWritten(io, i, end) then end - i else 0
  }

  lemma DirtyRange(s: Pool, pages: seq<PageId>, n: nat, j: nat, io: WriteOracle)
    requires Inv(s) && Snapshot(s, pages) && n <= j <= |pages|
    ensures var t := FlushRange(s, pages, 0, n, io).0;
            Inv(t) && forall k | n <= k < j :: !Clean(LookAt(t, pages[k]))
  {
    hide Inv, LookAt, Clean, FlushRange, Failed;
    FlushRangeKeeps(s, pages, 0, n, io);
    InvHasShape(s);
    forall k | 0 <= k < |pages| ensures !Clean(LookAt(s, pages[k])) { DirtyInSnapshot(s, pages[k]); }
    forall k | n <= k < j ensures !Clean(LookAt(FlushRange(s, pages, 0, n, io).0, pages[k])) {
      FlushRangeExact(s, pages, 0, n, io, pages[k]);
      assert pages[k] !in pages[0..n];
    }
  }

  /** After `k` iterations the loop stands at `k` times the batch size, unless it is through. */
  lemma {:induction false} CountedSoFar(s: Pool, pages: seq<PageId>, k: nat, batch: nat, io: WriteOracle)
    requires Inv(s) && Snapshot(s, pages)
    ensures var p := ProgressAfter(s, pages, k, batch, io);
            && p.written == Counted(|pages|, batch, k, io)
            && (p.i == Start(k, batch) || (p.i >= |pages| && Start(k, batch) >= |pages|))
  {
    hide Inv, Snapshot, FlushRange, AllWritten, LookAt, Clean, Shape, Failed, Start;
    InvHasShape(s);
    StartNext(if k == 0 then 1 else k, batch);
    if k > 0 {
      CountedSoFar(s, pages, k - 1, batch, io);
      var p := ProgressAfter(s, pages, k - 1, batch, io);
      if p.i < |pages| {
        var end := Min(p.i + batch, |pages|);
        ProgressIsPrefix(s, pages, k - 1, batch, io);
        DirtyRange(s, pages, p.i, end, io);
        OneReport(p.pool, pages, p.i, end, io, s);
      }
    }
  }

  lemma OneReport(t: Pool, pages: seq<PageId>, i: nat, j: nat, io: WriteOracle, s: Pool)
    requires Inv(t) && i <= j <= |pages| && Shape(s) && Snapshot(s, pages)
    requires forall k | i <= k < j :: !Clean(LookAt(t, pages[k]))
    ensures FlushRange(t, pages, i, j, io).1 <==> AllWritten(io, i, j)
  {
    hide Inv, LookAt, Clean, Failed, FlushRange;
    FlushRangeExact(t, pages, i, j, io, 0);
  }

  /** A checkpoint that is not interrupted counts the pages of the batches without a failed write, and
      leaves dirty just the pages of the snapshot whose write failed. */
  lemma PagesWrittenExact(
    s: Pool, pages: seq<PageId>, batch: nat, t: Trigger, runs: nat -> bool, io: WriteOracle, p: PageId)
    requires Inv(s) && Snapshot(s, pages) && batch > 0
    requires t.Shutdown? || forall k :: runs(k)
    ensures var (u, n) := BatchLoop(s, pages, batch, t, runs, io);
            && n == Counted(|pages|, batch, |pages|, io)
            && (Clean(LookAt(u, p)) <==> !Failed(pages, 0, |pages|, io, p))
  {
    hide Inv, LookAt, Clean, Failed, FlushRange, ProgressAfter, Counted, Snapshot;
    InvHasShape(s);
    var k := Rounds(s, pages, batch, t, runs, io);
    CountedSoFar(s, pages, k, batch, io);
    ProgressIsPrefix(s, pages, k, batch, io);
    assert Start(|pages|, batch) >= |pages|;
    CountedStays(|pages|, batch, k, |pages|, io);
    SnapshotExact(s, pages, io, p);
  }

  lemma SnapshotExact(s: Pool, pages: seq<PageId>, io: WriteOracle, p: PageId)
    requires Inv(s) && Snapshot(s, pages)
    ensures Clean(LookAt(FlushRange(s, pages, 0, |pages|, io).0, p)) <==> !Failed(pages, 0, |pages|, io, p)
  {
    hide Inv, LookAt, Clean, Failed, FlushRange;
    InvHasShape(s);
    forall k | 0 <= k < |pages| ensures !Clean(LookAt(s, pages[k])) { DirtyInSnapshot(s, pages[k]); }
    FlushRangeExact(s, pages, 0, |pages|, io, p);
    assert pages[0..|pages|] == pages;
    DirtyInSnapshot(s, p);
    FailedStep(pages, 0, |pages|, io, p);
  }

  /** No batch counts beyond the end. */
  lemma {:induction false} CountedStays(total: nat, batch: nat, k: nat, m: nat, io: WriteOracle)
    requires Start(k, batch) >= total && Start(m, batch) >= total
    ensures Counted(total, batch, k, io) == Counted(total, batch, m, io)
    decreases k + m
  {
    hide AllWritten, Start;
    if k < m {
      if Start(m - 1, batch) >= total {
        CountedStays(total, batch, k, m - 1, io);
      } else {
        Monotone(k, m - 1, batch);
      }
    } else if m < k {
      if Start(k - 1, batch) >= total {
        CountedStays(total, batch, k - 1, m, io);
      } else {
        Monotone(m, k - 1, batch);
      }
    }
  }

  lemma Monotone(a: nat, b: nat, batch: nat)
    requires a <= b
    ensures Start(a, batch) <= Start(b, batch)
  {
  }
}
