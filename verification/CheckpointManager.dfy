/** The checkpoint manager object over a buffer pool and a write-ahead log. */
module CheckpointManagers {
  import opened Pages
  import opened DiskStore
  import opened PoolSpec
  import opened PoolInvariant
  import opened CheckpointSpec
  import opened PoolPages
  import opened PoolPreservation
  import opened PoolRuns
  import opened Wrappers
  import opened BufferPools
  import opened FrameSlots
  import opened WriteAheadLogs
  import WalSpec
  import WalCodec

  /** The log after both records of a checkpoint; truncated unless nothing was written. */
  function LogAfterCheckpoint(
    w: WalSpec.Wal, wrote: bool, beginIo: WalSpec.AppendIo, endIo: WalSpec.AppendIo, removed: nat -> bool): WalSpec.Wal
  {
    var (w1, begin) := WalSpec.Append(w, WalSpec.BeginRecord(), beginIo);
    var (w2, end) := WalSpec.Append(w1, WalSpec.EndRecord(begin), endIo);
    var w3 := WalSpec.Force(w2, end);
    if wrote then WalSpec.Truncate(w3, removed) else w3
  }

  /** The pool after a checkpoint that found `pages` dirty, and pages_written. */
  ghost function PoolAfterCheckpoint(
    s: Pool, pages: seq<PageId>, batch: nat, t: Trigger, runs: nat -> bool, io: WriteOracle): (Pool, nat)
    requires Shape(s) && CanEnd(|pages|, batch, t, runs)
  {
    if pages == [] then (s, 0)
    else
      var (s1, n) := BatchLoop(s, pages, batch, t, runs, io);
      (s1.(disk := Sync(s1.disk)), n)
  }

  datatype Phase = BeginLogged | SnapshotTaken | SnapshotWritten | EndLogged

  /** A phase, and the two flags while it ran. */
  datatype Moment = Moment(phase: Phase, inProgress: bool, blocking: bool)

  /** The phases in the order that safety depends on. */
  function PhasesInOrder(blocking: bool): seq<Moment> {
    [Moment(BeginLogged, true, blocking), Moment(SnapshotTaken, true, blocking),
     Moment(SnapshotWritten, true, blocking), Moment(EndLogged, true, blocking)]
  }

  class CheckpointManager {
    const pool: BufferPool
    const wal: WriteAheadLog
    const batchSize: nat
    var inProgress: bool
    var blockingMode: bool
    var checkpointCount: nat
    var pagesWrittenTotal: nat
    var forcedCount: nat
    var blockingCount: nat
    ghost var trace: seq<Moment>

    constructor (pool: BufferPool, wal: WriteAheadLog, batchSize: nat)
      ensures this.pool == pool && this.wal == wal && this.batchSize == batchSize
      ensures !inProgress && !blockingMode
      ensures checkpointCount == pagesWrittenTotal == forcedCount == blockingCount == 0 && trace == []
    {
      this.pool, this.wal, this.batchSize := pool, wal, batchSize;
      inProgress, blockingMode := false, false;
      checkpointCount, pagesWrittenTotal, forcedCount, blockingCount := 0, 0, 0, 0;
      trace := [];
    }

    /** A checkpoint with nothing running beside it. The batch loop must be able to end, which
        CheckpointSpec.BatchLoopEnds says exactly when it does. */
    method DoCheckpoint(trigger: Trigger, runs: nat -> bool, io: WriteOracle,
                        beginIo: WalSpec.AppendIo, endIo: WalSpec.AppendIo, removed: nat -> bool)
      returns (pages: seq<PageId>, written: nat)
      requires pool.Valid() && CanEnd(pool.dirtyCount, batchSize, trigger, runs)
      modifies this, pool.Footprint(), wal
      ensures pool.Valid() && !inProgress && !blockingMode
      ensures Shape(old(pool.State())) && Snapshot(old(pool.State()), pages)
      ensures CanEnd(|pages|, batchSize, trigger, runs)
      ensures (pool.State(), written) == PoolAfterCheckpoint(old(pool.State()), pages, batchSize, trigger, runs, io)
      ensures wal.State() == LogAfterCheckpoint(old(wal.State()), pages != [], beginIo, endIo, removed)
      ensures checkpointCount == old(checkpointCount) + if pages == [] then 0 else 1
      ensures pagesWrittenTotal == old(pagesWrittenTotal) + written
      ensures forcedCount == old(forcedCount) + if pages == [] || trigger.Timer? || trigger.Manual? then 0 else 1
      ensures blockingCount == old(blockingCount) + if trigger.DirtyHardLimit? then 1 else 0
      ensures trace == old(trace) + PhasesInOrder(old(blockingMode) || trigger.DirtyHardLimit?)
    {
      hide PhasesInOrder;
      hide Inv, CanEnd, PoolAfterCheckpoint, LogAfterCheckpoint, Snapshot, Shape;
      hide BufferPool.State, BufferPool.Valid;
      Raise(trigger);
      pages, written := Phases(trigger, runs, io, beginIo, endIo, removed);
      if pages != [] {
        Record(trigger, written);
      }
      Lower();
    }

    /** The six phases, from CHECKPOINT_BEGIN to the truncation. */
    method Phases(trigger: Trigger, runs: nat -> bool, io: WriteOracle,
                  beginIo: WalSpec.AppendIo, endIo: WalSpec.AppendIo, removed: nat -> bool)
      returns (pages: seq<PageId>, written: nat)
      requires pool.Valid() && CanEnd(pool.dirtyCount, batchSize, trigger, runs) && inProgress
      modifies this`trace, pool.Footprint(), wal
      ensures pool.Valid() && Shape(old(pool.State())) && Snapshot(old(pool.State()), pages)
      ensures trace == old(trace) + PhasesInOrder(blockingMode)
      ensures CanEnd(|pages|, batchSize, trigger, runs) && (pages == [] ==> written == 0)
      ensures (pool.State(), written) == PoolAfterCheckpoint(old(pool.State()), pages, batchSize, trigger, runs, io)
      ensures wal.State() == LogAfterCheckpoint(old(wal.State()), pages != [], beginIo, endIo, removed)
    {
      hide Inv, CanEnd, PoolAfterCheckpoint, Shape, BufferPool.State, BufferPool.Valid;
      hide WalSpec.Append, WalSpec.Force, WalSpec.Truncate, PhasesInOrder, Snapshot;
      InOrder(trace, blockingMode);
      var begin := LogBegin(beginIo);
      pages := TakeSnapshot();
      written := WriteSnapshot(pages, trigger, runs, io);
      LogEnd(begin, pages != [], endIo, removed);
    }

    /** Announce the checkpoint; at the hard limit, make transactions wait. */
    method Raise(trigger: Trigger)
      requires pool.Valid()
      modifies this
      ensures pool.Valid() && pool.State() == old(pool.State()) && pool.dirtyCount == old(pool.dirtyCount)
      ensures inProgress && blockingMode == (old(blockingMode) || trigger.DirtyHardLimit?)
      ensures blockingCount == old(blockingCount) + if trigger.DirtyHardLimit? then 1 else 0
      ensures unchanged(this`checkpointCount, this`pagesWrittenTotal, this`forcedCount, this`trace)
    {
      hide Inv;
      inProgress := true;
      if trigger.DirtyHardLimit? {
        blockingMode := true;
        blockingCount := blockingCount + 1;
      }
      assert Values(pool.slots) == old(Values(pool.slots));
    }

    method Lower()
      requires pool.Valid()
      modifies this`inProgress, this`blockingMode
      ensures pool.Valid() && pool.State() == old(pool.State())
      ensures !inProgress && !blockingMode
    {
      hide Inv;
      inProgress := false;
      blockingMode := false;
      assert Values(pool.slots) == old(Values(pool.slots));
    }

    method Record(trigger: Trigger, written: nat)
      requires pool.Valid()
      modifies this`checkpointCount, this`pagesWrittenTotal, this`forcedCount
      ensures pool.Valid() && pool.State() == old(pool.State())
      ensures checkpointCount == old(checkpointCount) + 1
      ensures pagesWrittenTotal == old(pagesWrittenTotal) + written
      ensures forcedCount == old(forcedCount) + if trigger.Timer? || trigger.Manual? then 0 else 1
    {
      hide Inv;
      checkpointCount := checkpointCount + 1;
      pagesWrittenTotal := pagesWrittenTotal + written;
      if !trigger.Timer? && !trigger.Manual? {
        forcedCount := forcedCount + 1;
      }
      assert Values(pool.slots) == old(Values(pool.slots));
    }

    ghost function Now(phase: Phase): Moment
      reads this
    {
      Moment(phase, inProgress, blockingMode)
    }

    ghost method Mark(phase: Phase)
      requires pool.Valid()
      modifies this`trace
      ensures pool.Valid() && pool.State() == old(pool.State()) && pool.dirtyCount == old(pool.dirtyCount)
      ensures trace == old(trace) + [Now(phase)]
    {
      hide Inv;
      trace := trace + [Now(phase)];
      assert Values(pool.slots) == old(Values(pool.slots));
    }

    method LogBegin(io: WalSpec.AppendIo) returns (begin: WalCodec.U64)
      requires pool.Valid()
      modifies this`trace, wal
      ensures trace == old(trace) + [Now(BeginLogged)]
      ensures pool.Valid() && Shape(pool.State())
      ensures pool.State() == old(pool.State()) && pool.dirtyCount == old(pool.dirtyCount)
      ensures (wal.State(), begin) == WalSpec.Append(old(wal.State()), WalSpec.BeginRecord(), io)
    {
      hide Inv, WalSpec.Append;
      InvHasShape(pool.State());
      begin := wal.WriteCheckpointBegin(io);
      assert Values(pool.slots) == old(Values(pool.slots));
      Mark(BeginLogged);
    }

    method TakeSnapshot() returns (pages: seq<PageId>)
      requires pool.Valid() && Shape(pool.State())
      modifies this`trace
      ensures pool.Valid() && pool.State() == old(pool.State()) && Snapshot(pool.State(), pages)
      ensures |pages| == pool.dirtyCount
      ensures trace == old(trace) + [Now(SnapshotTaken)]
    {
      hide Inv;
      pages := pool.GetDirtyPages();
      assert Values(pool.slots) == old(Values(pool.slots));
      Mark(SnapshotTaken);
    }

    /** CHECKPOINT_END, and the truncation that follows it unless nothing was written. */
    method LogEnd(begin: WalCodec.U64, wrote: bool, io: WalSpec.AppendIo, removed: nat -> bool)
      requires pool.Valid()
      modifies this`trace, wal
      ensures trace == old(trace) + [Now(EndLogged)]
      ensures pool.Valid() && pool.State() == old(pool.State())
      ensures var (w, end) := WalSpec.Append(old(wal.State()), WalSpec.EndRecord(begin), io);
              wal.State() == if wrote then WalSpec.Truncate(WalSpec.Force(w, end), removed) else WalSpec.Force(w, end)
    {
      hide Inv, WalSpec.Append, WalSpec.Force, WalSpec.Truncate;
      var _ := wal.WriteCheckpointEnd(begin, io);
      if wrote {
        wal.TruncateBefore(begin, removed);
      }
      assert Values(pool.slots) == old(Values(pool.slots));
      Mark(EndLogged);
    }

    /** The batches and the sync; nothing at all for an empty snapshot. */
    method WriteSnapshot(pages: seq<PageId>, trigger: Trigger, runs: nat -> bool, io: WriteOracle)
      returns (written: nat)
      requires pool.Valid() && Shape(pool.State()) && CanEnd(|pages|, batchSize, trigger, runs)
      modifies this`trace, pool.Footprint()
      ensures trace == old(trace) + [Now(SnapshotWritten)]
      ensures pool.Valid() && (pages == [] ==> written == 0)
      ensures (pool.State(), written) == PoolAfterCheckpoint(old(pool.State()), pages, batchSize, trigger, runs, io)
    {
      hide Inv, Shape, BatchLoop, BufferPool.State;
      written := 0;
      if pages != [] {
        written := FlushInBatches(pages, trigger, runs, io);
        pool.SyncAll();
      }
      Mark(SnapshotWritten);
    }

    /** The batch loop. */
    method FlushInBatches(pages: seq<PageId>, trigger: Trigger, runs: nat -> bool, io: WriteOracle)
      returns (written: nat)
      requires pool.Valid() && Shape(pool.State()) && CanEnd(|pages|, batchSize, trigger, runs)
      modifies pool.Footprint()
      ensures pool.Valid()
      ensures (pool.State(), written) == BatchLoop(old(pool.State()), pages, batchSize, trigger, runs, io)
    {
      hide Inv, Shape, CanEnd, Rounds, ProgressAfter, OneBatch, BufferPool.State;
      written := 0;
      var i: nat := 0;
      ghost var s := pool.State();
      ghost var last := Rounds(s, pages, batchSize, trigger, runs, io);
      var k := 0;
      ProgressSteps(s, pages, batchSize, io);
      while i < |pages|
        invariant pool.Valid() && Shape(pool.State()) && k <= last
        invariant Progress(pool.State(), i, written) == ProgressAfter(s, pages, k, batchSize, io)
        decreases last - k
      {
        if !runs(k) && !trigger.Shutdown? {
          break;
        }
        assert !StopsAt(s, pages, k, batchSize, trigger, runs, io);
        written := FlushBatch(pages, i, written, io);
        i := i + batchSize;
        k := k + 1;
      }
      assert StopsAt(s, pages, k, batchSize, trigger, runs, io);
    }

    /** One batch, counted if all its pages were flushed. */
    method FlushBatch(pages: seq<PageId>, i: nat, before: nat, io: WriteOracle) returns (written: nat)
      requires pool.Valid() && Shape(pool.State()) && i < |pages|
      modifies pool.Footprint()
      ensures pool.Valid() && Shape(pool.State())
      ensures Progress(pool.State(), i + batchSize, written)
           == OneBatch(Progress(old(pool.State()), i, before), pages, batchSize, io)
    {
      hide Inv, FlushRange;
      var end := Min(i + batchSize, |pages|);
      var ok := pool.FlushPages(pages, i, end, io);
      written := before;
      if ok {
        written := written + (end - i);
      }
    }
  }

  lemma InOrder(t: seq<Moment>, b: bool)
    ensures t + [Moment(BeginLogged, true, b)] + [Moment(SnapshotTaken, true, b)] + [Moment(SnapshotWritten, true, b)]
            + [Moment(EndLogged, true, b)] == t + PhasesInOrder(b)
  {
  }

  lemma ProgressSteps(s: Pool, pages: seq<PageId>, batch: nat, io: WriteOracle)
    requires Shape(s)
    ensures ProgressAfter(s, pages, 0, batch, io) == Progress(s, 0, 0)
    ensures forall k: nat ::
              ProgressAfter(s, pages, k + 1, batch, io) ==
              OneBatch(ProgressAfter(s, pages, k, batch, io), pages, batch, io)
  {
    hide OneBatch;
  }

  /** A checkpoint with no failing write and no interruption leaves nothing dirty and both dirty
      counters at zero, counts every dirty page as written, whatever the batch size, and leaves
      every page that was dirty in the pool, in the stream and in the file with one content. */
  lemma QuiescentCheckpoint(s: Pool, pages: seq<PageId>, batch: nat, t: Trigger, runs: nat -> bool, io: WriteOracle)
    requires Inv(s) && Snapshot(s, pages) && batch > 0
    requires forall k :: io(k).Written?
    requires t.Shutdown? || forall k :: runs(k)
    ensures var (u, n) := PoolAfterCheckpoint(s, pages, batch, t, runs, io);
            && Inv(u) && DirtyPages(u) == {} && u.dirtyCount == u.metric == 0
            && n == |pages| == |DirtyPages(s)|
            && (forall p | p in DirtyPages(s) ::
                  var l, m := LookAt(s, p), LookAt(u, p);
                  && l.res.Some? && m.res == Some(l.res.value.(dirty := false))
                  && m.disk.Some? && m.safe == m.disk && ContentOf(m.disk.value) == l.res.value.content)
  {
    hide Inv, BatchLoop, FlushRange, LookAt;
    InvHasShape(s);
    BatchLoopIsOneFlush(s, pages, batch, t, runs, io);
    SnapshotFlushed(s, pages, io);
    DistinctLength(pages, DirtyPages(s));
    var v := FlushRange(s, pages, 0, |pages|, io).0;
    if pages == [] {
      FlushRangeEmpty(s, pages, 0, io);
    } else {
      SyncKeeps(v);
      SyncedLooks(v);
    }
    forall p | p in DirtyPages(s) ensures !Clean(LookAt(s, p)) && pages != [] {
      DirtyInSnapshot(s, p);
      assert p in pages;
    }
  }

  lemma SyncedLooks(s: Pool)
    requires Shape(s)
    ensures var t := s.(disk := Sync(s.disk));
            && DirtyPages(t) == DirtyPages(s)
            && forall p: PageId :: LookAt(t, p) == LookAt(s, p).(safe := LookAt(s, p).disk)
  {
    forall p: PageId ensures LookAt(s.(disk := Sync(s.disk)), p) == LookAt(s, p).(safe := LookAt(s, p).disk) {
      SyncedPage(s, p);
    }
  }
}
