/**
 The step machine of FuzzyCheckpoint covers the program: every checkpoint that the manager
 object performs, whatever I/O fails and whenever it is interrupted, is one of its runs.
 */
module CheckpointRefinement {
  import opened Pages
  import DiskStore
  import opened PoolSpec
  import opened CheckpointSpec
  import opened CheckpointManagers
  import opened F = FuzzyCheckpoint
  import WalSpec
  import WalCodec

  lemma {:induction false} RunThen(v: World, es: seq<Event>, y: World, e: Event)
    requires F.RunsTo(v, es, y) && Enabled(y, e)
    ensures F.RunsTo(v, es + [e], After(y, e))
    decreases |es|
  {
    hide Enabled, After;
    if es == [] {
      assert es + [e] == [e] && [e][1..] == [];
      assert F.RunsTo(After(y, e), [], After(y, e));
    } else {
      assert (es + [e])[0] == es[0] && (es + [e])[1..] == es[1..] + [e];
      RunThen(After(v, es[0]), es[1..], y, e);
    }
  }

  /** The batch loop flushes a prefix of what it was given, whatever fails in it. */
  lemma BatchLoopIsPrefix(s: Pool, pages: seq<PageId>, batch: nat, t: Trigger, runs: nat -> bool, io: WriteOracle)
    returns (stop: nat)
    requires Shape(s) && CanEnd(|pages|, batch, t, runs)
    ensures stop <= |pages|
    ensures BatchLoop(s, pages, batch, t, runs, io).0 == FlushRange(s, pages, 0, stop, io).0
  {
    hide FlushRange, ProgressAfter;
    var n := Rounds(s, pages, batch, t, runs, io);
    ProgressIsPrefix(s, pages, n, batch, io);
    stop := Min(ProgressAfter(s, pages, n, batch, io).i, |pages|);
  }

  /** Flushing `pages[..stop]` page by page is a run of the machine. */
  lemma {:induction false} FlushRun(v: World, pages: seq<PageId>, stop: nat, io: WriteOracle)
    returns (es: seq<Event>, y: World)
    requires WorldGood(v) && v.cp.phase == Flushing(pages, 0) && stop <= |pages|
    ensures F.RunsTo(v, es, y) && WorldGood(y)
    ensures Shape(v.sys.pool) && y.sys.pool == FlushRange(v.sys.pool, pages, 0, stop, io).0
    ensures y.log == v.log && y.cp.phase == Flushing(pages, stop) && y.cp.begin == v.cp.begin
    decreases stop
  {
    hide WorldGood, PoolSpec.FlushPage;
    GoodShape(v);
    if stop == 0 {
      es, y := [], v;
    } else {
      es, y := FlushRun(v, pages, stop - 1, io);
      GoodShape(y);
      var e := FlushNext(io(stop - 1));
      EventKeepsGood(y, e);
      RunThen(v, es, y, e);
      es, y := es + [e], After(y, e);
    }
  }

  lemma GoodShape(v: World)
    requires WorldGood(v)
    ensures Shape(v.sys.pool)
  {
  }

  /** Giving up what is left, if anything, and the sync. */
  lemma SyncRun(v: World, pages: seq<PageId>, stop: nat) returns (z: World)
    requires WorldGood(v) && v.cp.phase == Flushing(pages, stop) && stop <= |pages|
    ensures F.RunsTo(v, [Interrupt, SyncAll], z) && WorldGood(z)
    ensures z.sys.pool == v.sys.pool.(disk := DiskStore.Sync(v.sys.pool.disk))
    ensures z.log == v.log && z.cp.phase == Finishing(true) && z.cp.begin == v.cp.begin
  {
    hide WorldGood, F.RunsTo;
    Nothing(v);
    EventKeepsGood(v, Interrupt);
    RunThen(v, [], v, Interrupt);
    var u := After(v, Interrupt);
    GoodShape(u);
    EventKeepsGood(u, SyncAll);
    RunThen(v, [] + [Interrupt], u, SyncAll);
    z := After(u, SyncAll);
    assert [] + [Interrupt] + [SyncAll] == [Interrupt, SyncAll];
  }

  lemma SnapshotRun(v: World, pages: seq<PageId>) returns (z: World)
    requires WorldGood(v) && v.cp.phase == Begun && Shape(v.sys.pool) && Snapshot(v.sys.pool, pages)
    ensures F.RunsTo(v, [TakeSnapshot(pages)], z) && WorldGood(z) && z.sys == v.sys && z.log == v.log
    ensures z.cp.phase == (if pages == [] then Finishing(false) else Flushing(pages, 0)) && z.cp.begin == v.cp.begin
  {
    hide WorldGood, F.RunsTo, Snapshot;
    Nothing(v);
    var e := TakeSnapshot(pages);
    EventKeepsGood(v, e);
    RunThen(v, [], v, e);
    z := After(v, e);
    assert [] + [e] == [e];
  }

  /** From the snapshot to the sync. */
  lemma WritingRun(v: World, pages: seq<PageId>, batch: nat, t: Trigger, runs: nat -> bool, io: WriteOracle)
    returns (es: seq<Event>, z: World)
    requires WorldGood(v) && v.cp.phase == Begun && Shape(v.sys.pool) && Snapshot(v.sys.pool, pages)
    requires CanEnd(|pages|, batch, t, runs)
    ensures F.RunsTo(v, es, z) && WorldGood(z)
    ensures z.sys.pool == PoolAfterCheckpoint(v.sys.pool, pages, batch, t, runs, io).0
    ensures z.log == v.log && z.cp.phase == Finishing(pages != []) && z.cp.begin == v.cp.begin
  {
    hide WorldGood, BatchLoop, FlushRange, Snapshot, F.RunsTo, CanEnd, Shape;
    z := SnapshotRun(v, pages);
    es := [TakeSnapshot(pages)];
    if pages != [] {
      var u := z;
      var stop := BatchLoopIsPrefix(u.sys.pool, pages, batch, t, runs, io);
      var fs, y := FlushRun(u, pages, stop, io);
      RunAppend(v, es, u, fs, y);
      z := SyncRun(y, pages, stop);
      RunAppend(v, es + fs, y, [Interrupt, SyncAll], z);
      es := es + fs + [Interrupt, SyncAll];
    }
  }

  lemma {:induction false} RunAppend(v: World, es: seq<Event>, y: World, fs: seq<Event>, z: World)
    requires F.RunsTo(v, es, y) && F.RunsTo(y, fs, z)
    ensures F.RunsTo(v, es + fs, z)
    decreases |es|
  {
    hide Enabled, After;
    if es == [] {
      assert es + fs == fs;
    } else {
      assert (es + fs)[0] == es[0] && (es + fs)[1..] == es[1..] + fs;
      RunAppend(After(v, es[0]), es[1..], y, fs, z);
    }
  }

  /** CHECKPOINT_END, its force, and the truncation. */
  lemma EndingRun(v: World, io: WalSpec.AppendIo, removed: nat -> bool) returns (es: seq<Event>, z: World)
    requires WorldGood(v) && v.cp.phase.Finishing? && CanAppend(v.log)
    ensures F.RunsTo(v, es, z) && z.sys == v.sys && z.cp.phase == Idle
    ensures var (w, end) := WalSpec.Append(v.log.w, WalSpec.EndRecord(v.cp.begin), io);
            z.log.w == if v.cp.phase.synced then WalSpec.Truncate(WalSpec.Force(w, end), removed)
                       else WalSpec.Force(w, end)
  {
    hide WorldGood, F.RunsTo, WalSpec.Truncate, WalSpec.Append;
    AppendReturns(v.log.w, WalSpec.EndRecord(v.cp.begin), io);
    Nothing(v);
    RunThen(v, [], v, End(io));
    es, z := [] + [End(io)], After(v, End(io));
    RunThen(v, es, z, ForceEnd);
    es, z := es + [ForceEnd], After(z, ForceEnd);
    RunThen(v, es, z, FinishUp(removed));
    es, z := es + [FinishUp(removed)], After(z, FinishUp(removed));
  }

  lemma Nothing(v: World)
    ensures F.RunsTo(v, [], v)
  {
  }

  lemma AppendReturns(w: WalSpec.Wal, r: WalCodec.Record, io: WalSpec.AppendIo)
    requires w.nextLsn + 1 < WalSpec.LSN_RANGE
    ensures var (w1, lsn) := WalSpec.Append(w, r, io);
            w1.nextLsn == w.nextLsn + 1 && lsn < w1.nextLsn
  {
    hide WalCodec.Encode, WalSpec.Landed;
  }

  lemma BeginningRun(v: World, io: WalSpec.AppendIo) returns (u: World)
    requires WorldGood(v) && v.cp.phase.Idle? && CanAppend(v.log)
    ensures F.RunsTo(v, [Begin(io)], u) && WorldGood(u) && u.sys == v.sys && u.cp.phase == Begun
    ensures (u.log.w, u.cp.begin) == WalSpec.Append(v.log.w, WalSpec.BeginRecord(), io)
    ensures u.log.w.nextLsn == v.log.w.nextLsn + 1
  {
    hide WorldGood, F.RunsTo, WalSpec.Append;
    Nothing(v);
    EventKeepsGood(v, Begin(io));
    RunThen(v, [], v, Begin(io));
    assert [] + [Begin(io)] == [Begin(io)];
    u := After(v, Begin(io));
    AppendReturns(v.log.w, WalSpec.BeginRecord(), io);
  }

  /** A checkpoint takes pool and log where the method DoCheckpoint says, for every trigger, every
      pattern of interruption with which its loop ends, and every outcome of its I/O. */
  lemma CheckpointIsARun(
    v: World, pages: seq<PageId>, batch: nat, t: Trigger, runs: nat -> bool, io: WriteOracle,
    beginIo: WalSpec.AppendIo, endIo: WalSpec.AppendIo, removed: nat -> bool)
    returns (es: seq<Event>, z: World)
    requires WorldGood(v) && v.cp.phase.Idle? && Shape(v.sys.pool) && Snapshot(v.sys.pool, pages)
    requires CanEnd(|pages|, batch, t, runs)
    requires v.log.w.nextLsn + 2 < WalSpec.LSN_RANGE
    ensures F.RunsTo(v, es, z) && z.cp.phase == Idle
    ensures z.sys.pool == PoolAfterCheckpoint(v.sys.pool, pages, batch, t, runs, io).0
    ensures z.log.w == LogAfterCheckpoint(v.log.w, pages != [], beginIo, endIo, removed)
  {
    hide WorldGood, PoolAfterCheckpoint, Snapshot, Enabled, After, F.RunsTo, CanEnd;
    hide WalSpec.Append, WalSpec.Force, WalSpec.Truncate;
    var u := BeginningRun(v, beginIo);
    var fs, y := WritingRun(u, pages, batch, t, runs, io);
    RunAppend(v, [Begin(beginIo)], u, fs, y);
    var gs, x := EndingRun(y, endIo, removed);
    RunAppend(v, [Begin(beginIo)] + fs, y, gs, x);
    es, z := [Begin(beginIo)] + fs + gs, x;
  }
}
