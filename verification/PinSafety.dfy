/** Pins over whole runs: they balance, and while one is held the page stays put. */
module PinSafety {
  import opened Pages
  import opened DiskStore
  import opened PoolSpec
  import opened PoolSweep
  import opened PoolInvariant
  import opened PoolPreservation
  import opened PoolPages
  import opened PoolRuns

  /** +1 for a fetch of `p` or a creation of `p` that succeeds, -1 for an unpin of `p` that
      succeeds. */
  ghost function Delta(s: Pool, op: Op, p: PageId): int
    requires Shape(s)
  {
    match op
    case DoFetch(q, io, r) => if q == p && Fetch(s, q, io, r).1.Some? then 1 else 0
    case DoNew(io, grown) => if s.disk.next == p && NewPage(s, io, grown).1.Some? then 1 else 0
    case DoUnpin(q, isDirty, _) => if q == p && Unpin(s, q, isDirty).1 then -1 else 0
    case _ => 0
  }

  lemma VictimKeepsPins(p: PageId, l: Look, m: Look)
    requires Yielded(p, l, m, false)
    ensures (if m.res.Some? then m.res.value.pins else 0) == (if l.res.Some? then l.res.value.pins else 0)
  {
  }

  lemma PinsAfterNew(s: Pool, io: WriteOracle, grown: bool, p: PageId)
    requires Inv(s) && s.disk.next != INVALID_PAGE_ID
    ensures PinsOf(NewPage(s, io, grown).0, p) == PinsOf(s, p) + Delta(s, DoNew(io, grown), p)
  {
    var mid := NewedPage(s, io, grown, p);
    VictimKeepsPins(p, LookAt(s, p), mid);
    assert s.disk.next !in s.table;
  }

  /** The change of a page's pin count by one step, evictions and deletions included. */
  lemma PinsAfterStep(y: Sys, op: Op, p: PageId)
    requires Good(y) && Allowed(y, op)
    ensures PinsOf(Step(y, op).pool, p) == PinsOf(y.pool, p) + Delta(y.pool, op, p)
  {
    hide LookAt, Fetch, NewPage, Unpin, PoolSpec.FlushPage, Delete, ClientWrite, Inv;
    var s := y.pool;
    match op {
      case DoFetch(q, io, r) =>
        if q in s.table {
          FetchHits(s, q, io, r);
          PinnedPage(s, q, p);
        } else {
          MissedPage(s, q, io, r, p);
        }
      case DoNew(io, grown) => PinsAfterNew(s, io, grown, p);
      case DoUnpin(q, isDirty, _) => UnpinnedPage(s, q, isDirty, p);
      case DoFlush(q, w) => FlushedPage(s, q, w, p);
      case DoDelete(q) => DeletedPage(s, q, p);
      case DoWrite(q, c, _) => WrittenPage(s, q, c, p);
      case DoSync => SyncedPage(s, p);
    }
  }

  /** Successful fetches and creations of `p` minus successful unpins over a run. */
  ghost function Balance(y: Sys, ops: seq<Op>, p: PageId): int
    decreases |ops|
  {
    if ops == [] || !Allowed(y, ops[0]) then 0
    else
      Delta(y.pool, ops[0], p) + Balance(Step(y, ops[0]), ops[1..], p)
  }

  /** The pin count of every page is the balance of its pins, over any run. */
  lemma {:induction false} PinsBalance(y: Sys, ops: seq<Op>, z: Sys, p: PageId)
    requires Good(y) && RunsTo(y, ops, z)
    ensures PinsOf(z.pool, p) == PinsOf(y.pool, p) + Balance(y, ops, p)
    decreases |ops|
  {
    if ops != [] {
      StepKeepsGood(y, ops[0]);
      PinsAfterStep(y, ops[0], p);
      PinsBalance(Step(y, ops[0]), ops[1..], z, p);
    }
  }

  // A pinned page stays in its frame.

  lemma VictimSparesPinned(s: Pool, io: WriteOracle, p: PageId)
    requires Inv(s) && PinsOf(s, p) > 0
    ensures Lookup(FindVictim(s, io).0.table, p) == Lookup(s.table, p)
  {
    hide FindVictim, WritePage, ContentOf, Names;
    var mid, c := VictimChosen(s, io);
    assert SameFrame(s.frames[s.table[p]], mid.frames[s.table[p]]);
  }

  lemma GoodInv(y: Sys)
    requires Good(y)
    ensures Inv(y.pool)
  {
  }

  lemma FrameKept(y: Sys, op: Op, p: PageId)
    requires Good(y) && Allowed(y, op) && PinsOf(y.pool, p) > 0
    ensures Lookup(Step(y, op).pool.table, p) == Lookup(y.pool.table, p)
  {
    hide FindVictim, ReadPage, WritePage, BookAfter, NewPage, Good, ContentOf, Names;
    GoodInv(y);
    var s := y.pool;
    match op {
      case DoFetch(q, io, r) => VictimSparesPinned(s, io, p);
      case DoNew(io, grown) => NewKeepsFrame(s, io, grown, p);
      case _ =>
    }
  }

  lemma NewKeepsFrame(s: Pool, io: WriteOracle, grown: bool, p: PageId)
    requires Inv(s) && PinsOf(s, p) > 0
    ensures Shape(s) && Lookup(NewPage(s, io, grown).0.table, p) == Lookup(s.table, p)
  {
    hide FindVictim, Create, Inv, LookAt;
    InvHasShape(s);
    ResidentBelowNext(s, p);
    VictimSparesPinned(s, io, p);
    FindVictimKeeps(s, io);
    var (s1, v) := FindVictim(s, io);
    if v.Some? {
      CreateMaps(s1, v.value, grown);
    }
  }

  lemma CreateMaps(s: Pool, i: nat, grown: bool)
    requires i < |s.frames|
    ensures Create(s, i, grown).0.table == s.table[s.disk.next := i]
  {
    hide WithId, ZeroImage;
  }

  lemma ContentKept(y: Sys, op: Op, p: PageId)
    requires Good(y) && Allowed(y, op) && PinsOf(y.pool, p) > 0
    requires !(op.DoWrite? && op.p == p)
    ensures var m := LookAt(Step(y, op).pool, p);
            m.res.Some? && m.res.value.content == LookAt(y.pool, p).res.value.content
  {
    hide LookAt, Fetch, NewPage, Unpin, PoolSpec.FlushPage, Delete, ClientWrite, Inv;
    var s := y.pool;
    match op {
      case DoFetch(q, io, r) =>
        if q in s.table {
          FetchHits(s, q, io, r);
          PinnedPage(s, q, p);
        } else {
          MissedPage(s, q, io, r, p);
        }
      case DoNew(io, grown) =>
        var mid := NewedPage(s, io, grown, p);
        ResidentBelowNext(s, p);
      case DoUnpin(q, isDirty, _) => UnpinnedPage(s, q, isDirty, p);
      case DoFlush(q, w) => FlushedPage(s, q, w, p);
      case DoDelete(q) => DeletedPage(s, q, p);
      case DoWrite(q, c, _) => WrittenPage(s, q, c, p);
      case DoSync => SyncedPage(s, p);
    }
  }

  /** `p` is pinned before each step of the run. */
  ghost predicate PinnedThroughout(y: Sys, ops: seq<Op>, p: PageId)
    decreases |ops|
  {
    ops == [] || (PinsOf(y.pool, p) > 0 && Allowed(y, ops[0]) && PinnedThroughout(Step(y, ops[0]), ops[1..], p))
  }

  /** While a page is pinned, no sequence of operations moves it to another frame or removes
      it, and only a client's write to it changes its content. */
  lemma {:induction false} PinnedPageStays(y: Sys, ops: seq<Op>, z: Sys, p: PageId)
    requires Good(y) && RunsTo(y, ops, z) && PinnedThroughout(y, ops, p)
    ensures Lookup(z.pool.table, p) == Lookup(y.pool.table, p)
    ensures (forall op <- ops :: !(op.DoWrite? && op.p == p)) && ops != [] ==>
              var l, m := LookAt(y.pool, p), LookAt(z.pool, p);
              l.res.Some? && m.res.Some? && m.res.value.content == l.res.value.content
    decreases |ops|
  {
    if ops != [] {
      StepKeepsGood(y, ops[0]);
      FrameKept(y, ops[0], p);
      if !(ops[0].DoWrite? && ops[0].p == p) {
        ContentKept(y, ops[0], p);
      }
      PinnedPageStays(Step(y, ops[0]), ops[1..], z, p);
    }
  }
}
