/**
 The buffer pool object. Each method is proved to do exactly what its function in PoolSpec
 says, so everything proved about those functions holds of the object.
 */
module BufferPools {
  import opened Wrappers
  import opened Sequences
  import opened Pages
  import opened DiskStore
  import opened PoolSpec
  import opened PoolInvariant
  import opened FrameSlots
  import PoolPreservation
  import PoolPages
  import PoolSweep

  class BufferPool {
    const slots: seq<Slot>
    const disk: DiskManager
    var pageTable: map<PageId, nat>
    var freeList: seq<nat>
    var clockHand: nat
    var dirtyCount: nat
    var metricDirtyPages: nat

    ghost function Footprint(): set<object> {
      {this, disk} + Owned(slots)
    }

    ghost function State(): Pool
      requires Apart(slots)
      reads Footprint()
    {
      Pool(Values(slots), pageTable, freeList, clockHand, dirtyCount, metricDirtyPages, disk.State())
    }

    ghost predicate Valid()
      reads Footprint()
    {
      Apart(slots) && Inv(State())
    }

    constructor (poolSize: nat, disk: DiskManager)
      requires poolSize < COUNTER_RANGE
      ensures Valid() && this.disk == disk && fresh(Owned(slots))
      ensures State() == Initial(poolSize, disk.State())
    {
      hide Inv;
      var made := MakeSlots(poolSize);
      slots := made;
      this.disk := disk;
      pageTable, freeList, clockHand, dirtyCount, metricDirtyPages := map[], [], 0, 0, 0;
      new;
      for i := 0 to poolSize
        invariant freeList == seq(i, k => k)
        invariant pageTable == map[] && clockHand == dirtyCount == metricDirtyPages == 0
        invariant AllEmpty(slots)
      {
        freeList := freeList + [i];
      }
      assert Values(slots) == seq(poolSize, _ => Frame(EMPTY_PAGE, false));
      PoolPreservation.InitialInv(poolSize, disk.State());
    }

    method EvictFrame(i: nat, w: WriteOutcome) returns (ok: bool)
      requires Apart(slots) && i < |slots|
      modifies this, disk, Parts(slots[i])
      ensures (State(), ok) == Evict(old(State()), i, w)
    {
      hide WritePage, EMPTY_PAGE, Values;
      var id := slots[i].page.pageId;
      if slots[i].page.isDirty {
        ok := SealFrame(i, id, w);
        if !ok {
          return;
        }
        CountDown();
        UpdatedTwice(old(Values(slots)), i, State().frames[i], Frame(EMPTY_PAGE, false));
      }
      DropFrame(i, id);
      ok := true;
    }

    /** Seals the page of a frame and writes it to the file. */
    method SealFrame(i: nat, p: PageId, w: WriteOutcome) returns (ok: bool)
      requires Apart(slots) && i < |slots|
      modifies disk, Parts(slots[i])
      ensures var s := old(State());
              var (written, disk', sealed) := WritePage(s.disk, p, s.frames[i].page, w);
              ok == written && State() == WithPage(s, i, sealed).(disk := disk')
    {
      hide WritePage;
      PartsApart(slots, i);
      ok := disk.Write(p, slots[i].page, w);
      assert Values(slots) == old(Values(slots))[i := slots[i].Value()];
    }

    method CountDown()
      requires Apart(slots)
      modifies this
      ensures State() == old(State()).(dirtyCount := Dec(old(dirtyCount)), metric := Dec(old(metricDirtyPages)))
    {
      dirtyCount := Dec(dirtyCount);
      metricDirtyPages := Dec(metricDirtyPages);
      assert Values(slots) == old(Values(slots));
    }

    method DropFrame(i: nat, p: PageId)
      requires Apart(slots) && i < |slots|
      modifies this, Parts(slots[i])
      ensures State() == Drop(old(State()), i, p)
    {
      hide ZeroImage;
      PartsApart(slots, i);
      pageTable := pageTable - {p};
      slots[i].page.Reset();
      slots[i].Refer(false);
      assert Values(slots) == old(Values(slots))[i := slots[i].Value()];
    }

    /** One look of the clock hand at a frame, which is taken or left. */
    method Examine(idx: nat, ghost k: nat, w: WriteOutcome) returns (taken: bool)
      requires Apart(slots) && idx < |slots| && idx == At(State(), k)
      modifies this, disk, Parts(slots[idx])
      ensures (if taken then Victim(State(), idx) else Next(State())) == Probe(old(State()), k, w)
    {
      hide Evict;
      PartsApart(slots, idx);
      var slot := slots[idx];
      if slot.page.pinCount > 0 {
        return false;
      }
      if slot.page.pageId == INVALID_PAGE_ID {
        return false;
      }
      if slot.referenced {
        slot.Refer(false);
        assert Values(slots) == old(Values(slots))[idx := slot.Value()];
        return false;
      }
      taken := EvictFrame(idx, w);
      if taken {
        clockHand := (idx + 1) % |slots|;
      }
    }

    /** Iteration `i` of a pass; `k` probes were made before the pass. */
    method ProbeNext(i: nat, k: nat, io: WriteOracle) returns (victim: Option<nat>)
      requires Apart(slots) && i < |slots| && (k == 0 || k == |slots|)
      modifies Footprint()
      ensures Sweep(old(State()), k + i, io) ==
              if victim.Some? then (State(), victim) else Sweep(State(), k + i + 1, io)
    {
      hide Sweep, Probe, Values;
      SweepOnce(State(), k + i, io);
      var idx := (clockHand + i) % |slots|;
      PassModulo(clockHand, i, k, |slots|);
      PartsOwned(slots, idx);
      var taken := Examine(idx, k + i, io(k + i));
      victim := if taken then Some(idx) else None;
    }

    /** One pass of the clock. */
    method SweepPass(k: nat, io: WriteOracle) returns (victim: Option<nat>)
      requires Apart(slots) && (k == 0 || k == |slots|)
      modifies Footprint()
      ensures Sweep(old(State()), k, io) ==
              if victim.Some? then (State(), victim) else Sweep(State(), k + |slots|, io)
    {
      hide Sweep;
      for i := 0 to |slots|
        invariant Sweep(State(), k + i, io) == Sweep(old(State()), k, io)
      {
        victim := ProbeNext(i, k, io);
        if victim.Some? {
          return;
        }
      }
      victim := None;
    }

    /** The two passes of the clock. */
    method ClockSweep(io: WriteOracle) returns (victim: Option<nat>)
      requires Apart(slots)
      modifies Footprint()
      ensures (State(), victim) == Sweep(old(State()), 0, io)
    {
      hide Sweep;
      victim := SweepPass(0, io);
      if victim.None? {
        victim := SweepPass(|slots|, io);
      }
      SweepEnds(State(), io);
    }

    method FindVictimFrame(io: WriteOracle) returns (victim: Option<nat>)
      requires Apart(slots) && Shape(State())
      modifies Footprint()
      ensures (State(), victim) == FindVictim(old(State()), io)
    {
      if freeList != [] {
        victim := Some(freeList[0]);
        freeList := freeList[1..];
      } else {
        victim := ClockSweep(io);
      }
    }

    method FetchPage(p: PageId, io: WriteOracle, r: ReadOutcome) returns (frame: Option<nat>)
      requires Valid()
      modifies Footprint()
      ensures Valid()
      ensures (State(), frame) == Fetch(old(State()), p, io, r)
    {
      hide Inv, Fetch, Values, PinResident;
      PoolPreservation.FetchKeeps(State(), p, io, r);
      PoolPreservation.InvHasShape(State());
      if p in pageTable {
        PoolPages.FetchHits(State(), p, io, r);
        frame := Some(pageTable[p]);
        PartsOwned(slots, pageTable[p]);
        PinFrame(p);
      } else {
        frame := FetchMissing(p, io, r);
      }
    }

    method FetchMissing(p: PageId, io: WriteOracle, r: ReadOutcome) returns (frame: Option<nat>)
      requires Apart(slots) && Shape(State()) && p !in pageTable
      modifies Footprint()
      ensures (State(), frame) == Fetch(old(State()), p, io, r)
    {
      hide FindVictim, Load, Values;
      frame := FindVictimFrame(io);
      if frame.Some? {
        PartsOwned(slots, frame.value);
        frame := LoadInto(frame.value, p, r);
      }
    }

    method PinFrame(p: PageId)
      requires Apart(slots) && Shape(State()) && p in pageTable
      modifies Parts(slots[pageTable[p]])
      ensures State() == PinResident(old(State()), p)
    {
      var i := pageTable[p];
      PartsApart(slots, i);
      slots[i].page.Pin();
      slots[i].Refer(true);
      assert Values(slots) == old(Values(slots))[i := slots[i].Value()];
    }

    method LoadInto(i: nat, p: PageId, r: ReadOutcome) returns (frame: Option<nat>)
      requires Apart(slots) && i < |slots|
      modifies this, Parts(slots[i])
      ensures (State(), frame) == Load(old(State()), i, p, r)
    {
      hide ReadPage, Values;
      ghost var s := State();
      var ok := ReadFrame(i, p, r);
      if !ok {
        GiveBack(i);
        return None;
      }
      ghost var read := State().frames[i];
      Install(i, p);
      UpdatedTwice(s.frames, i, read, Frame(read.page.(pins := read.page.pins + 1, dirty := false), true));
      frame := Some(i);
    }

    method GiveBack(i: nat)
      requires Apart(slots)
      modifies this
      ensures State() == old(State()).(free := old(freeList) + [i])
    {
      freeList := freeList + [i];
      assert Values(slots) == old(Values(slots));
    }

    method ReadFrame(i: nat, p: PageId, r: ReadOutcome) returns (ok: bool)
      requires Apart(slots) && i < |slots|
      modifies Parts(slots[i])
      ensures var s := old(State());
              var (read, page) := ReadPage(s.disk, p, s.frames[i].page, r);
              ok == read && State() == WithPage(s, i, page)
    {
      hide ReadPage;
      PartsApart(slots, i);
      ok := disk.Read(p, slots[i].page, r);
      assert Values(slots) == old(Values(slots))[i := slots[i].Value()];
    }

    method Install(i: nat, p: PageId)
      requires Apart(slots) && i < |slots|
      modifies this, Parts(slots[i])
      ensures var s := old(State());
              var page := s.frames[i].page.(pins := s.frames[i].page.pins + 1, dirty := false);
              State() == s.(frames := s.frames[i := Frame(page, true)], table := s.table[p := i])
    {
      PartsApart(slots, i);
      slots[i].page.Pin();
      slots[i].page.MarkClean();
      slots[i].Refer(true);
      pageTable := pageTable[p := i];
      assert Values(slots) == old(Values(slots))[i := slots[i].Value()];
    }

    /** Page ids must not be exhausted: see PoolPreservation.NewPageKeeps. */
    method NewPage(io: WriteOracle, grown: bool) returns (page: Option<(PageId, nat)>)
      requires Valid()
      modifies Footprint()
      ensures (State(), page) == PoolSpec.NewPage(old(State()), io, grown)
      ensures Valid() <==> page.None? || old(disk.nextPageId) != INVALID_PAGE_ID
    {
      hide Inv, FindVictim, Create, Values;
      PoolPreservation.NewPageKeeps(State(), io, grown);
      PoolPreservation.InvHasShape(State());
      var victim := FindVictimFrame(io);
      if victim.None? {
        return None;
      }
      PartsOwned(slots, victim.value);
      var id := CreateIn(victim.value, grown);
      page := Some((id, victim.value));
    }

    method CreateIn(i: nat, grown: bool) returns (id: PageId)
      requires Apart(slots) && i < |slots|
      modifies this, disk, Parts(slots[i])
      ensures (State(), id) == Create(old(State()), i, grown)
    {
      hide WithId, ZeroImage, AllocatePage;
      PartsApart(slots, i);
      id := disk.Allocate(grown);
      slots[i].page.Reset();
      slots[i].page.SetPageId(id);
      slots[i].page.Pin();
      slots[i].page.MarkClean();
      slots[i].Refer(true);
      pageTable := pageTable[id := i];
      assert Values(slots) == old(Values(slots))[i := slots[i].Value()];
    }

    method UnpinPage(p: PageId, isDirty: bool) returns (ok: bool)
      requires Valid()
      modifies Footprint()
      ensures Valid()
      ensures (State(), ok) == Unpin(old(State()), p, isDirty)
    {
      hide Inv, Inc, Values, Unpin;
      PoolPreservation.UnpinKeeps(State(), p, isDirty);
      PoolPreservation.InvHasShape(State());
      UnpinCases(State(), p, isDirty);
      ok := p in pageTable && slots[pageTable[p]].page.pinCount > 0;
      if ok {
        PartsOwned(slots, pageTable[p]);
        ReleaseFrame(pageTable[p], isDirty);
      }
    }

    method ReleaseFrame(i: nat, isDirty: bool)
      requires Apart(slots) && i < |slots| && slots[i].page.pinCount > 0
      modifies this, Parts(slots[i])
      ensures var s := old(State());
              var page := s.frames[i].page;
              var count := if isDirty && !page.dirty then Inc(s.dirtyCount) else s.dirtyCount;
              State() == WithPage(s, i, page.(pins := page.pins - 1, dirty := page.dirty || isDirty)).(
                dirtyCount := count, metric := if isDirty && !page.dirty then count else s.metric)
    {
      PartsApart(slots, i);
      var page := slots[i].page;
      page.Unpin();
      if isDirty && !page.isDirty {
        page.MarkDirty();
        dirtyCount := Inc(dirtyCount);
        metricDirtyPages := dirtyCount;
      }
      assert Values(slots) == old(Values(slots))[i := slots[i].Value()];
    }

    method FlushPage(p: PageId, w: WriteOutcome) returns (ok: bool)
      requires Valid()
      modifies Footprint()
      ensures Valid()
      ensures (State(), ok) == PoolSpec.FlushPage(old(State()), p, w)
    {
      hide Inv, Values;
      PoolPreservation.FlushKeeps(State(), p, w);
      PoolPreservation.InvHasShape(State());
      ok := true;
      if p in pageTable && slots[pageTable[p]].page.isDirty {
        PartsOwned(slots, pageTable[p]);
        ok := WriteOut(pageTable[p], p, w);
      }
    }

    method WriteOut(i: nat, p: PageId, w: WriteOutcome) returns (ok: bool)
      requires Apart(slots) && i < |slots|
      modifies this, disk, Parts(slots[i])
      ensures var s := old(State());
              var (written, disk', sealed) := WritePage(s.disk, p, s.frames[i].page, w);
              && ok == written
              && State() == if ok then WithPage(s, i, sealed.(dirty := false)).(
                                         disk := disk', dirtyCount := Dec(s.dirtyCount), metric := Dec(s.dirtyCount))
                            else WithPage(s, i, sealed).(disk := disk')
    {
      hide WritePage;
      PartsApart(slots, i);
      ok := disk.Write(p, slots[i].page, w);
      if ok {
        slots[i].page.MarkClean();
        dirtyCount := Dec(dirtyCount);
        metricDirtyPages := dirtyCount;
      }
      assert Values(slots) == old(Values(slots))[i := slots[i].Value()];
    }

    method DeletePage(p: PageId) returns (ok: bool)
      requires Valid()
      modifies Footprint()
      ensures Valid()
      ensures (State(), ok) == Delete(old(State()), p)
    {
      hide Inv, Values, Delete, Forgotten;
      PoolPreservation.DeleteKeeps(State(), p);
      PoolPreservation.InvHasShape(State());
      DeleteCases(State(), p);
      if p !in pageTable {
        return true;
      }
      var i := pageTable[p];
      if slots[i].page.pinCount > 0 {
        return false;
      }
      PartsOwned(slots, i);
      Forget(i, p);
      ok := true;
    }

    method Forget(i: nat, p: PageId)
      requires Apart(slots) && i < |slots|
      modifies this, Parts(slots[i])
      ensures State() == Forgotten(old(State()), i, p)
    {
      hide ZeroImage;
      PartsApart(slots, i);
      if slots[i].page.isDirty {
        dirtyCount := Dec(dirtyCount);
        metricDirtyPages := Dec(metricDirtyPages);
      }
      pageTable := pageTable - {p};
      freeList := freeList + [i];
      slots[i].page.Reset();
      assert Values(slots) == old(Values(slots))[i := slots[i].Value()];
    }

    /** The dirty pages, each once, in some order; as many as the counters say. */
    method GetDirtyPages() returns (result: seq<PageId>)
      requires Valid()
      ensures forall p :: p in result <==> p in DirtyPages(State())
      ensures forall i, j | 0 <= i < j < |result| :: result[i] != result[j]
      ensures |result| == dirtyCount == metricDirtyPages
    {
      hide Inv, Values;
      PoolPreservation.InvHasCounts(State());
      ghost var dirty := DirtyPages(State());
      result := CollectDirty(dirty);
      DistinctLength(result, dirty);
    }

    method CollectDirty(ghost dirty: set<PageId>) returns (result: seq<PageId>)
      requires dirty <= pageTable.Keys
      requires forall p <- pageTable :: pageTable[p] < |slots| && (p in dirty <==> slots[pageTable[p]].page.isDirty)
      ensures forall p :: p in result <==> p in dirty
      ensures forall i, j | 0 <= i < j < |result| :: result[i] != result[j]
    {
      result := [];
      var todo := pageTable.Keys;
      while todo != {}
        invariant todo <= pageTable.Keys
        invariant forall p :: p in result <==> p in dirty && p !in todo
        invariant forall i, j | 0 <= i < j < |result| :: result[i] != result[j]
        decreases todo
      {
        var p :| p in todo;
        todo := todo - {p};
        if slots[pageTable[p]].page.isDirty {
          result := result + [p];
        }
      }
    }

    /** Flushes the batch `pages[from..to]`; a failure does not stop it. */
    method FlushPages(pages: seq<PageId>, from: nat, to: nat, io: WriteOracle) returns (success: bool)
      requires Valid() && from <= to <= |pages|
      modifies Footprint()
      ensures Valid()
      ensures (State(), success) == FlushRange(old(State()), pages, from, to, io)
    {
      hide Inv, PoolSpec.FlushPage;
      PoolPreservation.InvHasShape(State());
      success := true;
      for i := from to to
        invariant Valid()
        invariant (State(), success) == FlushRange(old(State()), pages, from, i, io)
      {
        var ok := FlushPage(pages[i], io(i));
        if !ok {
          success := false;
        }
      }
    }

    /** ~BufferPool: what is dirty is written out and synced. */
    method Destroy(io: WriteOracle) returns (pages: seq<PageId>)
      requires Valid()
      modifies Footprint()
      ensures Valid()
      ensures forall p :: p in pages <==> p in DirtyPages(old(State()))
      ensures State() == if pages == [] then old(State())
                         else var s := FlushRange(old(State()), pages, 0, |pages|, io).0; s.(disk := Sync(s.disk))
    {
      hide Inv, Values, FlushRange;
      PoolPreservation.InvHasShape(State());
      pages := GetDirtyPages();
      if pages != [] {
        var _ := FlushPages(pages, 0, |pages|, io);
        SyncAll();
      }
    }

    method SyncAll()
      requires Valid()
      modifies disk
      ensures Valid()
      ensures State() == old(State()).(disk := Sync(old(State()).disk))
    {
      hide Inv;
      PoolPreservation.SyncKeeps(State());
      disk.Flush();
      assert Values(slots) == old(Values(slots));
    }
  }

  lemma SweepOnce(s: Pool, k: nat, io: WriteOracle)
    requires k < 2 * |s.frames|
    ensures Sweep(s, k, io) == match Probe(s, k, io(k))
                               case Next(s1) => Sweep(s1, k + 1, io)
                               case Victim(s1, i) => (s1, Some(i))
  {
    hide Probe;
  }

  lemma UnpinCases(s: Pool, p: PageId, isDirty: bool)
    requires Shape(s)
    ensures if p !in s.table || s.frames[s.table[p]].page.pins == 0 then Unpin(s, p, isDirty) == (s, false)
            else
              var page := s.frames[s.table[p]].page;
              var count := if isDirty && !page.dirty then Inc(s.dirtyCount) else s.dirtyCount;
              var released := page.(pins := page.pins - 1, dirty := page.dirty || isDirty);
              Unpin(s, p, isDirty) ==
              (WithPage(s, s.table[p], released).(
                 dirtyCount := count, metric := if isDirty && !page.dirty then count else s.metric), true)
  {
  }

  lemma DeleteCases(s: Pool, p: PageId)
    requires Shape(s)
    ensures p !in s.table ==> Delete(s, p) == (s, true)
    ensures p in s.table && s.frames[s.table[p]].page.pins > 0 ==> Delete(s, p) == (s, false)
    ensures p in s.table && s.frames[s.table[p]].page.pins == 0 ==> Delete(s, p) == (Forgotten(s, s.table[p], p), true)
  {
  }

  /** Page `p` is dropped from frame `i`, which is free again. */
  ghost function Forgotten(s: Pool, i: nat, p: PageId): Pool
    requires i < |s.frames|
  {
    var dirty := s.frames[i].page.dirty;
    WithPage(s, i, EMPTY_PAGE).(
      table := s.table - {p}, free := s.free + [i],
      dirtyCount := if dirty then Dec(s.dirtyCount) else s.dirtyCount,
      metric := if dirty then Dec(s.metric) else s.metric)
  }

  lemma SweepEnds(s: Pool, io: WriteOracle)
    ensures Sweep(s, |s.frames| + |s.frames|, io) == (s, None)
  {
  }

  /** The second pass meets the same frames as the first. */
  lemma PassModulo(hand: nat, i: nat, k: nat, n: nat)
    requires n > 0 && (k == 0 || k == n)
    ensures (hand + i) % n == (hand + (k + i)) % n
  {
    var x, pass := hand + i, if k == 0 then 0 else 1;
    PoolSweep.DivisionUnique(x / n + pass, x % n, n, (x + k) / n, (x + k) % n);
  }

  lemma {:induction false} DistinctLength(s: seq<PageId>, a: set<PageId>)
    requires forall i, j | 0 <= i < j < |s| :: s[i] != s[j]
    requires forall p :: p in s <==> p in a
    ensures |s| == |a|
  {
    if s == [] {
      assert a == {};
    } else {
      var p := s[0];
      forall q ensures q in s[1..] <==> q in a - {p} {
        if q in s[1..] {
          var j :| 0 <= j < |s| - 1 && s[1..][j] == q;
          assert s[j + 1] == q;
        }
      }
      DistinctLength(s[1..], a - {p});
    }
  }
}
