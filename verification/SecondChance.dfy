/** What the reference bit is for: a page that was just used outlives the next eviction. */
module SecondChance {
  import opened Wrappers
  import opened Pages
  import opened DiskStore
  import opened PoolSpec
  import opened PoolSweep
  import opened PoolInvariant
  import opened PoolPreservation
  import opened PoolPages

  /** `p` is resident in frame `i` with its reference bit set. */
  ghost predicate JustUsed(s: Pool, p: PageId, i: nat) {
    p in s.table && s.table[p] == i < |s.frames| && s.frames[i].referenced
  }

  lemma FetchUses(s: Pool, p: PageId, io: WriteOracle, r: ReadOutcome)
    requires Inv(s) && Fetch(s, p, io, r).1.Some?
    ensures JustUsed(Fetch(s, p, io, r).0, p, Fetch(s, p, io, r).1.value)
  {
    hide FindVictim, ReadPage;
    if p !in s.table {
      FindVictimKeeps(s, io);
    }
  }

  lemma NewPageUses(s: Pool, io: WriteOracle, grown: bool)
    requires Inv(s) && NewPage(s, io, grown).1.Some?
    ensures var (t, v) := NewPage(s, io, grown);
            v.value.0 == s.disk.next && JustUsed(t, v.value.0, v.value.1)
  {
    hide FindVictim;
    FindVictimKeeps(s, io);
  }

  lemma UnpinStillUsed(s: Pool, p: PageId, i: nat, isDirty: bool)
    requires Inv(s) && JustUsed(s, p, i)
    ensures JustUsed(Unpin(s, p, isDirty).0, p, i)
  {
  }

  /** While some frame is unpinned and has no reference bit, a full pool whose writes succeed
      does not evict a page that was just used. */
  lemma UsedIsSpared(s: Pool, p: PageId, i: nat, io: WriteOracle)
    requires Inv(s) && JustUsed(s, p, i) && s.free == []
    requires forall k :: io(k).Written?
    requires exists j | 0 <= j < |s.frames| :: s.frames[j].page.pins == 0 && !s.frames[j].referenced
    ensures var (t, v) := FindVictim(s, io);
            v.Some? && v.value != i && Lookup(t.table, p) == Some(i)
  {
    hide Sweep, Distance;
    var j :| 0 <= j < |s.frames| && s.frames[j].page.pins == 0 && !s.frames[j].referenced;
    assert Mapped(s, j);
    assert Spare(s.frames[j]);
    SweepWithoutFailures(s, io);
    var k := SweepExact(s, io);
    assert Mapped(s, At(s, k));
  }

  /** A page that was fetched and released again is not the next victim. */
  lemma FetchedPageSpared(s: Pool, p: PageId, io: WriteOracle, r: ReadOutcome, isDirty: bool, io': WriteOracle)
    requires Inv(s) && Fetch(s, p, io, r).1.Some?
    requires Shape(Fetch(s, p, io, r).0)
    requires var t := Unpin(Fetch(s, p, io, r).0, p, isDirty).0;
             t.free == [] && exists j | 0 <= j < |t.frames| :: t.frames[j].page.pins == 0 && !t.frames[j].referenced
    requires forall k :: io'(k).Written?
    ensures var t := Unpin(Fetch(s, p, io, r).0, p, isDirty).0;
            Shape(t) && Lookup(FindVictim(t, io').0.table, p) == Fetch(s, p, io, r).1
  {
    hide Fetch, Unpin, FindVictim, Inv;
    InvHasShape(s);
    var (s1, v) := Fetch(s, p, io, r);
    FetchUses(s, p, io, r);
    FetchKeeps(s, p, io, r);
    UnpinStillUsed(s1, p, v.value, isDirty);
    UnpinKeeps(s1, p, isDirty);
    InvHasShape(Unpin(s1, p, isDirty).0);
    UsedIsSpared(Unpin(s1, p, isDirty).0, p, v.value, io');
  }

  /** Nor is a page that was created and released. */
  lemma CreatedPageSpared(s: Pool, io: WriteOracle, grown: bool, isDirty: bool, io': WriteOracle)
    requires Inv(s) && s.disk.next != INVALID_PAGE_ID && NewPage(s, io, grown).1.Some?
    requires Shape(NewPage(s, io, grown).0)
    requires var t := Unpin(NewPage(s, io, grown).0, s.disk.next, isDirty).0;
             t.free == [] && exists j | 0 <= j < |t.frames| :: t.frames[j].page.pins == 0 && !t.frames[j].referenced
    requires forall k :: io'(k).Written?
    ensures var (s1, v) := NewPage(s, io, grown);
            var t := Unpin(s1, s.disk.next, isDirty).0;
            Shape(t) && Lookup(FindVictim(t, io').0.table, s.disk.next) == Some(v.value.1)
  {
    hide NewPage, Unpin, FindVictim, Inv;
    InvHasShape(s);
    var (s1, v) := NewPage(s, io, grown);
    NewPageUses(s, io, grown);
    NewPageKeeps(s, io, grown);
    var p := s.disk.next;
    UnpinStillUsed(s1, p, v.value.1, isDirty);
    UnpinKeeps(s1, p, isDirty);
    InvHasShape(Unpin(s1, p, isDirty).0);
    UsedIsSpared(Unpin(s1, p, isDirty).0, p, v.value.1, io');
  }
}
