/** Every operation keeps the pool's invariant, whatever fails on the way. */
module PoolPreservation {
  import opened Wrappers
  import opened Pages
  import opened DiskStore
  import opened PoolSpec
  import opened PoolSweep
  import opened PoolInvariant

  lemma InvHasShape(s: Pool)
    requires Inv(s)
    ensures Shape(s)
  {
  }

  lemma InvHasCounts(s: Pool)
    requires Inv(s)
    ensures Shape(s) && s.dirtyCount == s.metric == |DirtyPages(s)|
    ensures forall p <- s.table :: s.frames[s.table[p]].page.id == p
  {
  }

  // Counting

  lemma {:induction false} AtMost(a: set<nat>, n: nat)
    requires forall x <- a :: x < n
    ensures |a| <= n
  {
    if n > 0 {
      AtMost(a - {n - 1}, n - 1);
      assert a <= (a - {n - 1}) + {n - 1};
      if n - 1 in a {
        assert a == (a - {n - 1}) + {n - 1};
      } else {
        assert a == a - {n - 1};
      }
    } else {
      assert a == {};
    }
  }

  /** Sets of pages and of frames that correspond under an injective table have one size. */
  lemma {:induction false} SameSize(table: map<PageId, nat>, a: set<PageId>, b: set<nat>)
    requires a <= table.Keys
    requires forall p, q | p in a && q in a && table[p] == table[q] :: p == q
    requires b == set p | p in a :: table[p]
    ensures |a| == |b|
  {
    if a == {} {
      assert b == {};
    } else {
      var p :| p in a;
      var a' := a - {p};
      var b' := set q | q in a' :: table[q];
      assert b == b' + {table[p]};
      SameSize(table, a', b');
    }
  }

  ghost function DirtyFrames(s: Pool): set<nat> {
    set i | 0 <= i < |s.frames| && s.frames[i].page.dirty
  }

  /** Dirty frames are exactly the frames of dirty resident pages, so the counters also count
      the dirty frames, and never reach the point where they would wrap. */
  lemma DirtyAccounting(s: Pool)
    requires Inv(s)
    ensures s.dirtyCount == s.metric == |DirtyPages(s)| == |DirtyFrames(s)| <= |s.frames| < COUNTER_RANGE
  {
    var b := set p | p in DirtyPages(s) :: s.table[p];
    assert b == DirtyFrames(s) by {
      forall i | i in DirtyFrames(s) ensures i in b {
        assert i !in s.free;
        assert Mapped(s, i);
        assert s.frames[i].page.id in DirtyPages(s);
      }
    }
    SameSize(s.table, DirtyPages(s), b);
    AtMost(DirtyFrames(s), |s.frames|);
  }

  // What each building block keeps

  lemma StirredKeeps(s: Pool, t: Pool)
    requires Inv(s) && Stirred(s, t)
    ensures Inv(t) && DirtyPages(t) == DirtyPages(s)
  {
    forall i | 0 <= i < |s.frames|
      ensures Mapped(t, i) == Mapped(s, i) && Idle(t.frames[i].page) == Idle(s.frames[i].page)
    {
      assert SameFrame(s.frames[i], t.frames[i]);
    }
    forall p <- s.table
      ensures t.frames[t.table[p]].page.id == p
      ensures t.frames[t.table[p]].page.dirty == s.frames[s.table[p]].page.dirty
    {
      assert SameFrame(s.frames[s.table[p]], t.frames[s.table[p]]);
    }
  }

  lemma DirtyAfterDrop(s: Pool, t: Pool, p: PageId)
    requires Inv(s) && Shape(t) && p in s.table
    requires t.table == s.table - {p}
    requires |t.frames| == |s.frames|
    requires forall i | 0 <= i < |s.frames| && i != s.table[p] :: t.frames[i] == s.frames[i]
    ensures DirtyPages(t) == DirtyPages(s) - {p}
    ensures |DirtyPages(t)| == |DirtyPages(s)| - if s.frames[s.table[p]].page.dirty then 1 else 0
  {
    forall q <- t.table ensures t.table[q] != s.table[p] {
      assert s.frames[s.table[q]].page.id == q;
    }
  }

  /** Dropping an unpinned page from its frame leaves the frame held. */
  lemma DropKeeps(s: Pool, t: Pool, p: PageId)
    requires Inv(s) && p in s.table
    requires t.table == s.table - {p} && t.free == s.free && |t.frames| == |s.frames|
    requires t.frames != [] ==> t.hand < |t.frames|
    requires forall i | 0 <= i < |s.frames| && i != s.table[p] :: t.frames[i] == s.frames[i]
    requires t.frames[s.table[p]].page == EMPTY_PAGE
    requires t.disk.next == s.disk.next
    requires t.dirtyCount == t.metric == |DirtyPages(s)| - if s.frames[s.table[p]].page.dirty then 1 else 0
    ensures InvBut(t, {s.table[p]})
  {
    var v := s.table[p];
    assert Shape(t);
    forall q <- t.table ensures t.table[q] != v && t.frames[t.table[q]].page.id == q && q < t.disk.next {
      assert s.frames[s.table[q]].page.id == q;
    }
    forall i | 0 <= i < |s.frames| && i != v ensures Mapped(t, i) == Mapped(s, i) {
    }
    assert FreeOk(t) && v !in t.free by {
      assert Mapped(s, v);
    }
    assert AllAccounted(t, {v});
    assert CountersOk(t) by { DirtyAfterDrop(s, t, p); }
  }

  lemma EvictKeeps(s: Pool, i: nat, w: WriteOutcome, h: nat)
    requires Inv(s) && i < |s.frames| && Mapped(s, i) && Evict(s, i, w).1 && h < |s.frames|
    ensures InvBut(Evict(s, i, w).0.(hand := h), {i})
  {
    var p := s.frames[i].page.id;
    if s.frames[i].page.dirty {
      assert p in DirtyPages(s);
    }
    DropKeeps(s, Evict(s, i, w).0.(hand := h), p);
  }

  /** How a victim comes about, once probes have stirred the pool: not at all, as the first
      free frame, or by evicting a mapped unpinned frame. */
  datatype Choice = Nothing | FromFree | Evicted(i: nat, w: WriteOutcome)

  ghost predicate Possible(s: Pool, c: Choice) {
    match c
    case Nothing => true
    case FromFree => s.free != []
    case Evicted(i, w) =>
      && s.free == [] && i < |s.frames| && Mapped(s, i)
      && s.frames[i].page.pins == 0 && Evict(s, i, w).1
  }

  ghost function Chosen(s: Pool, c: Choice): (Pool, Option<nat>)
    requires Possible(s, c)
  {
    match c
    case Nothing => (s, None)
    case FromFree => (s.(free := s.free[1..]), Some(s.free[0]))
    case Evicted(i, w) => (Evict(s, i, w).0.(hand := (i + 1) % |s.frames|), Some(i))
  }

  lemma SweepChosen(s: Pool, io: WriteOracle) returns (mid: Pool, c: Choice)
    requires Inv(s) && s.free == [] && s.frames != []
    ensures Stirred(s, mid) && Inv(mid) && Possible(mid, c)
    ensures NoTornWrite(io) ==> mid.disk == s.disk
    ensures Sweep(s, 0, io) == Chosen(mid, c)
  {
    hide Evict, Sweep;
    var k;
    mid, k := SweepRuns(s, io);
    StirredKeeps(s, mid);
    if k == 2 * |s.frames| {
      c := Nothing;
    } else {
      ProbeTakesVictim(s, mid, k, io);
      c := Evicted(At(s, k), io(k));
      assert Mapped(mid, At(s, k));
    }
  }

  /** Every search for a victim is a stirring followed by a choice. */
  lemma VictimChosen(s: Pool, io: WriteOracle) returns (mid: Pool, c: Choice)
    requires Inv(s)
    ensures Stirred(s, mid) && Inv(mid) && Possible(mid, c)
    ensures NoTornWrite(io) ==> mid.disk == s.disk
    ensures FindVictim(s, io) == Chosen(mid, c)
  {
    if s.free != [] {
      assert Stirred(s, s);
      mid, c := s, FromFree;
    } else if s.frames == [] {
      mid, c := s, Nothing;
    } else {
      mid, c := SweepChosen(s, io);
    }
  }

  lemma TailOfDistinct(free: seq<nat>)
    requires free != [] && forall k, l | 0 <= k < l < |free| :: free[k] != free[l]
    ensures free[0] !in free[1..]
    ensures forall i :: i in free <==> i == free[0] || i in free[1..]
  {
    assert free == [free[0]] + free[1..];
  }

  lemma TakeFreeKeeps(s: Pool)
    requires Inv(s) && s.free != []
    ensures InvBut(s.(free := s.free[1..]), {s.free[0]})
  {
    var t := s.(free := s.free[1..]);
    assert Shape(t) && TableOk(t) && CountersOk(t) by { assert DirtyPages(t) == DirtyPages(s); }
    TakeFreeFree(s, t);
    TakeFreeAccounts(s, t);
  }

  lemma TakeFreeFree(s: Pool, t: Pool)
    requires Shape(s) && FreeOk(s) && Shape(t) && s.free != [] && t == s.(free := s.free[1..])
    ensures FreeOk(t)
  {
    forall k | 0 <= k < |t.free| ensures !Mapped(t, t.free[k]) && Idle(t.frames[t.free[k]].page) {
      assert t.free[k] == s.free[k + 1];
    }
  }

  lemma TakeFreeAccounts(s: Pool, t: Pool)
    requires Shape(s) && FreeOk(s) && AllAccounted(s, {}) && Shape(t)
    requires s.free != [] && t == s.(free := s.free[1..])
    ensures AllAccounted(t, {s.free[0]})
  {
    TailOfDistinct(s.free);
    forall i | 0 <= i < |s.frames| ensures i == s.free[0] || i in t.free || Mapped(t, i) {
      assert i in s.free || Mapped(s, i);
    }
  }

  lemma ChosenKeeps(s: Pool, c: Choice)
    requires Inv(s) && Possible(s, c)
    ensures var (u, v) := Chosen(s, c);
            InvBut(u, if v.Some? then {v.value} else {}) && u.table.Keys <= s.table.Keys && u.disk.next == s.disk.next
  {
    hide InvBut, Sealed, EMPTY_PAGE;
    match c {
      case Nothing =>
      case FromFree => TakeFreeKeeps(s);
      case Evicted(i, w) => EvictKeeps(s, i, w, (i + 1) % |s.frames|);
    }
  }

  lemma FindVictimKeeps(s: Pool, io: WriteOracle)
    requires Inv(s)
    ensures var (u, v) := FindVictim(s, io);
            InvBut(u, if v.Some? then {v.value} else {}) && u.table.Keys <= s.table.Keys && u.disk.next == s.disk.next
  {
    var mid, c := VictimChosen(s, io);
    ChosenKeeps(mid, c);
  }

  /** Handing a held frame back to the free list, with any idle page in it. */
  lemma ReturnKeeps(s: Pool, i: nat, f: Frame)
    requires InvBut(s, {i}) && Idle(f.page)
    requires f.page.id in s.table ==> s.table[f.page.id] != i
    ensures Inv(s.(frames := s.frames[i := f], free := s.free + [i]))
  {
    var t := s.(frames := s.frames[i := f], free := s.free + [i]);
    forall p <- t.table ensures t.table[p] != i && t.frames[t.table[p]] == s.frames[s.table[p]] {
      assert s.frames[s.table[p]].page.id == p;
    }
    assert DirtyPages(t) == DirtyPages(s);
    forall j | 0 <= j < |s.frames| && j != i ensures j in t.free || Mapped(t, j) {
      assert j in s.free || Mapped(s, j);
    }
    assert t.free[|s.free|] == i;
    forall k | 0 <= k < |t.free| ensures !Mapped(t, t.free[k]) && Idle(t.frames[t.free[k]].page) {
      if k < |s.free| { assert t.free[k] == s.free[k] && s.free[k] in s.free; }
    }
    forall k, l | 0 <= k < l < |t.free| ensures t.free[k] != t.free[l] {
      assert t.free[k] == s.free[k] && s.free[k] in s.free;
    }
  }

  /** Installing a clean page that is not resident in a held frame. */
  lemma InstallKeeps(s: Pool, i: nat, f: Frame, disk: Disk)
    requires InvBut(s, {i}) && !f.page.dirty
    requires f.page.id !in s.table && s.disk.next <= disk.next && f.page.id < disk.next
    ensures Inv(s.(frames := s.frames[i := f], table := s.table[f.page.id := i], disk := disk))
  {
    var p := f.page.id;
    var t := s.(frames := s.frames[i := f], table := s.table[p := i], disk := disk);
    forall q <- s.table ensures s.table[q] != i && t.frames[t.table[q]] == s.frames[s.table[q]] {
      assert s.frames[s.table[q]].page.id == q;
    }
    assert DirtyPages(t) == DirtyPages(s);
    forall j | 0 <= j < |s.frames| && j != i ensures Mapped(t, j) == Mapped(s, j) {
      if Mapped(t, j) { assert s.frames[j].page.id != p; }
    }
    forall k | 0 <= k < |s.free| ensures s.free[k] != i {
      assert s.free[k] in s.free;
    }
  }

  /** Changing a resident page in place, without changing its id. */
  lemma UpdateKeeps(s: Pool, p: PageId, f: Frame, disk: Disk, count: nat)
    requires Inv(s) && p in s.table && f.page.id == p && disk.next == s.disk.next
    requires var d := s.frames[s.table[p]].page.dirty;
             count == |DirtyPages(s)| + (if f.page.dirty then 1 else 0) - (if d then 1 else 0)
    ensures Inv(s.(frames := s.frames[s.table[p] := f], disk := disk, dirtyCount := count, metric := count))
  {
    var i := s.table[p];
    var t := s.(frames := s.frames[i := f], disk := disk, dirtyCount := count, metric := count);
    forall q <- s.table ensures q != p ==> t.frames[t.table[q]] == s.frames[s.table[q]] {
      assert s.frames[s.table[q]].page.id == q;
    }
    forall j | 0 <= j < |s.frames| ensures Mapped(t, j) == Mapped(s, j) {
    }
    assert FreeOk(t) by {
      assert Mapped(s, i);
    }
    assert AllAccounted(t, {});
    assert CountersOk(t) by {
      assert DirtyPages(t) == if f.page.dirty then DirtyPages(s) + {p} else DirtyPages(s) - {p};
      assert p in DirtyPages(s) <==> s.frames[i].page.dirty;
    }
  }

  // The operations

  lemma InitialInv(n: nat, disk: Disk)
    requires n < COUNTER_RANGE
    ensures Inv(Initial(n, disk))
  {
    var s := Initial(n, disk);
    assert DirtyPages(s) == {};
    forall i | 0 <= i < n ensures i in s.free {
      assert s.free[i] == i;
    }
  }

  lemma SettleKeeps(s: Pool, i: nat, p: PageId, ok: bool, page: PageValue)
    requires InvBut(s, {i}) && p !in s.table && Idle(page)
    requires ok ==> p < s.disk.next && page.id == p
    requires !ok ==> page.id == p || page.id == s.frames[i].page.id
    ensures Inv(Settle(s, i, p, ok, page).0)
  {
    if ok {
      var f := Frame(page.(pins := page.pins + 1, dirty := false), true);
      InstallKeeps(s, i, f, s.disk);
      assert Settle(s, i, p, ok, page).0 == s.(frames := s.frames[i := f], table := s.table[p := i], disk := s.disk);
    } else {
      var f := s.frames[i].(page := page);
      ReturnKeeps(s, i, f);
      assert Settle(s, i, p, ok, page).0 == s.(frames := s.frames[i := f], free := s.free + [i]);
    }
  }

  lemma LoadKeeps(s: Pool, i: nat, p: PageId, r: ReadOutcome)
    requires InvBut(s, {i}) && p !in s.table
    ensures Inv(Load(s, i, p, r).0)
  {
    hide WithId, ChecksumOk;
    ReadPageShape(s.disk, p, s.frames[i].page, r);
    var (ok, page) := ReadPage(s.disk, p, s.frames[i].page, r);
    SettleKeeps(s, i, p, ok, page);
  }

  lemma PinKeeps(s: Pool, p: PageId)
    requires Inv(s) && p in s.table
    ensures Inv(PinResident(s, p))
  {
    var page := s.frames[s.table[p]].page;
    UpdateKeeps(s, p, Frame(page.(pins := page.pins + 1), true), s.disk, s.dirtyCount);
  }

  lemma FetchKeeps(s: Pool, p: PageId, io: WriteOracle, r: ReadOutcome)
    requires Inv(s)
    ensures Inv(Fetch(s, p, io, r).0)
  {
    if p in s.table {
      PinKeeps(s, p);
    } else {
      FindVictimKeeps(s, io);
      var (s1, v) := FindVictim(s, io);
      if v.Some? {
        LoadKeeps(s1, v.value, p, r);
      }
    }
  }

  lemma CreateKeeps(s: Pool, i: nat, grown: bool)
    requires InvBut(s, {i})
    ensures Inv(Create(s, i, grown).0) <==> s.disk.next != INVALID_PAGE_ID
  {
    hide WithId, ZeroImage;
    var (disk, id) := AllocatePage(s.disk, grown);
    if id != INVALID_PAGE_ID {
      InstallKeeps(s, i, Frame(PageValue(id, false, 1, WithId(ZeroImage(), id)), true), disk);
    } else {
      assert id in s.table[id := i] && disk.next == 0;
    }
  }

  /** A new page keeps the invariant exactly when no frame can be had, or the id counter has not
      reached the invalid id; at that point `new_page` maps the invalid id and wraps the counter. */
  lemma NewPageKeeps(s: Pool, io: WriteOracle, grown: bool)
    requires Inv(s)
    ensures var (t, v) := NewPage(s, io, grown);
            && (v.None? <==> FindVictim(s, io).1.None?)
            && (Inv(t) <==> FindVictim(s, io).1.None? || s.disk.next != INVALID_PAGE_ID)
  {
    hide FindVictim, Create;
    FindVictimKeeps(s, io);
    var (s1, v) := FindVictim(s, io);
    if v.Some? {
      CreateKeeps(s1, v.value, grown);
    }
  }

  /** So a pool over a data file that leaves only the invalid id breaks at its first new page. */
  lemma IdsRunOut(n: nat, file: map<PageId, Image>, io: WriteOracle, grown: bool)
    requires 0 < n < COUNTER_RANGE
    ensures var s := Initial(n, Disk(INVALID_PAGE_ID, file, file));
            Inv(s) && Shape(s) && NewPage(s, io, grown).1.Some? && !Inv(NewPage(s, io, grown).0)
  {
    hide NewPage, Inv;
    var s := Initial(n, Disk(INVALID_PAGE_ID, file, file));
    InitialInv(n, s.disk);
    InvHasShape(s);
    NewPageKeeps(s, io, grown);
  }

  lemma UnpinKeeps(s: Pool, p: PageId, isDirty: bool)
    requires Inv(s)
    ensures Inv(Unpin(s, p, isDirty).0)
  {
    hide Inv;
    InvHasCounts(s);
    if p in s.table {
      var f := s.frames[s.table[p]];
      if f.page.pins > 0 {
        var g := f.(page := f.page.(pins := f.page.pins - 1, dirty := f.page.dirty || isDirty));
        if isDirty && !f.page.dirty {
          RoomForOneMore(s, s.table[p]);
          UpdateKeeps(s, p, g, s.disk, s.dirtyCount + 1);
        } else {
          UpdateKeeps(s, p, g, s.disk, s.dirtyCount);
        }
      }
    }
  }

  /** While some frame is clean the dirty count is below the number of frames. */
  lemma RoomForOneMore(s: Pool, i: nat)
    requires Inv(s) && i < |s.frames| && !s.frames[i].page.dirty
    ensures s.dirtyCount < |s.frames| < COUNTER_RANGE
  {
    DirtyAccounting(s);
    var more := DirtyFrames(s) + {i};
    AtMost(more, |s.frames|);
  }

  lemma FlushKeeps(s: Pool, p: PageId, w: WriteOutcome)
    requires Inv(s)
    ensures Inv(FlushPage(s, p, w).0)
  {
    if p in s.table && s.frames[s.table[p]].page.dirty {
      assert p in DirtyPages(s);
      var f := s.frames[s.table[p]];
      var (ok, disk, sealed) := WritePage(s.disk, p, f.page, w);
      if ok {
        UpdateKeeps(s, p, f.(page := sealed.(dirty := false)), disk, s.dirtyCount - 1);
      } else {
        UpdateKeeps(s, p, f.(page := sealed), disk, s.dirtyCount);
      }
    }
  }

  lemma DeleteKeeps(s: Pool, p: PageId)
    requires Inv(s)
    ensures Inv(Delete(s, p).0)
  {
    if p in s.table {
      var i := s.table[p];
      var page := s.frames[i].page;
      if page.pins == 0 {
        if page.dirty { assert p in DirtyPages(s); }
        var count := if page.dirty then Dec(s.dirtyCount) else s.dirtyCount;
        var t := WithPage(s, i, EMPTY_PAGE).(table := s.table - {p}, dirtyCount := count, metric := count);
        DropKeeps(s, t, p);
        ReturnKeeps(t, i, t.frames[i]);
        assert Delete(s, p).0 == t.(frames := t.frames[i := t.frames[i]], free := t.free + [i]);
      }
    }
  }

  lemma ClientWriteKeeps(s: Pool, p: PageId, c: Content)
    requires Inv(s) && p in s.table
    ensures Inv(ClientWrite(s, p, c))
  {
    var f := s.frames[s.table[p]];
    UpdateKeeps(s, p, f.(page := f.page.(data := WithContent(f.page.data, c))), s.disk, s.dirtyCount);
  }

  lemma SyncKeeps(s: Pool)
    requires Inv(s)
    ensures Inv(s.(disk := Sync(s.disk)))
  {
    var t := s.(disk := Sync(s.disk));
    forall i | 0 <= i < |s.frames| ensures Mapped(t, i) == Mapped(s, i) {
    }
    assert DirtyPages(t) == DirtyPages(s);
  }
}
