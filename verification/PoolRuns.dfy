/**
 Whole runs of the pool under its client contract. Next to the pool we keep, per page, a
 book of what clients did: every content the page was left with, how many of the current
 pin holders have written through their pin, and the last content that was declared by
 `unpin_page(.., true)`.
 */
module PoolRuns {
  import opened Wrappers
  import opened Pages
  import opened DiskStore
  import opened PoolSpec
  import opened PoolSweep
  import opened PoolInvariant
  import opened PoolPreservation
  import opened PoolPages

  datatype Book = Book(hist: seq<Content>, writers: nat, saved: Option<nat>)

  datatype Sys = Sys(pool: Pool, books: map<PageId, Book>)

  /** `wrote`: the releasing holder has written; `again`: the writing holder already had. */
  datatype Op =
    | DoFetch(p: PageId, io: WriteOracle, r: ReadOutcome)
    | DoNew(io: WriteOracle, grown: bool)
    | DoUnpin(p: PageId, isDirty: bool, wrote: bool)
    | DoFlush(p: PageId, w: WriteOutcome)
    | DoDelete(p: PageId)
    | DoWrite(p: PageId, c: Content, again: bool)
    | DoSync

  function PinsOf(s: Pool, p: PageId): nat {
    var l := LookAt(s, p);
    if l.res.Some? then l.res.value.pins else 0
  }

  function WritersOf(y: Sys, p: PageId): nat {
    if p in y.books then y.books[p].writers else 0
  }

  /** The client contract: write only to a page you hold pinned, and declare it when you
      release that pin. Holders are counted, those who wrote and those who did not. Page ids
      must not be exhausted. */
  ghost predicate Allowed(y: Sys, op: Op) {
    && Shape(y.pool)
    && match op
       case DoNew(_, _) => y.pool.disk.next != INVALID_PAGE_ID
       case DoUnpin(p, isDirty, wrote) =>
         if wrote then isDirty && WritersOf(y, p) > 0
         else PinsOf(y.pool, p) > 0 ==> WritersOf(y, p) < PinsOf(y.pool, p)
       case DoWrite(p, _, again) =>
         && p in y.pool.table && p in y.books
         && if again then WritersOf(y, p) > 0 else WritersOf(y, p) < PinsOf(y.pool, p)
       case _ => true
  }

  function Last(h: seq<Content>): Content
    requires h != []
  {
    h[|h| - 1]
  }

  ghost function PoolAfter(s: Pool, op: Op): Pool
    requires Shape(s)
    requires op.DoWrite? ==> op.p in s.table
  {
    match op
    case DoFetch(p, io, r) => Fetch(s, p, io, r).0
    case DoNew(io, grown) => NewPage(s, io, grown).0
    case DoUnpin(p, isDirty, _) => Unpin(s, p, isDirty).0
    case DoFlush(p, w) => FlushPage(s, p, w).0
    case DoDelete(p) => Delete(s, p).0
    case DoWrite(p, c, _) => ClientWrite(s, p, c)
    case DoSync => s.(disk := Sync(s.disk))
  }

  /** The book of page `q` after `op`. A fetch adopts a page that has no book; a delete that
      reports success forgets the page. */
  ghost function BookAfter(y: Sys, op: Op, q: PageId): Option<Book>
    requires Allowed(y, op)
  {
    var b := Lookup(y.books, q);
    match op
    case DoFetch(p, io, r) =>
      var (t, v) := Fetch(y.pool, p, io, r);
      if q == p && v.Some? && b.None? && LookAt(t, p).res.Some?
      then Some(Book([LookAt(t, p).res.value.content], 0, None)) else b
    case DoNew(io, grown) =>
      if q == y.pool.disk.next && NewPage(y.pool, io, grown).1.Some?
      then Some(Book([ContentOf(ZeroImage())], 0, None)) else b
    case DoUnpin(p, isDirty, wrote) =>
      if q == p && b.Some? && Unpin(y.pool, p, isDirty).1
      then Some(Book(b.value.hist,
                     if wrote && b.value.writers > 0 then b.value.writers - 1 else b.value.writers,
                     if isDirty && b.value.hist != [] then Some(|b.value.hist| - 1) else b.value.saved))
      else b
    case DoDelete(p) =>
      if q == p && Delete(y.pool, p).1 then None else b
    case DoWrite(p, c, again) =>
      if q == p && b.Some?
      then Some(b.value.(hist := b.value.hist + [c], writers := if again then b.value.writers else b.value.writers + 1))
      else b
    case _ => b
  }

  ghost function PagesTouched(y: Sys, op: Op): set<PageId> {
    match op
    case DoNew(_, _) => {y.pool.disk.next}
    case DoSync => {}
    case _ => {op.p}
  }

  ghost function Step(y: Sys, op: Op): Sys
    requires Allowed(y, op)
  {
    Sys(PoolAfter(y.pool, op),
        map q | q in y.books.Keys + PagesTouched(y, op) && BookAfter(y, op, q).Some? :: BookAfter(y, op, q).value)
  }

  lemma StepBook(y: Sys, op: Op, q: PageId)
    requires Allowed(y, op)
    ensures Lookup(Step(y, op).books, q) == BookAfter(y, op, q)
  {
  }

  // The invariant, page by page

  /** `img` holds the content at index `k` of the history, or a later one. */
  ghost predicate Holds(img: Image, h: seq<Content>, k: nat) {
    exists j | k <= j < |h| :: h[j] == ContentOf(img)
  }

  ghost predicate Agrees(disk: Option<Image>, h: seq<Content>)
    requires h != []
  {
    disk.Some? ==> ContentOf(disk.value) == Last(h)
  }

  ghost predicate Clean(l: Look) {
    l.res.None? || !l.res.value.dirty
  }

  ghost predicate BookGood(p: PageId, l: Look, b: Book) {
    && b.hist != []
    && (b.saved.Some? ==> b.saved.value < |b.hist|)
    && (l.res.Some? ==> l.res.value.content == Last(b.hist) && l.res.value.named && b.writers <= l.res.value.pins)
    && (l.res.None? ==> b.writers == 0)
    && (b.writers == 0 && b.saved.Some? ==> b.saved.value == |b.hist| - 1)
    && (Clean(l) && b.writers == 0 ==> Agrees(l.disk, b.hist))
    && (Clean(l) && b.saved.Some? ==>
          l.disk.Some? && ChecksumOk(WithId(l.disk.value, p)) && Holds(l.disk.value, b.hist, b.saved.value))
  }

  ghost predicate PageGood(p: PageId, l: Look, b: Option<Book>, next: nat) {
    && (l.disk.Some? ==> p < next)
    && (l.res.Some? ==> b.Some?)
    && (b.Some? ==> p < next && BookGood(p, l, b.value))
  }

  ghost predicate Good(y: Sys) {
    && Inv(y.pool)
    && forall p: PageId :: PageGood(p, LookAt(y.pool, p), Lookup(y.books, p), y.pool.disk.next)
  }

  lemma GoodAt(y: Sys, p: PageId)
    requires Good(y)
    ensures Inv(y.pool) && PageGood(p, LookAt(y.pool, p), Lookup(y.books, p), y.pool.disk.next)
  {
  }

  lemma YieldKeepsGood(p: PageId, l: Look, m: Look, b: Option<Book>, next: nat, calm: bool)
    requires PageGood(p, l, b, next) && Yielded(p, l, m, calm)
    requires l.res.Some? ==> p < next
    ensures PageGood(p, m, b, next)
  {
    hide ContentOf, ChecksumOk, WithId;
    if b.Some? && PutOut(p, l, m) && l.res.value.dirty {
      assert b.value.hist[|b.value.hist| - 1] == ContentOf(m.disk.value);
    }
  }

  lemma ResidentBelowNext(s: Pool, p: PageId)
    requires Inv(s) && LookAt(s, p).res.Some?
    ensures p < s.disk.next
  {
  }

  lemma FetchKeepsGood(y: Sys, p: PageId, io: WriteOracle, r: ReadOutcome, q: PageId)
    requires Good(y)
    ensures var t := Fetch(y.pool, p, io, r).0;
            PageGood(q, LookAt(t, q), BookAfter(y, DoFetch(p, io, r), q), y.pool.disk.next)
  {
    var s := y.pool;
    assert PageGood(q, LookAt(s, q), Lookup(y.books, q), s.disk.next);
    if p in s.table {
      PinnedPage(s, p, q);
    } else {
      MissedPage(s, p, io, r, q);
      if q != p {
        if LookAt(s, q).res.Some? { ResidentBelowNext(s, q); }
        YieldKeepsGood(q, LookAt(s, q), LookAt(Fetch(s, p, io, r).0, q), Lookup(y.books, q), s.disk.next, false);
      }
    }
  }

  lemma AllocationKeepsGood(q: PageId, l: Look, m: Look, b: Option<Book>, id: PageId, grown: bool)
    requires PageGood(q, l, b, id) && Allocated(l, m, grown, q == id)
    ensures PageGood(q, m, if q == id then Some(Book([ContentOf(ZeroImage())], 0, None)) else b, id + 1)
  {
  }

  lemma NewKeepsGood(y: Sys, io: WriteOracle, grown: bool, q: PageId)
    requires Good(y) && y.pool.disk.next != INVALID_PAGE_ID
    ensures var t := NewPage(y.pool, io, grown).0;
            PageGood(q, LookAt(t, q), BookAfter(y, DoNew(io, grown), q), t.disk.next)
  {
    var s := y.pool;
    var l := LookAt(s, q);
    assert PageGood(q, l, Lookup(y.books, q), s.disk.next);
    if l.res.Some? { ResidentBelowNext(s, q); }
    var mid := NewedPage(s, io, grown, q);
    YieldKeepsGood(q, l, mid, Lookup(y.books, q), s.disk.next, false);
    var (t, v) := NewPage(s, io, grown);
    if v.Some? {
      AllocationKeepsGood(q, mid, LookAt(t, q), Lookup(y.books, q), s.disk.next, grown);
    }
  }

  lemma UnpinKeepsGood(y: Sys, p: PageId, isDirty: bool, wrote: bool, q: PageId)
    requires Good(y) && Allowed(y, DoUnpin(p, isDirty, wrote))
    ensures var t := Unpin(y.pool, p, isDirty).0;
            PageGood(q, LookAt(t, q), BookAfter(y, DoUnpin(p, isDirty, wrote), q), t.disk.next)
  {
    hide ContentOf, ChecksumOk, WithId, LookAt, Good, Unpin, Holds;
    GoodAt(y, q);
    GoodAt(y, p);
    UnpinnedPage(y.pool, p, isDirty, q);
    UnpinKeepsNext(y.pool, p, isDirty);
  }

  lemma UnpinKeepsNext(s: Pool, p: PageId, isDirty: bool)
    requires Shape(s)
    ensures Unpin(s, p, isDirty).0.disk == s.disk
  {
  }

  lemma FlushKeepsGood(y: Sys, p: PageId, w: WriteOutcome, q: PageId)
    requires Good(y)
    ensures var t := FlushPage(y.pool, p, w).0;
            PageGood(q, LookAt(t, q), Lookup(y.books, q), t.disk.next)
  {
    hide ContentOf, ChecksumOk, WithId, LookAt, Good, FlushPage;
    var l, b := LookAt(y.pool, q), Lookup(y.books, q);
    GoodAt(y, q);
    FlushedPage(y.pool, p, w, q);
    FlushKeepsNext(y.pool, p, w);
    var (t, ok) := FlushPage(y.pool, p, w);
    if q == p && l.res.Some? && l.res.value.dirty && ok {
      assert b.value.hist[|b.value.hist| - 1] == ContentOf(LookAt(t, q).disk.value);
    }
  }

  lemma FlushKeepsNext(s: Pool, p: PageId, w: WriteOutcome)
    requires Shape(s)
    ensures FlushPage(s, p, w).0.disk.next == s.disk.next
  {
    hide Sealed;
  }

  lemma DeleteKeepsGood(y: Sys, p: PageId, q: PageId)
    requires Good(y)
    ensures var t := Delete(y.pool, p).0;
            PageGood(q, LookAt(t, q), BookAfter(y, DoDelete(p), q), t.disk.next)
  {
    hide ContentOf, ChecksumOk, WithId, LookAt, Good, Delete, Holds;
    GoodAt(y, q);
    GoodAt(y, p);
    DeletedPage(y.pool, p, q);
    DeleteKeepsNext(y.pool, p);
  }

  lemma DeleteKeepsNext(s: Pool, p: PageId)
    requires Shape(s)
    ensures Delete(s, p).0.disk == s.disk
  {
  }

  lemma WriteKeepsGood(y: Sys, p: PageId, c: Content, again: bool, q: PageId)
    requires Good(y) && Allowed(y, DoWrite(p, c, again))
    ensures var t := ClientWrite(y.pool, p, c);
            PageGood(q, LookAt(t, q), BookAfter(y, DoWrite(p, c, again), q), t.disk.next)
  {
    hide ContentOf, ChecksumOk, WithId, LookAt, Good, ClientWrite;
    var b := Lookup(y.books, q);
    GoodAt(y, q);
    GoodAt(y, p);
    WrittenPage(y.pool, p, c, q);
    WriteKeepsNext(y.pool, p, c);
    if b.Some? && b.value.saved.Some? && Clean(LookAt(y.pool, q)) && q == p {
      var j :| b.value.saved.value <= j < |b.value.hist| && b.value.hist[j] == ContentOf(LookAt(y.pool, q).disk.value);
      assert (b.value.hist + [c])[j] == b.value.hist[j];
    }
  }

  lemma WriteKeepsNext(s: Pool, p: PageId, c: Content)
    requires Shape(s) && p in s.table
    ensures ClientWrite(s, p, c).disk == s.disk
  {
    hide WithContent;
  }

  lemma PoolAfterInv(y: Sys, op: Op)
    requires Good(y) && Allowed(y, op)
    ensures Inv(PoolAfter(y.pool, op))
  {
    match op {
      case DoFetch(p, io, r) => FetchKeeps(y.pool, p, io, r);
      case DoNew(io, grown) => NewPageKeeps(y.pool, io, grown);
      case DoUnpin(p, isDirty, _) => UnpinKeeps(y.pool, p, isDirty);
      case DoFlush(p, w) => FlushKeeps(y.pool, p, w);
      case DoDelete(p) => DeleteKeeps(y.pool, p);
      case DoWrite(p, c, _) => ClientWriteKeeps(y.pool, p, c);
      case DoSync => SyncKeeps(y.pool);
    }
  }

  lemma PageAfterGood(y: Sys, op: Op, q: PageId)
    requires Good(y) && Allowed(y, op)
    ensures var t := PoolAfter(y.pool, op);
            PageGood(q, LookAt(t, q), BookAfter(y, op, q), t.disk.next)
  {
    match op {
      case DoFetch(p, io, r) =>
        FetchKeepsGood(y, p, io, r, q);
        FetchKeepsNext(y.pool, p, io, r);
      case DoNew(io, grown) => NewKeepsGood(y, io, grown, q);
      case DoUnpin(p, isDirty, wrote) => UnpinKeepsGood(y, p, isDirty, wrote, q);
      case DoFlush(p, w) => FlushKeepsGood(y, p, w, q);
      case DoDelete(p) => DeleteKeepsGood(y, p, q);
      case DoWrite(p, c, again) => WriteKeepsGood(y, p, c, again, q);
      case DoSync => assert PageGood(q, LookAt(y.pool, q), Lookup(y.books, q), y.pool.disk.next);
    }
  }

  lemma FetchKeepsNext(s: Pool, p: PageId, io: WriteOracle, r: ReadOutcome)
    requires Inv(s)
    ensures Fetch(s, p, io, r).0.disk.next == s.disk.next
  {
    if p !in s.table {
      FindVictimKeeps(s, io);
    }
  }

  /** Every step keeps the invariant, whatever I/O fails in it. */
  lemma StepKeepsGood(y: Sys, op: Op)
    requires Good(y) && Allowed(y, op)
    ensures Good(Step(y, op))
  {
    PoolAfterInv(y, op);
    var z := Step(y, op);
    forall q: PageId ensures PageGood(q, LookAt(z.pool, q), Lookup(z.books, q), z.pool.disk.next) {
      StepBook(y, op, q);
      PageAfterGood(y, op, q);
    }
  }

  // Runs

  ghost predicate RunsTo(y: Sys, ops: seq<Op>, z: Sys)
    decreases |ops|
  {
    if ops == [] then z == y else Allowed(y, ops[0]) && RunsTo(Step(y, ops[0]), ops[1..], z)
  }

  lemma {:induction false} RunKeepsGood(y: Sys, ops: seq<Op>, z: Sys)
    requires Good(y) && RunsTo(y, ops, z)
    ensures Good(z)
    decreases |ops|
  {
    if ops != [] {
      StepKeepsGood(y, ops[0]);
      RunKeepsGood(Step(y, ops[0]), ops[1..], z);
    }
  }

  lemma RunOfFour(y: Sys, a: Op, b: Op, c: Op, d: Op)
    requires Allowed(y, a) && Allowed(Step(y, a), b) && Allowed(Step(Step(y, a), b), c)
    requires Allowed(Step(Step(Step(y, a), b), c), d)
    ensures RunsTo(y, [a, b, c, d], Step(Step(Step(Step(y, a), b), c), d))
  {
    var y1 := Step(y, a);
    var y2 := Step(y1, b);
    var y3 := Step(y2, c);
    var z := Step(y3, d);
    assert [a, b, c, d][1..] == [b, c, d] && [b, c, d][1..] == [c, d] && [c, d][1..] == [d] && [d][1..] == [];
    assert RunsTo(z, [], z);
    assert RunsTo(y3, [d], z);
    assert RunsTo(y2, [c, d], z);
    assert RunsTo(y1, [b, c, d], z);
  }

  /** A pool of `n` frames over a data file that holds the pages below `next`. */
  ghost function Start(n: nat, next: PageId, file: map<PageId, Image>): Sys {
    Sys(Initial(n, Disk(next, file, file)), map p | p in file :: Book([ContentOf(file[p])], 0, None))
  }

  lemma StartGood(n: nat, next: PageId, file: map<PageId, Image>)
    requires n < COUNTER_RANGE && forall p <- file :: p < next
    ensures Good(Start(n, next, file))
  {
    InitialInv(n, Disk(next, file, file));
  }

  /** In a good state a fetch that succeeds returns the page asked for, with exactly the
      content last left in it. */
  lemma FetchReturnsLast(y: Sys, p: PageId, io: WriteOracle, r: ReadOutcome)
    requires Good(y)
    ensures var (t, v) := Fetch(y.pool, p, io, r);
            v.Some? ==>
              && v.value < |t.frames| && t.frames[v.value].page.id == p
              && (p in y.books ==>
                    y.books[p].hist != [] && ContentOf(t.frames[v.value].page.data) == Last(y.books[p].hist))
  {
    assert PageGood(p, LookAt(y.pool, p), Lookup(y.books, p), y.pool.disk.next);
    FetchKeeps(y.pool, p, io, r);
    FetchKeepsGood(y, p, io, r, p);
    if p in y.pool.table {
      PinnedPage(y.pool, p, p);
    } else {
      MissedPage(y.pool, p, io, r, p);
    }
  }

  /** The cache refines the page map: after any run, whatever was evicted or flushed and
      whatever failed, a successful fetch returns the content last left in the page. */
  lemma CacheRefinesPageMap(n: nat, next: PageId, file: map<PageId, Image>, ops: seq<Op>, z: Sys,
                            p: PageId, io: WriteOracle, r: ReadOutcome)
    requires n < COUNTER_RANGE && forall p <- file :: p < next
    requires RunsTo(Start(n, next, file), ops, z)
    ensures Good(z)
    ensures var (t, v) := Fetch(z.pool, p, io, r);
            v.Some? ==>
              && v.value < |t.frames| && t.frames[v.value].page.id == p
              && (p in z.books ==>
                    z.books[p].hist != [] && ContentOf(t.frames[v.value].page.data) == Last(z.books[p].hist))
  {
    StartGood(n, next, file);
    RunKeepsGood(Start(n, next, file), ops, z);
    FetchReturnsLast(z, p, io, r);
  }

  /** After any run both dirty counters are the number of dirty resident pages and of dirty
      frames, and below the point where they would wrap. */
  lemma CountersOverRuns(n: nat, next: PageId, file: map<PageId, Image>, ops: seq<Op>, z: Sys)
    requires n < COUNTER_RANGE && forall p <- file :: p < next
    requires RunsTo(Start(n, next, file), ops, z)
    ensures Inv(z.pool)
    ensures var s := z.pool;
            s.dirtyCount == s.metric == |DirtyPages(s)| == |DirtyFrames(s)| <= |s.frames| < COUNTER_RANGE
  {
    StartGood(n, next, file);
    RunKeepsGood(Start(n, next, file), ops, z);
    DirtyAccounting(z.pool);
  }

  /** A page whose change was declared at least once can always be fetched, unless no frame
      can be had or the read itself fails. */
  lemma DeclaredPageFetchable(y: Sys, p: PageId, io: WriteOracle, r: ReadOutcome)
    requires Good(y) && p in y.books && y.books[p].saved.Some?
    ensures Fetch(y.pool, p, io, r).1.Some? <==>
            p in y.pool.table || (FindVictim(y.pool, io).1.Some? && r.Delivered?)
  {
    var s := y.pool;
    assert PageGood(p, LookAt(s, p), Lookup(y.books, p), s.disk.next);
    if p !in s.table {
      VictimYields(s, io, p);
      FindVictimKeeps(s, io);
      assert LookAt(FindVictim(s, io).0, p) == LookAt(s, p);
    }
  }

  /** With writes succeeding, a frame can be had unless every frame is pinned. */
  lemma NoVictimIffAllPinned(s: Pool, io: WriteOracle)
    requires Inv(s)
    requires forall k :: io(k).Written?
    ensures FindVictim(s, io).1.None? <==> forall i | 0 <= i < |s.frames| :: s.frames[i].page.pins > 0
  {
    if s.free != [] {
      assert Idle(s.frames[s.free[0]].page);
    } else if s.frames != [] {
      SweepWithoutFailures(s, io);
      forall i | 0 <= i < |s.frames| ensures s.frames[i].page.id != INVALID_PAGE_ID {
        assert Mapped(s, i);
      }
      assert forall i | 0 <= i < |s.frames| :: Spare(s.frames[i]) <==> s.frames[i].page.pins == 0;
    }
  }
}
