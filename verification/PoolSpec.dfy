/**
 The buffer pool's operations as functions on its whole state. Every public operation of
 `BufferPool` holds the latch throughout, so each is one step. `io(k)` is the outcome of
 the write that the k-th probe of a clock sweep may issue.
 */
module PoolSpec {
  import opened Wrappers
  import opened Pages
  import opened DiskStore

  datatype Frame = Frame(page: PageValue, referenced: bool)

  datatype Pool = Pool(
    frames: seq<Frame>,
    table: map<PageId, nat>,
    free: seq<nat>,
    hand: nat,
    dirtyCount: nat,   // dirty_count_
    metric: nat,       // metrics_->dirty_page_count
    disk: Disk)

  type WriteOracle = nat -> WriteOutcome

  const COUNTER_RANGE: nat := 0x1_0000_0000_0000_0000

  // The two counters are unsigned 64-bit words.
  function Inc(c: nat): nat { (c + 1) % COUNTER_RANGE }
  function Dec(c: nat): nat { if c == 0 then COUNTER_RANGE - 1 else c - 1 }

  /** Every index that the pool stores is in range. */
  ghost predicate Shape(s: Pool) {
    && (forall p <- s.table :: s.table[p] < |s.frames|)
    && (forall k | 0 <= k < |s.free| :: s.free[k] < |s.frames|)
    && (s.frames != [] ==> s.hand < |s.frames|)
  }

  function WithPage(s: Pool, i: nat, page: PageValue): Pool
    requires i < |s.frames|
  {
    s.(frames := s.frames[i := s.frames[i].(page := page)])
  }

  /** Erase page `p` of frame `i` from the table and reset the frame. */
  function Drop(s: Pool, i: nat, p: PageId): Pool
    requires i < |s.frames|
  {
    s.(table := s.table - {p}, frames := s.frames[i := Frame(EMPTY_PAGE, false)])
  }

  /** BufferPool::evict_frame */
  function Evict(s: Pool, i: nat, w: WriteOutcome): (Pool, bool)
    requires i < |s.frames|
  {
    var page := s.frames[i].page;
    if !page.dirty then
      (Drop(s, i, page.id), true)
    else
      var (ok, disk, sealed) := WritePage(s.disk, page.id, page, w);
      var s1 := WithPage(s, i, sealed).(disk := disk);
      if !ok then
        (s1, false)
      else
        (Drop(s1.(dirtyCount := Dec(s1.dirtyCount), metric := Dec(s1.metric)), i, page.id), true)
  }

  datatype Probed = Next(s: Pool) | Victim(s: Pool, i: nat)

  /** The frame that probe `k` of a sweep looks at; two passes make 2 * |frames| probes. */
  function At(s: Pool, k: nat): (i: nat)
    requires s.frames != []
    ensures i < |s.frames|
  {
    (s.hand + k) % |s.frames|
  }

  /** One iteration of the sweep's inner loop. */
  function Probe(s: Pool, k: nat, w: WriteOutcome): (r: Probed)
    requires s.frames != []
    ensures |r.s.frames| == |s.frames|
    ensures r.Next? ==> r.s.hand == s.hand
    ensures r.Victim? ==> r.i == At(s, k)
  {
    var i := At(s, k);
    var f := s.frames[i];
    if f.page.pins > 0 then
      Next(s)
    else if f.page.id == INVALID_PAGE_ID then
      Next(s)
    else if f.referenced then
      Next(s.(frames := s.frames[i := f.(referenced := false)]))
    else
      var (s1, ok) := Evict(s, i, w);
      if !ok then Next(s1) else Victim(s1.(hand := (i + 1) % |s.frames|), i)
  }

  /** BufferPool::clock_sweep from probe `k` on. */
  function Sweep(s: Pool, k: nat, io: WriteOracle): (r: (Pool, Option<nat>))
    ensures |r.0.frames| == |s.frames|
    ensures r.1.Some? ==> r.1.value < |s.frames|
    decreases 2 * |s.frames| - k
  {
    if k >= 2 * |s.frames| then
      (s, None)
    else
      match Probe(s, k, io(k))
      case Next(s1) => Sweep(s1, k + 1, io)
      case Victim(s1, i) => (s1, Some(i))
  }

  /** BufferPool::find_victim_frame */
  function FindVictim(s: Pool, io: WriteOracle): (r: (Pool, Option<nat>))
    requires Shape(s)
    ensures |r.0.frames| == |s.frames|
    ensures r.1.Some? ==> r.1.value < |s.frames|
  {
    if s.free != [] then (s.(free := s.free[1..]), Some(s.free[0])) else Sweep(s, 0, io)
  }

  /** The end of a fetch that missed: install the page read, or give the frame back. */
  function Settle(s: Pool, i: nat, p: PageId, ok: bool, page: PageValue): (Pool, Option<nat>)
    requires i < |s.frames|
  {
    if !ok then
      (WithPage(s, i, page).(free := s.free + [i]), None)
    else
      var page1 := page.(pins := page.pins + 1, dirty := false);
      (s.(frames := s.frames[i := Frame(page1, true)], table := s.table[p := i]), Some(i))
  }

  /** The rest of a fetch that missed, once a frame is at hand. */
  function Load(s: Pool, i: nat, p: PageId, r: ReadOutcome): (Pool, Option<nat>)
    requires i < |s.frames|
  {
    var (ok, page) := ReadPage(s.disk, p, s.frames[i].page, r);
    Settle(s, i, p, ok, page)
  }

  /** A fetch that hits. */
  function PinResident(s: Pool, p: PageId): Pool
    requires Shape(s) && p in s.table
  {
    var i := s.table[p];
    var page := s.frames[i].page;
    s.(frames := s.frames[i := Frame(page.(pins := page.pins + 1), true)])
  }

  /** BufferPool::fetch_page; a page pointer is the index of its frame. */
  function Fetch(s: Pool, p: PageId, io: WriteOracle, r: ReadOutcome): (Pool, Option<nat>)
    requires Shape(s)
  {
    if p in s.table then
      (PinResident(s, p), Some(s.table[p]))
    else
      var (s1, v) := FindVictim(s, io);
      if v.None? then (s1, None) else Load(s1, v.value, p, r)
  }

  /** The rest of `new_page`, once a frame is at hand. */
  function Create(s: Pool, i: nat, grown: bool): (Pool, PageId)
    requires i < |s.frames|
  {
    var (disk, id) := AllocatePage(s.disk, grown);
    var page := PageValue(id, false, 1, WithId(ZeroImage(), id));
    (s.(frames := s.frames[i := Frame(page, true)], table := s.table[id := i], disk := disk), id)
  }

  /** BufferPool::new_page */
  function NewPage(s: Pool, io: WriteOracle, grown: bool): (Pool, Option<(PageId, nat)>)
    requires Shape(s)
  {
    var (s1, v) := FindVictim(s, io);
    if v.None? then
      (s1, None)
    else
      var (s2, id) := Create(s1, v.value, grown);
      (s2, Some((id, v.value)))
  }

  /** BufferPool::unpin_page */
  function Unpin(s: Pool, p: PageId, isDirty: bool): (Pool, bool)
    requires Shape(s)
  {
    if p !in s.table then
      (s, false)
    else
      var i := s.table[p];
      var page := s.frames[i].page;
      if page.pins == 0 then
        (s, false)
      else
        var s1 := WithPage(s, i, page.(pins := page.pins - 1, dirty := page.dirty || isDirty));
        if isDirty && !page.dirty then
          (s1.(dirtyCount := Inc(s.dirtyCount), metric := Inc(s.dirtyCount)), true)
        else
          (s1, true)
  }

  /** BufferPool::flush_page */
  function FlushPage(s: Pool, p: PageId, w: WriteOutcome): (Pool, bool)
    requires Shape(s)
  {
    if p !in s.table then
      (s, true)
    else
      var i := s.table[p];
      var page := s.frames[i].page;
      if !page.dirty then
        (s, true)
      else
        var (ok, disk, sealed) := WritePage(s.disk, p, page, w);
        if !ok then
          (WithPage(s, i, sealed).(disk := disk), false)
        else
          (WithPage(s, i, sealed.(dirty := false)).(
             disk := disk, dirtyCount := Dec(s.dirtyCount), metric := Dec(s.dirtyCount)), true)
  }

  /** BufferPool::delete_page */
  function Delete(s: Pool, p: PageId): (Pool, bool)
    requires Shape(s)
  {
    if p !in s.table then
      (s, true)
    else
      var i := s.table[p];
      var page := s.frames[i].page;
      if page.pins > 0 then
        (s, false)
      else
        var s1 := if page.dirty then s.(dirtyCount := Dec(s.dirtyCount), metric := Dec(s.metric)) else s;
        (WithPage(s1, i, EMPTY_PAGE).(table := s.table - {p}, free := s.free + [i]), true)
  }

  /** BufferPool::flush_pages on `pages[i..j]`. */
  function FlushRange(s: Pool, pages: seq<PageId>, i: nat, j: nat, io: WriteOracle): (r: (Pool, bool))
    requires i <= j <= |pages| && Shape(s)
    ensures Shape(r.0)
    decreases j - i
  {
    if i == j then
      (s, true)
    else
      var (t, ok) := FlushRange(s, pages, i, j - 1, io);
      var (u, done) := FlushPage(t, pages[j - 1], io(j - 1));
      (u, ok && done)
  }

  /** A client overwrites what it owns of the page in a frame. */
  function ClientWrite(s: Pool, p: PageId, c: Content): Pool
    requires Shape(s) && p in s.table
  {
    var i := s.table[p];
    var page := s.frames[i].page;
    WithPage(s, i, page.(data := WithContent(page.data, c)))
  }

  /** The pages that a checkpoint must write. */
  function DirtyPages(s: Pool): set<PageId>
    requires Shape(s)
  {
    set p | p in s.table && s.frames[s.table[p]].page.dirty
  }

  /** A freshly built pool of `n` frames. */
  function Initial(n: nat, disk: Disk): Pool {
    Pool(seq(n, _ => Frame(EMPTY_PAGE, false)), map[], seq(n, i => i), 0, 0, 0, disk)
  }
}
