/**
 The checkpoint as a step machine interleaved with clients. `do_checkpoint` takes the pool's
 latch once per page and the log's once per record, so client operations and log appends may
 come between any two of its steps, and any I/O may fail in any of them. `target` is what was
 declared when CHECKPOINT_BEGIN was logged; `missed` are snapshot pages whose flush failed or
 was given up when the manager stopped running, and pages whose image in the stream a
 client's torn write has spoiled, as long as no later flush of the checkpoint mends that.
 */
module FuzzyCheckpoint {
  import opened Wrappers
  import opened Pages
  import opened DiskStore
  import opened PoolSpec
  import opened PoolPages
  import opened PoolRuns
  import opened CheckpointSpec
  import L = WalFailures
  import WalLosses
  import WalSpec
  import WalCodec

  datatype Phase =
    | Idle
    | Begun
    | Flushing(pages: seq<PageId>, done: nat)
    | Finishing(synced: bool)
    | Ended(synced: bool, end: WalCodec.U64, endAt: nat)

  /** `at` and `endAt` are the numbers of the appends of its records, `begin` and `end` the LSNs
      that these returned. */
  datatype Checkpoint = Checkpoint(
    phase: Phase, begin: WalCodec.U64, at: nat, target: map<PageId, nat>, missed: set<PageId>)

  datatype World = World(sys: Sys, log: L.Trail, cp: Checkpoint)

  datatype Event =
    | Client(op: Op)                   // any pool operation of a client
    | ClientLog(r: WalCodec.Record, io: WalSpec.AppendIo) // a client's log append
    | ClientForce(lsn: WalCodec.U64)   // a client's force
    | Begin(io: WalSpec.AppendIo)      // append CHECKPOINT_BEGIN
    | TakeSnapshot(pages: seq<PageId>) // get_dirty_pages, in some order
    | FlushNext(w: WriteOutcome)       // one flush_page of the batch loop
    | Interrupt                        // running_ found false
    | SyncAll
    | End(io: WalSpec.AppendIo)        // append CHECKPOINT_END
    | ForceEnd                         // force of that record
    | FinishUp(removed: nat -> bool)   // truncate the log, unless nothing was written

  /** A torn write spoiled the image of a page that stays dirty in the pool. */
  ghost predicate Torn(l: Look, m: Look) {
    !Clean(l) && m.res == l.res && m.disk != l.disk
  }

  ghost function TornPages(y: Sys, z: Sys): set<PageId> {
    set p | p in y.books && Torn(LookAt(y.pool, p), LookAt(z.pool, p))
  }

  ghost predicate CanAppend(l: L.Trail) {
    l.w.nextLsn + 1 < WalSpec.LSN_RANGE
  }

  ghost predicate Enabled(v: World, e: Event) {
    match e
    case Client(op) => Allowed(v.sys, op)
    case ClientLog(r, io) => CanAppend(v.log)
    case ClientForce(lsn) => lsn < v.log.w.nextLsn
    case Begin(io) => v.cp.phase.Idle? && CanAppend(v.log)
    case TakeSnapshot(pages) => v.cp.phase.Begun? && Shape(v.sys.pool) && Snapshot(v.sys.pool, pages)
    case FlushNext(w) =>
      && v.cp.phase.Flushing? && v.cp.phase.done < |v.cp.phase.pages|
      && Allowed(v.sys, DoFlush(v.cp.phase.pages[v.cp.phase.done], w))
    case Interrupt => v.cp.phase.Flushing? && v.cp.phase.done <= |v.cp.phase.pages|
    case SyncAll => v.cp.phase.Flushing? && v.cp.phase.done == |v.cp.phase.pages| && Allowed(v.sys, DoSync)
    case End(io) => v.cp.phase.Finishing? && CanAppend(v.log)
    case ForceEnd => v.cp.phase.Ended? && v.cp.phase.end < v.log.w.nextLsn
    case FinishUp(removed) => v.cp.phase.Ended?
  }

  ghost function DeclaredNow(y: Sys): map<PageId, nat> {
    map p | p in y.books && y.books[p].saved.Some? :: y.books[p].saved.value
  }

  /** Deleted pages are nobody's target any more. */
  ghost function Remaining(target: map<PageId, nat>, y: Sys): map<PageId, nat> {
    map p | p in target && p in y.books :: target[p]
  }

  ghost function After(v: World, e: Event): World
    requires Enabled(v, e)
  {
    var cp := v.cp;
    match e
    case Client(op) =>
      var y := PoolRuns.Step(v.sys, op);
      v.(sys := y, cp := cp.(target := Remaining(cp.target, y), missed := cp.missed + TornPages(v.sys, y)))
    case ClientLog(r, io) => v.(log := L.After(v.log, L.Append(r, io)))
    case ClientForce(lsn) => v.(log := L.After(v.log, L.Force(lsn)))
    case Begin(io) =>
      var r := WalSpec.BeginRecord();
      v.(log := L.After(v.log, L.Append(r, io)),
         cp := Checkpoint(Begun, WalSpec.Append(v.log.w, r, io).1, |v.log.entries|, DeclaredNow(v.sys), {}))
    case TakeSnapshot(pages) =>
      v.(cp := cp.(phase := if pages == [] then Finishing(false) else Flushing(pages, 0)))
    case FlushNext(w) =>
      var p := cp.phase.pages[cp.phase.done];
      v.(sys := PoolRuns.Step(v.sys, DoFlush(p, w)),
         cp := cp.(phase := Flushing(cp.phase.pages, cp.phase.done + 1),
                   missed := if FlushPage(v.sys.pool, p, w).1 then cp.missed - {p} else cp.missed + {p}))
    case Interrupt =>
      v.(cp := cp.(phase := Flushing(cp.phase.pages, |cp.phase.pages|),
                   missed := cp.missed + set p | p in cp.phase.pages[cp.phase.done..]))
    case SyncAll => v.(sys := PoolRuns.Step(v.sys, DoSync), cp := cp.(phase := Finishing(true)))
    case End(io) =>
      var r := WalSpec.EndRecord(cp.begin);
      v.(log := L.After(v.log, L.Append(r, io)),
         cp := cp.(phase := Ended(cp.phase.synced, WalSpec.Append(v.log.w, r, io).1, |v.log.entries|)))
    case ForceEnd => v.(log := L.After(v.log, L.Force(cp.phase.end)))
    case FinishUp(removed) =>
      v.(log := if cp.phase.synced then L.After(v.log, L.Truncate(removed)) else v.log, cp := cp.(phase := Idle))
  }

  // One page under client steps

  /** The image is the current content of page `p` and will be accepted when it is read. */
  ghost predicate IsCurrent(p: PageId, img: Option<Image>, b: Book)
    requires b.hist != []
  {
    img.Some? && ContentOf(img.value) == Last(b.hist) && ChecksumOk(WithId(img.value, p))
  }

  /** A step takes a page forward: its history grows, its stream image stays or becomes its
      current content, and what is flushed is what was flushed or what is in the stream. */
  ghost predicate Advanced(p: PageId, l: Look, b: Book, m: Look, c: Book) {
    && b.hist != [] && b.hist <= c.hist
    && (m.disk == l.disk || IsCurrent(p, m.disk, b))
    && (m.safe == l.safe || m.safe == m.disk)
    && (Clean(m) && !Clean(l) ==> IsCurrent(p, m.disk, b))
  }

  lemma YieldAdvances(p: PageId, l: Look, m: Look, b: Book)
    requires BookGood(p, l, b) && Yielded(p, l, m, false) && !Torn(l, m)
    ensures Advanced(p, l, b, m, b)
  {
    hide ContentOf, ChecksumOk, WithId, Holds;
  }

  lemma ClientAdvances(y: Sys, op: Op, p: PageId)
    requires Good(y) && Allowed(y, op) && !Torn(LookAt(y.pool, p), LookAt(PoolRuns.Step(y, op).pool, p))
    requires p in y.books && p in PoolRuns.Step(y, op).books
    ensures Advanced(p, LookAt(y.pool, p), y.books[p],
                     LookAt(PoolRuns.Step(y, op).pool, p), PoolRuns.Step(y, op).books[p])
  {
    hide LookAt, Fetch, NewPage, Unpin, PoolSpec.FlushPage, Delete, ClientWrite, Good, Yielded;
    hide ContentOf, ChecksumOk, WithId, Holds;
    var s, l, b := y.pool, LookAt(y.pool, p), y.books[p];
    GoodAt(y, p);
    StepBook(y, op, p);
    match op {
      case DoFetch(q, io, r) =>
        if q in s.table {
          FetchHits(s, q, io, r);
          PinnedPage(s, q, p);
        } else {
          MissedPage(s, q, io, r, p);
          if q != p { YieldAdvances(p, l, LookAt(Fetch(s, q, io, r).0, p), b); }
        }
      case DoNew(io, grown) =>
        var mid := NewedPage(s, io, grown, p);
        YieldAdvances(p, l, mid, b);
      case DoUnpin(q, isDirty, _) => UnpinnedPage(s, q, isDirty, p);
      case DoFlush(q, w) => FlushedPage(s, q, w, p);
      case DoDelete(q) => DeletedPage(s, q, p);
      case DoWrite(q, c, _) => WrittenPage(s, q, c, p);
      case DoSync => SyncedPage(s, p);
    }
  }

  /** A later book of the same page: more history, and what is declared is not older. */
  ghost predicate LaterBook(b: Book, c: Book) {
    && b.hist <= c.hist
    && (b.saved.Some? ==> c.saved.Some? && b.saved.value <= c.saved.value)
  }

  lemma BookGrows(y: Sys, op: Op, p: PageId)
    requires Good(y) && Allowed(y, op) && p in y.books && p in PoolRuns.Step(y, op).books
    ensures LaterBook(y.books[p], PoolRuns.Step(y, op).books[p])
  {
    hide Fetch, NewPage, Unpin, PoolSpec.FlushPage, Delete, ClientWrite, LookAt, Good, Holds, Agrees;
    GoodAt(y, p);
    StepBook(y, op, p);
  }

  /** The image holds content `k` of the page or a later one, and will be accepted when read. */
  ghost predicate ImageHolds(p: PageId, img: Option<Image>, b: Book, k: nat) {
    img.Some? && Holds(img.value, b.hist, k) && ChecksumOk(WithId(img.value, p))
  }

  lemma HeldInLonger(img: Image, h: seq<Content>, g: seq<Content>, k: nat)
    requires Holds(img, h, k) && h <= g
    ensures Holds(img, g, k)
  {
    var j :| k <= j < |h| && h[j] == ContentOf(img);
    assert g[j] == h[j];
  }

  lemma CurrentIsHeld(img: Image, h: seq<Content>, g: seq<Content>, k: nat)
    requires h != [] && k < |h| && h <= g && ContentOf(img) == Last(h)
    ensures Holds(img, g, k)
  {
    assert g[|h| - 1] == ContentOf(img);
  }

  lemma HeldFromEarlier(img: Image, h: seq<Content>, j: nat, k: nat)
    requires Holds(img, h, j) && k <= j
    ensures Holds(img, h, k)
  {
  }

  /** What a page has of content `k` of its history never gets less. */
  lemma AdvanceKeeps(p: PageId, l: Look, b: Book, m: Look, c: Book, k: nat)
    requires Advanced(p, l, b, m, c) && k < |b.hist|
    ensures ImageHolds(p, l.disk, b, k) ==> ImageHolds(p, m.disk, c, k)
    ensures !Clean(l) && Clean(m) ==> ImageHolds(p, m.disk, c, k)
    ensures ImageHolds(p, l.disk, b, k) && ImageHolds(p, l.safe, b, k) ==> ImageHolds(p, m.safe, c, k)
  {
    hide Holds, ContentOf, ChecksumOk, WithId;
    if IsCurrent(p, m.disk, b) {
      CurrentIsHeld(m.disk.value, b.hist, c.hist, k);
    } else if ImageHolds(p, l.disk, b, k) {
      HeldInLonger(l.disk.value, b.hist, c.hist, k);
    }
    if ImageHolds(p, l.safe, b, k) && m.safe == l.safe {
      HeldInLonger(l.safe.value, b.hist, c.hist, k);
    }
  }

  /** A clean page has in the stream what was declared, or something later. */
  lemma CleanHolds(p: PageId, l: Look, b: Book, k: nat)
    requires BookGood(p, l, b) && Clean(l) && b.saved.Some? && k <= b.saved.value
    ensures ImageHolds(p, l.disk, b, k)
  {
    hide Holds, ContentOf, ChecksumOk, WithId;
    HeldFromEarlier(l.disk.value, b.hist, b.saved.value, k);
  }

  // The invariant of the machine

  /** How far the checkpoint is with a page whose declared content is at index `k`. */
  ghost predicate Secured(cp: Checkpoint, p: PageId, l: Look, b: Book, k: nat) {
    match cp.phase
    case Idle => true
    case Begun => true
    case Flushing(pages, done) =>
      || p in cp.missed || ImageHolds(p, l.disk, b, k)
      || (done <= |pages| && p in pages[done..] && !Clean(l))
    case Finishing(synced) =>
      p in cp.missed || (ImageHolds(p, l.disk, b, k) && (synced ==> ImageHolds(p, l.safe, b, k)))
    case Ended(synced, _, _) =>
      p in cp.missed || (ImageHolds(p, l.disk, b, k) && (synced ==> ImageHolds(p, l.safe, b, k)))
  }

  ghost predicate TargetGood(y: Sys, cp: Checkpoint, p: PageId)
    requires p in cp.target
  {
    && p in y.books && y.books[p].saved.Some? && cp.target[p] <= y.books[p].saved.value < |y.books[p].hist|
    && Secured(cp, p, LookAt(y.pool, p), y.books[p], cp.target[p])
  }

  ghost predicate TargetsGood(y: Sys, cp: Checkpoint) {
    forall p <- cp.target :: TargetGood(y, cp, p)
  }

  /** Append number `k` was that of `r`, it returned `lsn`, and nothing was truncated since. */
  ghost predicate Logged(l: L.Trail, k: nat, r: WalCodec.Record, lsn: WalCodec.U64) {
    && k < |l.entries| && l.entries[k].record == r.(lsn := l.entries[k].record.lsn) && l.entries[k].returned == lsn
    && forall c <- l.truncs :: c.at <= k
  }

  ghost predicate RecordsGood(l: L.Trail, cp: Checkpoint) {
    && (!cp.phase.Idle? ==> Logged(l, cp.at, WalSpec.BeginRecord(), cp.begin))
    && (cp.phase.Ended? ==>
          cp.at < cp.phase.endAt && Logged(l, cp.phase.endAt, WalSpec.EndRecord(cp.begin), cp.phase.end))
  }

  ghost predicate WorldGood(v: World) {
    Good(v.sys) && L.TrailOk(v.log) && TargetsGood(v.sys, v.cp) && RecordsGood(v.log, v.cp)
  }

  lemma SecuredAdvances(cp: Checkpoint, p: PageId, l: Look, b: Book, m: Look, c: Book, k: nat)
    requires Advanced(p, l, b, m, c) && k < |b.hist| && Secured(cp, p, l, b, k)
    ensures Secured(cp, p, m, c, k)
  {
    hide ImageHolds, Advanced;
    AdvanceKeeps(p, l, b, m, c, k);
  }

  lemma ClientKeepsTarget(v: World, op: Op, p: PageId)
    requires WorldGood(v) && Enabled(v, Client(op)) && p in After(v, Client(op)).cp.target
    ensures var u := After(v, Client(op)); TargetGood(u.sys, u.cp, p)
  {
    hide Good, L.TrailOk, RecordsGood, PoolRuns.Step, LookAt, Advanced, Secured;
    var u, q := After(v, Client(op)), PoolRuns.Step(v.sys, op);
    assert TargetGood(v.sys, v.cp, p);
    BookGrows(v.sys, op, p);
    StepKeepsGood(v.sys, op);
    GoodAt(q, p);
    MoreMissed(v.cp, u.cp, p, LookAt(q.pool, p), q.books[p], v.cp.target[p]);
    if p !in u.cp.missed {
      ClientAdvances(v.sys, op, p);
      SecuredAdvances(v.cp, p, LookAt(v.sys.pool, p), v.sys.books[p], LookAt(q.pool, p), q.books[p], v.cp.target[p]);
    }
  }

  /** Only the phase and the missed pages matter. */
  lemma MoreMissed(cp: Checkpoint, dp: Checkpoint, p: PageId, l: Look, b: Book, k: nat)
    requires dp.phase == cp.phase && cp.missed <= dp.missed
    ensures p in dp.missed || Secured(cp, p, l, b, k) ==> Secured(dp, p, l, b, k)
  {
    hide ImageHolds;
  }

  lemma FlushNextSecures(v: World, w: WriteOutcome, q: PageId)
    requires WorldGood(v) && Enabled(v, FlushNext(w)) && q in v.cp.target
    ensures var u := After(v, FlushNext(w));
            Secured(u.cp, q, LookAt(u.sys.pool, q), v.sys.books[q], v.cp.target[q])
  {
    hide PoolSpec.FlushPage, LookAt, Good, L.TrailOk, RecordsGood, ImageHolds, BookGood, ImageOf;
    var u := After(v, FlushNext(w));
    var pages, done := v.cp.phase.pages, v.cp.phase.done;
    var l, b, k := LookAt(v.sys.pool, q), v.sys.books[q], v.cp.target[q];
    assert TargetGood(v.sys, v.cp, q);
    GoodAt(v.sys, q);
    FlushedPage(v.sys.pool, pages[done], w, q);
    assert pages[done..] == [pages[done]] + pages[done + 1..];
    if q == pages[done] {
      if Clean(l) {
        CleanHolds(q, l, b, k);
      } else if w.Written? {
        WrittenHolds(q, l, LookAt(u.sys.pool, q).disk.value, b, k);
      }
    }
  }

  lemma WrittenHolds(p: PageId, l: Look, img: Image, b: Book, k: nat)
    requires BookGood(p, l, b) && l.res.Some? && ImageOf(p, img, l.res.value) && k < |b.hist|
    ensures ImageHolds(p, Some(img), b, k)
  {
    hide Holds, ContentOf, ChecksumOk, WithId;
    CurrentIsHeld(img, b.hist, b.hist, k);
  }

  lemma FlushNextKeepsTargets(v: World, w: WriteOutcome)
    requires WorldGood(v) && Enabled(v, FlushNext(w))
    ensures var u := After(v, FlushNext(w)); TargetsGood(u.sys, u.cp)
  {
    hide Good, L.TrailOk, RecordsGood, Secured, LookAt;
    var u := After(v, FlushNext(w));
    forall q <- u.cp.target ensures TargetGood(u.sys, u.cp, q) {
      assert TargetGood(v.sys, v.cp, q);
      StepBook(v.sys, DoFlush(v.cp.phase.pages[v.cp.phase.done], w), q);
      FlushNextSecures(v, w, q);
    }
  }

  lemma BeginTargets(v: World, io: WalSpec.AppendIo)
    requires WorldGood(v) && Enabled(v, Begin(io))
    ensures var u := After(v, Begin(io)); TargetsGood(u.sys, u.cp)
  {
    hide Good, L.TrailOk, RecordsGood, L.After, WalSpec.Append, LookAt, Holds;
    var u := After(v, Begin(io));
    forall p <- u.cp.target ensures TargetGood(u.sys, u.cp, p) {
      GoodAt(v.sys, p);
    }
  }

  lemma SnapshotTargets(v: World, pages: seq<PageId>)
    requires WorldGood(v) && Enabled(v, TakeSnapshot(pages))
    ensures var u := After(v, TakeSnapshot(pages)); TargetsGood(u.sys, u.cp)
  {
    hide Good, L.TrailOk, RecordsGood, LookAt, ImageHolds, BookGood;
    var u := After(v, TakeSnapshot(pages));
    forall p <- u.cp.target ensures TargetGood(u.sys, u.cp, p) {
      assert TargetGood(v.sys, v.cp, p);
      GoodAt(v.sys, p);
      DirtyInSnapshot(v.sys.pool, p);
      assert pages[0..] == pages;
      if Clean(LookAt(v.sys.pool, p)) {
        CleanHolds(p, LookAt(v.sys.pool, p), v.sys.books[p], v.cp.target[p]);
      }
    }
  }

  lemma SyncTargets(v: World)
    requires WorldGood(v) && Enabled(v, SyncAll)
    ensures var u := After(v, SyncAll); TargetsGood(u.sys, u.cp)
  {
    hide Good, L.TrailOk, RecordsGood, LookAt, ImageHolds;
    var u := After(v, SyncAll);
    forall p <- u.cp.target ensures TargetGood(u.sys, u.cp, p) {
      assert TargetGood(v.sys, v.cp, p);
      StepBook(v.sys, DoSync, p);
      SyncedPage(v.sys.pool, p);
    }
  }

  /** Steps that leave the pool as it is. */
  lemma QuietTargets(v: World, e: Event)
    requires WorldGood(v) && Enabled(v, e)
    requires e.ClientLog? || e.ClientForce? || e.Interrupt? || e.End? || e.ForceEnd? || e.FinishUp?
    ensures TargetsGood(After(v, e).sys, After(v, e).cp)
  {
    hide Good, L.TrailOk, RecordsGood, LookAt, ImageHolds, L.After, WalSpec.Append;
    var u := After(v, e);
    forall p <- u.cp.target ensures TargetGood(u.sys, u.cp, p) {
      assert TargetGood(v.sys, v.cp, p);
    }
  }

  lemma TargetsAfter(v: World, e: Event)
    requires WorldGood(v) && Enabled(v, e)
    ensures TargetsGood(After(v, e).sys, After(v, e).cp)
  {
    hide Good, L.TrailOk, RecordsGood, TargetGood, After, Enabled;
    match e {
      case Client(op) =>
        var u := After(v, e);
        forall p <- u.cp.target ensures TargetGood(u.sys, u.cp, p) {
          ClientKeepsTarget(v, op, p);
        }
      case Begin(io) => BeginTargets(v, io);
      case TakeSnapshot(pages) => SnapshotTargets(v, pages);
      case FlushNext(w) => FlushNextKeepsTargets(v, w);
      case SyncAll => SyncTargets(v);
      case _ => QuietTargets(v, e);
    }
  }

  // The log

  /** What an event does to the log, if anything. */
  ghost function LogAction(v: World, e: Event): Option<L.Action>
    requires Enabled(v, e)
  {
    match e
    case ClientLog(r, io) => Some(L.Append(r, io))
    case ClientForce(lsn) => Some(L.Force(lsn))
    case Begin(io) => Some(L.Append(WalSpec.BeginRecord(), io))
    case End(io) => Some(L.Append(WalSpec.EndRecord(v.cp.begin), io))
    case ForceEnd => Some(L.Force(v.cp.phase.end))
    case FinishUp(removed) => if v.cp.phase.synced then Some(L.Truncate(removed)) else None
    case _ => None
  }

  lemma LogStays(l: L.Trail, a: L.Action, k: nat, r: WalCodec.Record, lsn: WalCodec.U64)
    requires Logged(l, k, r, lsn) && !a.Truncate?
    ensures Logged(L.After(l, a), k, r, lsn)
  {
    hide WalSpec.Append, WalSpec.Force;
  }

  lemma JustLogged(l: L.Trail, r: WalCodec.Record, io: WalSpec.AppendIo)
    requires L.TrailOk(l) && CanAppend(l)
    ensures Logged(L.After(l, L.Append(r, io)), |l.entries|, r, WalSpec.Append(l.w, r, io).1)
  {
    hide WalSpec.Append, L.StreamOk, L.FilesOk, L.EntriesOk, L.HomesOk, L.SafeOk, L.SizeOk;
  }

  lemma LogGood(v: World, e: Event)
    requires WorldGood(v) && Enabled(v, e)
    ensures L.TrailOk(After(v, e).log)
  {
    hide L.TrailOk, L.After, PoolRuns.Step, TargetsGood, Good, WalSpec.Append;
    var a := LogAction(v, e);
    if a.Some? {
      L.ActionOk(v.log, a.value);
    }
  }

  lemma RecordsAfter(v: World, e: Event)
    requires WorldGood(v) && Enabled(v, e)
    ensures RecordsGood(After(v, e).log, After(v, e).cp)
  {
    hide L.TrailOk, L.After, PoolRuns.Step, TargetsGood, Good, WalSpec.Append, Logged;
    var a := LogAction(v, e);
    if a.Some? && !a.value.Truncate? {
      if !v.cp.phase.Idle? {
        LogStays(v.log, a.value, v.cp.at, WalSpec.BeginRecord(), v.cp.begin);
      }
      if v.cp.phase.Ended? {
        LogStays(v.log, a.value, v.cp.phase.endAt, WalSpec.EndRecord(v.cp.begin), v.cp.phase.end);
      }
      if a.value.Append? {
        JustLogged(v.log, a.value.r, a.value.io);
      }
      LoggedInRange(v.log, v.cp);
    }
  }

  lemma LoggedInRange(l: L.Trail, cp: Checkpoint)
    requires RecordsGood(l, cp)
    ensures !cp.phase.Idle? ==> cp.at < |l.entries|
  {
  }

  lemma EventKeepsGood(v: World, e: Event)
    requires WorldGood(v) && Enabled(v, e)
    ensures WorldGood(After(v, e))
  {
    hide Good, L.TrailOk, RecordsGood, TargetsGood, L.After, WalSpec.Append;
    match e {
      case Client(op) => StepKeepsGood(v.sys, op);
      case FlushNext(w) => StepKeepsGood(v.sys, DoFlush(v.cp.phase.pages[v.cp.phase.done], w));
      case SyncAll => StepKeepsGood(v.sys, DoSync);
      case _ =>
    }
    TargetsAfter(v, e);
    LogGood(v, e);
    RecordsAfter(v, e);
  }

  // Runs

  ghost predicate RunsTo(v: World, es: seq<Event>, z: World)
    decreases |es|
  {
    if es == [] then z == v else Enabled(v, es[0]) && RunsTo(After(v, es[0]), es[1..], z)
  }

  lemma {:induction false} RunKeepsWorldGood(v: World, es: seq<Event>, z: World)
    requires WorldGood(v) && RunsTo(v, es, z)
    ensures WorldGood(z)
    decreases |es|
  {
    hide WorldGood, Enabled, After;
    if es != [] {
      EventKeepsGood(v, es[0]);
      RunKeepsWorldGood(After(v, es[0]), es[1..], z);
    }
  }

  /** Page `p` is never deleted on the way. */
  ghost predicate NeverDeleted(v: World, es: seq<Event>, p: PageId)
    decreases |es|
  {
    && p in v.sys.books
    && (es == [] || (Enabled(v, es[0]) && NeverDeleted(After(v, es[0]), es[1..], p)))
  }

  lemma TargetTracked(v: World, e: Event, p: PageId)
    requires WorldGood(v) && Enabled(v, e) && !e.Begin?
    requires p in v.sys.books && p in After(v, e).sys.books && p in v.cp.target
    ensures p in After(v, e).cp.target && After(v, e).cp.target[p] == v.cp.target[p]
    ensures LaterBook(v.sys.books[p], After(v, e).sys.books[p])
    ensures After(v, e).cp.at == v.cp.at && After(v, e).cp.begin == v.cp.begin
  {
    hide Good, L.TrailOk, RecordsGood, TargetsGood, L.After, WalSpec.Append;
    match e {
      case Client(op) => BookGrows(v.sys, op, p);
      case FlushNext(w) => StepBook(v.sys, DoFlush(v.cp.phase.pages[v.cp.phase.done], w), p);
      case SyncAll => StepBook(v.sys, DoSync, p);
      case _ =>
    }
  }

  lemma {:induction false} TargetKept(v: World, es: seq<Event>, z: World, p: PageId)
    requires WorldGood(v) && RunsTo(v, es, z) && (forall e <- es :: !e.Begin?)
    requires NeverDeleted(v, es, p) && p in v.cp.target
    ensures p in z.sys.books && p in z.cp.target && z.cp.target[p] == v.cp.target[p]
    ensures LaterBook(v.sys.books[p], z.sys.books[p])
    ensures z.cp.at == v.cp.at && z.cp.begin == v.cp.begin
    decreases |es|
  {
    hide WorldGood, Enabled, After;
    if es != [] {
      EventKeepsGood(v, es[0]);
      HeadNotDeleted(After(v, es[0]), es[1..], p);
      TargetTracked(v, es[0], p);
      TargetKept(After(v, es[0]), es[1..], z, p);
    }
  }

  lemma HeadNotDeleted(v: World, es: seq<Event>, p: PageId)
    requires NeverDeleted(v, es, p)
    ensures p in v.sys.books
  {
  }

  ghost function StartWorld(n: nat, next: PageId, file: map<PageId, Image>, segmentSize: nat): World {
    World(Start(n, next, file), L.Beginning(segmentSize), Checkpoint(Idle, 0, 0, map[], {}))
  }

  lemma StartWorldGood(n: nat, next: PageId, file: map<PageId, Image>, segmentSize: nat)
    requires n < COUNTER_RANGE && forall p <- file :: p < next
    ensures WorldGood(StartWorld(n, next, file, segmentSize))
  {
    hide Good, L.TrailOk, Start, L.Beginning;
    StartGood(n, next, file);
    L.BeginningOk(segmentSize);
  }

  /** The two records of the checkpoint: a record of kind 7, and one of kind 8 that points back at
      what the append of the first returned. Each is in a file that is still there exactly if it was
      kept, and then reading that file gives the record. */
  ghost predicate RecordsInLog(v: World)
    requires v.cp.phase.Ended?
  {
    var l, at, end := v.log, v.cp.at, v.cp.phase.endAt;
    && at < end < |l.entries|
    && l.entries[at].record.lsn == at + 1 && l.entries[end].record.lsn == end + 1
    && l.entries[at].record.(lsn := 0) == WalCodec.Record(7, 0, 0, 0xFFFF_FFFF, 0, 0, 0, [])
    && l.entries[end].record.(lsn := 0) == WalCodec.Record(8, 0, 0, 0xFFFF_FFFF, 0, 0, l.entries[at].returned, [])
    && (WalLosses.Live(l, at) <==> L.Kept(l.entries, at)) && (WalLosses.Live(l, end) <==> L.Kept(l.entries, end))
    && (L.Kept(l.entries, at) ==> WalLosses.Readable(l, at)) && (L.Kept(l.entries, end) ==> WalLosses.Readable(l, end))
  }

  lemma EarlyTruncationsSpare(l: L.Trail, k: nat)
    requires L.TrailOk(l) && k < |l.entries| && forall c <- l.truncs :: c.at <= k
    ensures WalLosses.Live(l, k) <==> L.Kept(l.entries, k)
  {
    hide L.TrailOk, L.Kept, L.Attempts, WalLosses.Live;
    WalLosses.LiveExact(l, k);
    forall c <- l.truncs ensures L.Spares(c, l.entries, L.Home(l.entries, k)) {
      L.AttemptsGrow(l.entries, c.at, k + 1);
    }
  }

  lemma LoggedRecord(l: L.Trail, k: nat, r: WalCodec.Record, lsn: WalCodec.U64)
    requires L.TrailOk(l) && Logged(l, k, r, lsn) && r.data == []
    ensures l.entries[k].record.lsn == k + 1 && l.entries[k].record.(lsn := 0) == r.(lsn := 0)
    ensures l.entries[k].returned == lsn
    ensures WalLosses.Live(l, k) <==> L.Kept(l.entries, k)
    ensures L.Kept(l.entries, k) ==> WalLosses.Readable(l, k)
  {
    hide L.StreamOk, L.FilesOk, L.HomesOk, L.SafeOk, L.SizeOk, L.TruncsOk, L.Kept, WalLosses.Live, WalLosses.Readable;
    EarlyTruncationsSpare(l, k);
    if L.Kept(l.entries, k) {
      WalLosses.LiveIsReadable(l, k);
    }
  }

  lemma EndedRecords(v: World)
    requires WorldGood(v) && v.cp.phase.Ended?
    ensures RecordsInLog(v)
  {
    hide Good, L.TrailOk, TargetsGood, L.Kept, WalLosses.Live, WalLosses.Readable;
    LoggedRecord(v.log, v.cp.at, WalSpec.BeginRecord(), v.cp.begin);
    LoggedRecord(v.log, v.cp.phase.endAt, WalSpec.EndRecord(v.cp.begin), v.cp.phase.end);
  }

  /** So it is after every run that ends with an ended checkpoint. */
  lemma CheckpointRecords(
    n: nat, next: PageId, file: map<PageId, Image>, segmentSize: nat, es: seq<Event>, z: World)
    requires n < COUNTER_RANGE && forall q <- file :: q < next
    requires RunsTo(StartWorld(n, next, file, segmentSize), es, z) && z.cp.phase.Ended?
    ensures RecordsInLog(z)
  {
    hide WorldGood, RunsTo, StartWorld, RecordsInLog;
    StartWorldGood(n, next, file, segmentSize);
    RunKeepsWorldGood(StartWorld(n, next, file, segmentSize), es, z);
    EndedRecords(z);
  }

  /** Fuzzy checkpoint safety, for every run. Whatever clients do between its steps and whatever I/O
      fails, once CHECKPOINT_END was appended: every page whose change was declared before
      CHECKPOINT_BEGIN, and that was neither deleted meanwhile nor missed, is in the stream with
      that content or a later one, in an image that a read accepts; and so it is in the file,
      unless the checkpoint took the early exit and did not sync. */
  lemma FuzzyCheckpointSafety(
    n: nat, next: PageId, file: map<PageId, Image>, segmentSize: nat,
    before: seq<Event>, v: World, io: WalSpec.AppendIo, es: seq<Event>, z: World, p: PageId)
    requires n < COUNTER_RANGE && forall q <- file :: q < next
    requires RunsTo(StartWorld(n, next, file, segmentSize), before, v) && Enabled(v, Begin(io))
    requires RunsTo(After(v, Begin(io)), es, z) && (forall e <- es :: !e.Begin?)
    requires z.cp.phase.Ended?
    requires Declared(v.sys, p) && NeverDeleted(After(v, Begin(io)), es, p)
    ensures p in z.sys.books && LaterBook(v.sys.books[p], z.sys.books[p])
    ensures var l, b, k := LookAt(z.sys.pool, p), z.sys.books[p], v.sys.books[p].saved.value;
            p !in z.cp.missed ==> ImageHolds(p, l.disk, b, k) && (z.cp.phase.synced ==> ImageHolds(p, l.safe, b, k))
    ensures RecordsInLog(z) && z.cp.at == |v.log.entries|
  {
    hide WorldGood, RunsTo, StartWorld, NeverDeleted, ImageHolds, L.After, WalSpec.Append, LookAt;
    StartWorldGood(n, next, file, segmentSize);
    RunKeepsWorldGood(StartWorld(n, next, file, segmentSize), before, v);
    var u := After(v, Begin(io));
    EventKeepsGood(v, Begin(io));
    RunKeepsWorldGood(u, es, z);
    TargetKept(u, es, z, p);
    EndedRecords(z);
    TargetAtEnd(z, p);
  }

  lemma TargetAtEnd(z: World, p: PageId)
    requires WorldGood(z) && z.cp.phase.Ended? && p in z.cp.target
    ensures p in z.sys.books
    ensures var l, b, k := LookAt(z.sys.pool, p), z.sys.books[p], z.cp.target[p];
            p !in z.cp.missed ==> ImageHolds(p, l.disk, b, k) && (z.cp.phase.synced ==> ImageHolds(p, l.safe, b, k))
  {
    hide Good, L.TrailOk, RecordsGood, ImageHolds, LookAt;
    assert TargetGood(z.sys, z.cp, p);
  }

  // What the checkpoint's own truncation leaves

  /** At its end the checkpoint truncates the log. Its BEGIN record, and with it everything that was
      kept since, survives if and only if it was kept and at most one rotation was attempted
      since, or its file could not be removed; and so for its END record. */
  lemma RecordsRetained(z: World, removed: nat -> bool, x: World)
    requires WorldGood(z) && z.cp.phase.Ended? && z.cp.phase.synced && x == After(z, FinishUp(removed))
    ensures var es := z.log.entries;
            x.log.entries == es && forall k | k == z.cp.at || k == z.cp.phase.endAt ::
              k < |es| && (WalLosses.Live(x.log, k) <==>
                           && L.Kept(es, k)
                           && (L.Attempts(es) <= L.Home(es, k) + 1 || !removed(L.Home(es, k))))
  {
    hide Good, L.TrailOk, TargetsGood, L.Kept, L.Home, WalLosses.Live, L.Attempts;
    L.ActionOk(z.log, L.Truncate(removed));
    forall k | k == z.cp.at || k == z.cp.phase.endAt
      ensures k < |z.log.entries|
      ensures WalLosses.Live(L.After(z.log, L.Truncate(removed)), k) <==>
              && L.Kept(z.log.entries, k)
              && (L.Attempts(z.log.entries) <= L.Home(z.log.entries, k) + 1 || !removed(L.Home(z.log.entries, k)))
    {
      TruncatedNow(z.log, removed, k);
    }
  }

  lemma TruncatedNow(l: L.Trail, removed: nat -> bool, k: nat)
    requires L.TrailOk(l) && k < |l.entries| && forall c <- l.truncs :: c.at <= k
    ensures var x, i := L.After(l, L.Truncate(removed)), L.Home(l.entries, k);
            WalLosses.Live(x, k) <==> L.Kept(l.entries, k) && (L.Attempts(l.entries) <= i + 1 || !removed(i))
  {
    hide L.TrailOk, L.Kept, L.Attempts, WalLosses.Live, WalSpec.Truncate, WalSpec.BytesBelow;
    var x, es := L.After(l, L.Truncate(removed)), l.entries;
    var i := L.Home(es, k);
    L.ActionOk(l, L.Truncate(removed));
    WalLosses.LiveExact(x, k);
    forall c <- l.truncs ensures L.Spares(c, es, i) {
      L.AttemptsGrow(es, c.at, k + 1);
    }
    var now := L.Truncation(|es|, removed);
    assert es[..|es|] == es;
    assert forall c :: c in x.truncs <==> c in l.truncs || c == now;
  }
}
