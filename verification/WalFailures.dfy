/**
 Runs of the write-ahead log in which rotations, writes and removals may fail. Beside the log we
 keep what every append was given and what it returned, the records in each segment file ever
 created, the segments whose stream failed, the truncations, and the bytes that these subtracted
 for files they could not remove.
 */
module WalFailures {
  import opened WalCodec
  import opened WalSpec
  import opened WalRuns

  /** An append: its stamped record, whether it needed a rotation, the outcomes of its I/O, and the
      LSN it returned. */
  datatype Entry = Entry(record: Record, needed: bool, io: AppendIo, returned: U64)

  /** A truncation: after how many appends, and which files could be removed. */
  datatype Truncation = Truncation(at: nat, removed: nat -> bool)

  datatype Trail = Trail(
    w: Wal, entries: seq<Entry>, segs: map<nat, seq<Record>>, broken: set<nat>, truncs: seq<Truncation>, stuck: nat)

  datatype Action = Append(r: Record, io: AppendIo) | Force(lsn: U64) | Truncate(removed: nat -> bool)

  predicate Refused(e: Entry) { e.needed && !e.io.rotated }

  /** Its write was cut before its end. */
  predicate Short(e: Entry) { e.io.write.Cut? && e.io.write.n < SizeOf(e.record) }

  /** The stream takes nothing: it was not opened, or a write to it was cut. */
  predicate StreamDown(es: seq<Entry>) {
    if es == [] then false
    else
      var last := es[|es| - 1];
      Refused(last) || last.io.write.Cut? || (!last.needed && StreamDown(es[..|es| - 1]))
  }

  /** The stream took something of append number `k`. */
  predicate Reached(es: seq<Entry>, k: nat)
    requires k < |es|
  {
    if es[k].needed then es[k].io.rotated else !StreamDown(es[..k])
  }

  /** Append number `k` came to a file as a whole. */
  predicate Kept(es: seq<Entry>, k: nat)
    requires k < |es|
  {
    Reached(es, k) && !Short(es[k])
  }

  /** How many rotations were attempted. */
  function Attempts(es: seq<Entry>): nat {
    if es == [] then 0 else Attempts(es[..|es| - 1]) + if es[|es| - 1].needed then 1 else 0
  }

  /** The segment that append number `k` was meant for. */
  function Home(es: seq<Entry>, k: nat): nat
    requires k < |es|
  {
    Attempts(es[..k + 1])
  }

  ghost predicate CanAct(t: Trail, a: Action) {
    match a
    case Append(_, _) => t.w.nextLsn + 1 < LSN_RANGE
    case Force(lsn) => lsn < t.w.nextLsn
    case Truncate(_) => true
  }

  function EntryFor(w: Wal, r: Record, io: AppendIo): Entry {
    Entry(Stamp(w, r), NeedsRotation(w, Stamp(w, r)), io, WalSpec.Append(w, r, io).1)
  }

  function RecordsIn(segs: map<nat, seq<Record>>, i: nat): seq<Record> {
    if i in segs then segs[i] else []
  }

  /** Where an append goes, if the stream takes it. */
  function Target(t: Trail, e: Entry): nat {
    if e.needed then t.w.current + 1 else t.w.current
  }

  predicate Takes(t: Trail, e: Entry) {
    if e.needed then e.io.rotated else t.w.isOpen
  }

  function SegsAfter(t: Trail, e: Entry): map<nat, seq<Record>> {
    if !Takes(t, e) then t.segs
    else
      var had := if e.needed then [] else RecordsIn(t.segs, t.w.current);
      t.segs[Target(t, e) := had + if Short(e) then [] else [e.record]]
  }

  function BrokenAfter(t: Trail, e: Entry): set<nat> {
    if Takes(t, e) && e.io.write.Cut? then t.broken + {Target(t, e)} else t.broken
  }

  function After(t: Trail, a: Action): Trail {
    match a
    case Append(r, io) =>
      var e := EntryFor(t.w, r, io);
      Trail(WalSpec.Append(t.w, r, io).0, t.entries + [e], SegsAfter(t, e), BrokenAfter(t, e), t.truncs, t.stuck)
    case Force(lsn) => t.(w := WalSpec.Force(t.w, lsn))
    case Truncate(removed) =>
      var w := WalSpec.Truncate(t.w, removed);
      t.(w := w, truncs := t.truncs + [Truncation(|t.entries|, removed)],
         stuck := t.stuck + BytesBelow(w.files, Bound(t.w)))
  }

  function Beginning(segmentSize: nat): Trail {
    Trail(Fresh(segmentSize), [], map[0 := []], {}, [], 0)
  }

  // The invariant

  ghost predicate StreamOk(t: Trail) {
    && (t.w.isOpen <==> !StreamDown(t.entries))
    && t.w.current == Attempts(t.entries)
    && (t.w.isOpen ==> t.w.current in t.segs && t.w.current in t.w.files && t.w.current !in t.broken)
    && (!t.w.isOpen && t.w.current in t.segs ==> t.w.current in t.broken)
    && (forall i | i in t.segs :: i <= t.w.current)
    && (forall i | i in t.broken :: i <= t.w.current)
  }

  /** Every file that is there starts with the encodings of its records; it ends with them unless
      its stream failed. */
  ghost predicate FileOk(t: Trail, i: nat) {
    && i in t.w.files && i in t.segs
    && EncodeAll(t.segs[i]) <= t.w.files[i]
    && (i !in t.broken ==> t.w.files[i] == EncodeAll(t.segs[i]))
  }

  ghost predicate FilesOk(t: Trail) {
    forall i | i in t.w.files :: FileOk(t, i)
  }

  ghost predicate EntriesOk(t: Trail) {
    && t.w.nextLsn == |t.entries| + 1
    && (forall k | 0 <= k < |t.entries| ::
          var e := t.entries[k];
          e.record.lsn == k + 1 && e.returned == if Refused(e) then INVALID_LSN else k + 1)
  }

  /** What a segment holds are records that were appended for it and kept. */
  ghost predicate HomesOk(t: Trail) {
    && (forall i | i in t.segs :: forall r <- t.segs[i] :: At(t.entries, i, r))
    && (forall k | 0 <= k < |t.entries| :: Kept(t.entries, k) ==> Holds(t, k))
  }

  ghost predicate At(es: seq<Entry>, i: nat, r: Record) {
    && 1 <= r.lsn <= |es| && r == es[r.lsn - 1].record
    && Kept(es, r.lsn - 1) && Home(es, r.lsn - 1) == i
  }

  /** The record of append number `k` is in its segment. */
  ghost predicate Holds(t: Trail, k: nat)
    requires k < |t.entries|
  {
    t.entries[k].record in RecordsIn(t.segs, Home(t.entries, k))
  }

  /** The truncation leaves segment `i`: at most one rotation had been attempted since, or its file
      cannot be removed. */
  predicate Spares(c: Truncation, es: seq<Entry>, i: nat) {
    c.at <= |es| && (Attempts(es[..c.at]) <= i + 1 || !c.removed(i))
  }

  ghost predicate TruncsOk(t: Trail) {
    && (forall c <- t.truncs :: c.at <= |t.entries|)
    && (forall i | i in t.segs :: i in t.w.files <==> forall c <- t.truncs :: Spares(c, t.entries, i))
  }

  /** The records of segment `i` up to the flushed LSN are safe. */
  ghost predicate FlushedIn(t: Trail, i: nat)
    requires i in t.segs && i in t.w.safe
  {
    forall j | 0 <= j < |t.segs[i]| ::
      t.segs[i][j].lsn <= t.w.flushedLsn ==> EndOf(t.segs[i], j) <= t.w.safe[i]
  }

  /** Where record `j` of a segment ends. */
  function EndOf(rs: seq<Record>, j: nat): nat
    requires j < |rs|
  {
    |EncodeAll(rs[..j + 1])|
  }

  ghost predicate SafeAt(t: Trail, i: nat) {
    && i in t.w.files && i in t.segs && i in t.w.safe && t.w.safe[i] <= |t.w.files[i]|
    && (i !in t.broken ==>
          if i == t.w.current && t.w.isOpen then FlushedIn(t, i) else t.w.safe[i] == |t.w.files[i]|)
  }

  ghost predicate SafeOk(t: Trail) {
    && t.w.flushedLsn < t.w.nextLsn
    && forall i | i in t.w.files :: SafeAt(t, i)
  }

  /** The bytes of append number `k` that a caller was made to believe in and that came to no file. */
  function LostOf(es: seq<Entry>, k: nat): nat
    requires k < |es|
  {
    var size := SizeOf(es[k].record);
    if Refused(es[k]) then 0
    else if !Reached(es, k) then size
    else if Short(es[k]) then size - es[k].io.write.n
    else 0
  }

  function LostBytes(es: seq<Entry>): nat {
    if es == [] then 0 else LostBytes(es[..|es| - 1]) + LostOf(es, |es| - 1)
  }

  ghost predicate SizeOk(t: Trail) {
    t.w.size == BytesBelow(t.w.files, t.w.current + 1) + LostBytes(t.entries) - t.stuck
  }

  ghost predicate TrailOk(t: Trail) {
    StreamOk(t) && FilesOk(t) && EntriesOk(t) && HomesOk(t) && TruncsOk(t) && SafeOk(t) && SizeOk(t)
  }

  // One more entry

  lemma AppendedEntry(es: seq<Entry>, e: Entry)
    ensures StreamDown(es + [e]) <==> Refused(e) || e.io.write.Cut? || (!e.needed && StreamDown(es))
    ensures Attempts(es + [e]) == Attempts(es) + if e.needed then 1 else 0
    ensures Reached(es + [e], |es|) <==> if e.needed then e.io.rotated else !StreamDown(es)
    ensures Home(es + [e], |es|) == Attempts(es + [e])
    ensures LostBytes(es + [e]) == LostBytes(es) + LostOf(es + [e], |es|)
  {
    var more := es + [e];
    assert more[..|es|] == es && more[..|es| + 1] == more;
  }

  lemma EarlierEntry(es: seq<Entry>, e: Entry, k: nat)
    requires k < |es|
    ensures Kept(es + [e], k) == Kept(es, k) && Home(es + [e], k) == Home(es, k)
  {
    hide StreamDown, Attempts;
    assert (es + [e])[..k] == es[..k] && (es + [e])[..k + 1] == es[..k + 1];
  }

  lemma EarlierSpares(c: Truncation, es: seq<Entry>, e: Entry, i: nat)
    requires c.at <= |es|
    ensures Spares(c, es + [e], i) == Spares(c, es, i)
  {
    hide Attempts;
    assert (es + [e])[..c.at] == es[..c.at];
  }

  lemma {:induction false} AttemptsGrow(es: seq<Entry>, m: nat, n: nat)
    requires m <= n <= |es|
    ensures Attempts(es[..m]) <= Attempts(es[..n])
    decreases n - m
  {
    if m < n {
      AttemptsGrow(es, m, n - 1);
      assert es[..n][..n - 1] == es[..n - 1];
    }
  }

  // What an append does to the files

  /** The file and the safe mark of a segment after an append. */
  lemma AppendEffect(t: Trail, r: Record, io: AppendIo)
    requires StreamOk(t) && t.w.nextLsn + 1 < LSN_RANGE
    ensures var u, e := After(t, Append(r, io)), EntryFor(t.w, r, io);
            var i, b := Target(t, e), Encode(e.record);
            && e.record.lsn == t.w.nextLsn && u.w.nextLsn == t.w.nextLsn + 1
            && e.returned == (if Refused(e) then INVALID_LSN else t.w.nextLsn)
            && u.w.current == i && u.w.flushedLsn == t.w.flushedLsn
            && u.w.isOpen == (Takes(t, e) && io.write.Whole?)
            && u.w.size == t.w.size + (if Refused(e) then 0 else |b|)
            && u.w.files == (if !Takes(t, e) then t.w.files
                             else t.w.files[i := (if e.needed then [] else FileOf(t.w, i)) + Landed(b, io.write)])
            && u.w.safe == (if !e.needed then t.w.safe
                            else if e.io.rotated then WalSpec.Flush(t.w).safe[i := 0]
                            else WalSpec.Flush(t.w).safe)
  {
    hide Encode, StreamDown, Attempts, Landed;
  }

  lemma LandedSize(r: Record, write: LogWrite)
    ensures |Encode(r)| == SizeOf(r)
    ensures var e := Entry(r, false, AppendIo(true, write), 0);
            |Landed(Encode(r), write)| == if Short(e) then write.n else SizeOf(r)
    ensures write.Whole? ==> Landed(Encode(r), write) == Encode(r)
    ensures !(write.Cut? && write.n < SizeOf(r)) ==> Landed(Encode(r), write) == Encode(r)
  {
    hide Encode;
    EncodeOntoIsConcat(r, []);
  }

  lemma AppendStreamOk(t: Trail, r: Record, io: AppendIo)
    requires StreamOk(t) && TruncsOk(t) && t.w.nextLsn + 1 < LSN_RANGE
    ensures StreamOk(After(t, Append(r, io)))
  {
    hide WalSpec.Append, StreamDown, Attempts, Landed, Encode;
    AppendEffect(t, r, io);
    AppendedEntry(t.entries, EntryFor(t.w, r, io));
  }

  lemma AppendFileOk(t: Trail, r: Record, io: AppendIo, i: nat)
    requires StreamOk(t) && FilesOk(t) && t.w.nextLsn + 1 < LSN_RANGE
    requires i in After(t, Append(r, io)).w.files
    ensures FileOk(After(t, Append(r, io)), i)
  {
    hide WalSpec.Append, StreamDown, Attempts, Landed, Encode, EncodeAll;
    AppendEffect(t, r, io);
    var e := EntryFor(t.w, r, io);
    if Takes(t, e) && i == Target(t, e) {
      LandedSize(e.record, io.write);
      NoneEncoded();
      var had := if e.needed then [] else t.segs[i];
      EncodeAllAppend(had, e.record);
      assert had + [] == had;
      assert e.needed || FileOk(t, i);
    } else {
      assert FileOk(t, i);
    }
  }

  lemma NoneEncoded()
    ensures EncodeAll([]) == []
  {
  }

  lemma AppendFilesOk(t: Trail, r: Record, io: AppendIo)
    requires StreamOk(t) && FilesOk(t) && t.w.nextLsn + 1 < LSN_RANGE
    ensures FilesOk(After(t, Append(r, io)))
  {
    hide FileOk, After, StreamOk;
    forall i | i in After(t, Append(r, io)).w.files ensures FileOk(After(t, Append(r, io)), i) {
      AppendFileOk(t, r, io, i);
    }
  }

  lemma AppendEntriesOk(t: Trail, r: Record, io: AppendIo)
    requires StreamOk(t) && EntriesOk(t) && t.w.nextLsn + 1 < LSN_RANGE
    ensures EntriesOk(After(t, Append(r, io)))
  {
    hide WalSpec.Append, StreamOk, Landed, Encode;
    AppendEffect(t, r, io);
  }

  lemma AppendHomesOk(t: Trail, r: Record, io: AppendIo)
    requires StreamOk(t) && EntriesOk(t) && HomesOk(t) && t.w.nextLsn + 1 < LSN_RANGE
    ensures HomesOk(After(t, Append(r, io)))
  {
    hide WalSpec.Append, StreamDown, Attempts, Landed, Encode, Kept, Home, Short;
    var u, e := After(t, Append(r, io)), EntryFor(t.w, r, io);
    var n := |t.entries|;
    AppendEffect(t, r, io);
    AppendedEntry(t.entries, e);
    KeptNow(t, e);
    forall i, x | i in u.segs && x in u.segs[i] ensures At(u.entries, i, x) {
      if i in t.segs && x in t.segs[i] {
        assert At(t.entries, i, x);
        EarlierEntry(t.entries, e, x.lsn - 1);
      }
    }
    forall k | 0 <= k < |u.entries| && Kept(u.entries, k) ensures Holds(u, k) {
      if k < n {
        EarlierEntry(t.entries, e, k);
        assert Holds(t, k) && t.entries[k] == u.entries[k];
        StillHeld(t, e, Home(t.entries, k), t.entries[k].record);
      }
    }
  }

  lemma KeptNow(t: Trail, e: Entry)
    requires StreamOk(t)
    ensures var es := t.entries + [e];
            && (Kept(es, |t.entries|) <==> Takes(t, e) && !Short(e))
            && Home(es, |t.entries|) == Target(t, e)
  {
    hide StreamDown, Attempts, Short;
    AppendedEntry(t.entries, e);
  }

  lemma StillHeld(t: Trail, e: Entry, i: nat, r: Record)
    requires StreamOk(t) && r in RecordsIn(t.segs, i)
    ensures r in RecordsIn(SegsAfter(t, e), i)
  {
    hide StreamDown, Attempts, Short;
  }

  lemma AppendTruncsOk(t: Trail, r: Record, io: AppendIo)
    requires StreamOk(t) && TruncsOk(t) && t.w.nextLsn + 1 < LSN_RANGE
    ensures TruncsOk(After(t, Append(r, io)))
  {
    hide WalSpec.Append, StreamDown, Landed, Encode, Attempts, Spares;
    var u, e := After(t, Append(r, io)), EntryFor(t.w, r, io);
    AppendEffect(t, r, io);
    forall i | i in u.segs ensures i in u.w.files <==> forall c <- u.truncs :: Spares(c, u.entries, i) {
      forall c <- t.truncs ensures Spares(c, u.entries, i) == Spares(c, t.entries, i) {
        EarlierSpares(c, t.entries, e, i);
      }
      if i !in t.segs {
        forall c <- t.truncs ensures Spares(c, t.entries, i) {
          NewSegmentSpared(t, c, i);
        }
      }
    }
  }

  lemma NewSegmentSpared(t: Trail, c: Truncation, i: nat)
    requires StreamOk(t) && c.at <= |t.entries| && t.w.current <= i
    ensures Spares(c, t.entries, i)
  {
    hide StreamDown, Attempts;
    AttemptsGrow(t.entries, c.at, |t.entries|);
    assert t.entries[..|t.entries|] == t.entries;
  }

  lemma AppendSafeAt(t: Trail, r: Record, io: AppendIo, i: nat)
    requires StreamOk(t) && FilesOk(t) && EntriesOk(t) && SafeOk(t) && t.w.nextLsn + 1 < LSN_RANGE
    requires i in After(t, Append(r, io)).w.files
    ensures SafeAt(After(t, Append(r, io)), i)
  {
    hide WalSpec.Append, StreamDown, Attempts, Landed, Encode, EncodeAll;
    var u, e := After(t, Append(r, io)), EntryFor(t.w, r, io);
    AppendEffect(t, r, io);
    if Takes(t, e) && i == Target(t, e) {
      if !e.needed {
        assert SafeAt(t, i);
        EndsStay(t.segs[i], u.segs[i]);
      }
    } else {
      assert SafeAt(t, i) && FileOk(t, i);
    }
  }

  lemma EndsStay(rs: seq<Record>, more: seq<Record>)
    requires rs <= more
    ensures forall j | 0 <= j < |rs| :: EndOf(more, j) == EndOf(rs, j)
  {
    hide EncodeAll;
    forall j | 0 <= j < |rs| ensures EndOf(more, j) == EndOf(rs, j) {
      assert more[..j + 1] == rs[..j + 1];
    }
  }

  lemma AppendSafeOk(t: Trail, r: Record, io: AppendIo)
    requires StreamOk(t) && FilesOk(t) && EntriesOk(t) && SafeOk(t) && t.w.nextLsn + 1 < LSN_RANGE
    ensures SafeOk(After(t, Append(r, io)))
  {
    hide SafeAt, WalSpec.Append, StreamOk, FilesOk, EntriesOk;
    AppendEffect(t, r, io);
    forall i | i in After(t, Append(r, io)).w.files ensures SafeAt(After(t, Append(r, io)), i) {
      AppendSafeAt(t, r, io, i);
    }
  }

  lemma AppendSizeOk(t: Trail, r: Record, io: AppendIo)
    requires StreamOk(t) && FilesOk(t) && SizeOk(t) && t.w.nextLsn + 1 < LSN_RANGE
    ensures SizeOk(After(t, Append(r, io)))
  {
    hide WalSpec.Append, StreamDown, Attempts, Landed, Encode, EncodeAll, LostBytes;
    var u, e := After(t, Append(r, io)), EntryFor(t.w, r, io);
    var c := t.w.current;
    AppendEffect(t, r, io);
    AppendedEntry(t.entries, e);
    LandedSize(e.record, io.write);
    if e.needed {
      NoFileAbove(t);
      BytesBelowSame(t.w.files, u.w.files, c + 1);
    } else if t.w.isOpen {
      BytesBelowSame(t.w.files, u.w.files, c);
    }
  }

  lemma NoFileAbove(t: Trail)
    requires StreamOk(t) && FilesOk(t)
    ensures t.w.current + 1 !in t.w.files
  {
    hide StreamDown, Attempts, EncodeAll;
  }

  // Truncation and force

  lemma TruncateTruncsOk(t: Trail, removed: nat -> bool)
    requires StreamOk(t) && TruncsOk(t)
    ensures TruncsOk(After(t, Truncate(removed)))
  {
    hide StreamDown, Attempts, BytesBelow;
    var u, c := After(t, Truncate(removed)), Truncation(|t.entries|, removed);
    assert t.entries[..|t.entries|] == t.entries;
    forall i | i in u.segs ensures i in u.w.files <==> forall d <- u.truncs :: Spares(d, u.entries, i) {
      assert Spares(c, t.entries, i) <==> i >= Bound(t.w) || !removed(i);
      assert forall d :: d in u.truncs <==> d in t.truncs || d == c;
    }
  }

  lemma TruncateRestOk(t: Trail, removed: nat -> bool)
    requires StreamOk(t) && FilesOk(t) && SafeOk(t)
    ensures StreamOk(After(t, Truncate(removed))) && FilesOk(After(t, Truncate(removed)))
    ensures SafeOk(After(t, Truncate(removed)))
  {
    hide StreamDown, Attempts, EncodeAll, BytesBelow;
    var u := After(t, Truncate(removed));
    forall i | i in u.w.files ensures FileOk(u, i) && SafeAt(u, i) {
      assert FileOk(t, i) && SafeAt(t, i);
    }
  }

  lemma TruncateSizeOk(t: Trail, removed: nat -> bool)
    requires SizeOk(t)
    ensures SizeOk(After(t, Truncate(removed)))
  {
    hide LostBytes;
    var u, b := After(t, Truncate(removed)), Bound(t.w);
    BytesShared(t.w.files, u.w.files, b, t.w.current + 1);
  }

  lemma {:induction false} BytesShared(f: map<nat, seq<Octet>>, g: map<nat, seq<Octet>>, b: nat, n: nat)
    requires b <= n
    requires forall i | b <= i < n :: (i in f <==> i in g) && (i in f ==> f[i] == g[i])
    ensures BytesBelow(f, n) - BytesBelow(f, b) == BytesBelow(g, n) - BytesBelow(g, b)
  {
    if n > b {
      BytesShared(f, g, b, n - 1);
    }
  }

  lemma TruncateHomesOk(t: Trail, removed: nat -> bool)
    requires EntriesOk(t) && HomesOk(t)
    ensures EntriesOk(After(t, Truncate(removed))) && HomesOk(After(t, Truncate(removed)))
  {
    hide BytesBelow, At, Kept, Home;
    forall k | 0 <= k < |t.entries| && Kept(t.entries, k) ensures Holds(After(t, Truncate(removed)), k) {
      assert Holds(t, k);
    }
  }

  lemma ForceOk(t: Trail, lsn: U64)
    requires TrailOk(t) && lsn < t.w.nextLsn
    ensures TrailOk(After(t, Force(lsn)))
  {
    hide StreamDown, Attempts, EncodeAll, LostBytes, BytesBelow, At, Kept, Home, Spares;
    var u := After(t, Force(lsn));
    forall i | i in u.w.files ensures FileOk(u, i) && SafeAt(u, i) {
      assert FileOk(t, i) && SafeAt(t, i);
      if i == u.w.current && u.w.isOpen {
        WholeIsLongest(t.segs[i]);
      }
    }
    forall k | 0 <= k < |t.entries| && Kept(t.entries, k) ensures Holds(u, k) {
      assert Holds(t, k);
    }
  }

  lemma WholeIsLongest(rs: seq<Record>)
    ensures forall j | 0 <= j < |rs| :: EndOf(rs, j) <= |EncodeAll(rs)|
  {
    hide EncodeAll;
    forall j | 0 <= j < |rs| ensures EndOf(rs, j) <= |EncodeAll(rs)| {
      assert rs[..j + 1] + rs[j + 1..] == rs;
      EncodeAllConcat(rs[..j + 1], rs[j + 1..]);
    }
  }

  lemma AppendOk(t: Trail, r: Record, io: AppendIo)
    requires TrailOk(t) && CanAct(t, Append(r, io))
    ensures TrailOk(After(t, Append(r, io)))
  {
    hide StreamOk, FilesOk, EntriesOk, HomesOk, TruncsOk, SafeOk, SizeOk, After;
    AppendStreamOk(t, r, io);
    AppendFilesOk(t, r, io);
    AppendEntriesOk(t, r, io);
    AppendHomesOk(t, r, io);
    AppendTruncsOk(t, r, io);
    AppendSafeOk(t, r, io);
    AppendSizeOk(t, r, io);
  }

  /** Every step keeps the invariant, whatever fails in it. */
  lemma ActionOk(t: Trail, a: Action)
    requires TrailOk(t) && CanAct(t, a)
    ensures TrailOk(After(t, a))
  {
    hide StreamOk, FilesOk, EntriesOk, HomesOk, TruncsOk, SafeOk, SizeOk, After;
    match a {
      case Append(r, io) => AppendOk(t, r, io);
      case Force(lsn) => ForceOk(t, lsn);
      case Truncate(removed) =>
        TruncateRestOk(t, removed);
        TruncateHomesOk(t, removed);
        TruncateTruncsOk(t, removed);
        TruncateSizeOk(t, removed);
    }
  }

  // Runs

  ghost predicate LeadsTo(t: Trail, acts: seq<Action>, u: Trail)
    decreases |acts|
  {
    if acts == [] then u == t else CanAct(t, acts[0]) && LeadsTo(After(t, acts[0]), acts[1..], u)
  }

  lemma BeginningOk(segmentSize: nat)
    ensures TrailOk(Beginning(segmentSize))
  {
    var t := Beginning(segmentSize);
    assert BytesBelow(t.w.files, 1) == BytesBelow(t.w.files, 0) + 0;
  }

  lemma {:induction false} RunOk(t: Trail, acts: seq<Action>, u: Trail)
    requires TrailOk(t) && LeadsTo(t, acts, u)
    ensures TrailOk(u)
    decreases |acts|
  {
    hide TrailOk, CanAct, After;
    if acts != [] {
      ActionOk(t, acts[0]);
      RunOk(After(t, acts[0]), acts[1..], u);
    }
  }

  ghost predicate Reachable(segmentSize: nat, acts: seq<Action>, t: Trail) {
    LeadsTo(Beginning(segmentSize), acts, t)
  }

  lemma ReachableOk(segmentSize: nat, acts: seq<Action>, t: Trail)
    requires Reachable(segmentSize, acts, t)
    ensures TrailOk(t)
  {
    hide TrailOk, Beginning, LeadsTo;
    BeginningOk(segmentSize);
    RunOk(Beginning(segmentSize), acts, t);
  }
}
