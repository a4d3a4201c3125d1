/** Which records of the write-ahead log are lost, kept and safe after runs in which I/O fails. */
module WalLosses {
  import opened Wrappers
  import opened WalCodec
  import opened WalSpec
  import opened WalFailures

  // Which records are lost

  /** Append `j` was refused or had its write cut, and no rotation was attempted since. */
  ghost predicate FailedAt(es: seq<Entry>, j: nat) {
    && j < |es| && (es[j].returned == INVALID_LSN || es[j].io.write.Cut?)
    && forall l | j < l < |es| :: !es[l].needed
  }

  ghost predicate AfterFailure(es: seq<Entry>) {
    exists j :: FailedAt(es, j)
  }

  lemma FailedBefore(es: seq<Entry>, n: nat, j: nat)
    requires n + 1 == |es| && j < n
    ensures FailedAt(es, j) <==> FailedAt(es[..n], j) && !es[n].needed
  {
    assert es[..n][j] == es[j];
    if FailedAt(es[..n], j) && !es[n].needed {
      assert forall l | j < l < n :: es[l] == es[..n][l];
    }
  }

  lemma {:induction false} FailureSeen(es: seq<Entry>)
    requires forall k | 0 <= k < |es| :: es[k].returned == INVALID_LSN <==> Refused(es[k])
    ensures StreamDown(es) <==> AfterFailure(es)
    decreases |es|
  {
    hide FailedAt;
    if es == [] {
      NoneFailed();
    } else {
      var n := |es| - 1;
      FailureSeen(es[..n]);
      LastFailed(es, n);
      forall j: nat ensures j < n ==> (FailedAt(es, j) <==> FailedAt(es[..n], j) && !es[n].needed) {
        if j < n { FailedBefore(es, n, j); }
      }
      FailedInRange(es);
      FailedInRange(es[..n]);
    }
  }

  lemma NoneFailed()
    ensures forall j :: !FailedAt([], j)
  {
  }

  lemma FailedInRange(es: seq<Entry>)
    ensures forall j: nat | FailedAt(es, j) :: j < |es|
  {
  }

  lemma LastFailed(es: seq<Entry>, n: nat)
    requires n + 1 == |es|
    ensures FailedAt(es, n) <==> es[n].returned == INVALID_LSN || es[n].io.write.Cut?
  {
  }

  /** Record `r` is in no segment file ever created. */
  ghost predicate Nowhere(t: Trail, r: Record) {
    forall i | i in t.segs :: r !in t.segs[i]
  }

  lemma KeptIffSomewhere(t: Trail, k: nat)
    requires EntriesOk(t) && HomesOk(t) && k < |t.entries|
    ensures Nowhere(t, t.entries[k].record) <==> !Kept(t.entries, k)
  {
    hide Kept, Home;
    var r := t.entries[k].record;
    if Kept(t.entries, k) {
      assert Holds(t, k);
    }
    if i :| i in t.segs && r in t.segs[i] {
      assert At(t.entries, i, r);
    }
  }

  /** After any run from an empty directory, whatever rotations, writes and removals failed: an
      append returned an LSN while its record is in no file ever created, if and only if its own
      write was cut short, or it needed no rotation and came after an append that was refused or
      cut, with no rotation attempted between. The size counter is off by exactly the bytes
      lost and the bytes of files that could not be removed. */
  lemma SilentLoss(segmentSize: nat, acts: seq<Action>, t: Trail, k: nat)
    requires Reachable(segmentSize, acts, t) && k < |t.entries|
    ensures var e := t.entries[k];
            && e.record.lsn == k + 1
            && (e.returned != INVALID_LSN ==> e.returned == e.record.lsn)
            && (e.returned != INVALID_LSN && Nowhere(t, e.record) <==>
                !Refused(e) && (Short(e) || (!e.needed && AfterFailure(t.entries[..k]))))
    ensures FilesOk(t)
    ensures t.w.size == BytesBelow(t.w.files, t.w.current + 1) + LostBytes(t.entries) - t.stuck
  {
    hide Reachable, StreamDown, AfterFailure, Nowhere, LostBytes, HomesOk, TruncsOk, SafeOk, Short;
    ReachableOk(segmentSize, acts, t);
    KeptIffSomewhere(t, k);
    assert forall j | 0 <= j < k :: t.entries[..k][j] == t.entries[j];
    FailureSeen(t.entries[..k]);
  }

  // Which records a truncation leaves

  /** The record of append number `k` is in a file that is still there. */
  ghost predicate Live(t: Trail, k: nat)
    requires k < |t.entries|
  {
    Home(t.entries, k) in t.w.files && Holds(t, k)
  }

  lemma LiveExact(t: Trail, k: nat)
    requires TrailOk(t) && k < |t.entries|
    ensures Live(t, k) <==>
            Kept(t.entries, k) && forall c <- t.truncs :: Spares(c, t.entries, Home(t.entries, k))
  {
    hide Kept, Home, Spares, SafeOk, StreamOk, SizeOk, EncodeAll;
    var i, r := Home(t.entries, k), t.entries[k].record;
    if Holds(t, k) {
      assert At(t.entries, i, r);
    }
    if i in t.w.files {
      assert FileOk(t, i);
    }
  }

  /** After any run, whatever failed in it: a record is in a file that is still there, if and only
      if it was kept and, at every truncation since its append, at most one rotation had been
      attempted since it, or its file could not be removed. Failed rotations count. */
  lemma Retention(segmentSize: nat, acts: seq<Action>, t: Trail, k: nat)
    requires Reachable(segmentSize, acts, t) && k < |t.entries|
    ensures var es, i := t.entries, Home(t.entries, k);
            Live(t, k) <==>
            && Kept(es, k)
            && forall c <- t.truncs :: c.at <= |es| && (c.at <= k || Attempts(es[..c.at]) <= i + 1 || !c.removed(i))
  {
    hide Reachable, StreamDown, Attempts, Live, Kept;
    ReachableOk(segmentSize, acts, t);
    LiveExact(t, k);
    var es, i := t.entries, Home(t.entries, k);
    forall c <- t.truncs
      ensures Spares(c, es, i) <==> c.at <= |es| && (c.at <= k || Attempts(es[..c.at]) <= i + 1 || !c.removed(i))
    {
      if c.at <= k {
        AttemptsGrow(es, c.at, k + 1);
      }
    }
  }

  // Which records are safe

  /** After any run in which only LSNs below the next one are forced, whatever failed in it: a kept
      record up to the flushed LSN is truncated, or in a segment whose stream failed, or safe: the
      part of its file that a flush has made safe starts with the records up to it. */
  lemma DurableKept(segmentSize: nat, acts: seq<Action>, t: Trail, k: nat)
    requires Reachable(segmentSize, acts, t) && k < |t.entries| && Live(t, k)
    requires t.entries[k].record.lsn <= t.w.flushedLsn
    ensures var i, r := Home(t.entries, k), t.entries[k].record;
            && i in t.segs && i in t.w.safe && t.w.safe[i] <= |t.w.files[i]|
            && (i !in t.broken ==>
                  exists j | 0 <= j < |t.segs[i]| ::
                    t.segs[i][j] == r && EncodeAll(t.segs[i][..j + 1]) <= t.w.files[i][..t.w.safe[i]])
  {
    hide Reachable, StreamDown, Attempts, StreamOk, EntriesOk, HomesOk, TruncsOk, SizeOk, EncodeAll, Home;
    ReachableOk(segmentSize, acts, t);
    var i, r := Home(t.entries, k), t.entries[k].record;
    assert FileOk(t, i) && SafeAt(t, i);
    if i !in t.broken {
      var rs := t.segs[i];
      var j :| 0 <= j < |rs| && rs[j] == r;
      WholeIsLongest(rs);
      assert EndOf(rs, j) <= t.w.safe[i];
      PrefixEncoded(rs, j);
      assert rs[j] == r && EncodeAll(rs[..j + 1]) <= t.w.files[i][..t.w.safe[i]];
    }
  }

  lemma PrefixEncoded(rs: seq<Record>, j: nat)
    requires j < |rs|
    ensures EncodeAll(rs[..j + 1]) <= EncodeAll(rs)
  {
    hide EncodeAll;
    assert rs[..j + 1] + rs[j + 1..] == rs;
    EncodeAllConcat(rs[..j + 1], rs[j + 1..]);
  }

  /** Reading the file of append number `k` somewhere gives its record. */
  ghost predicate Readable(t: Trail, k: nat)
    requires k < |t.entries|
  {
    var i := Home(t.entries, k);
    i in t.w.files && exists at | 0 <= at <= |t.w.files[i]| :: Decode(t.w.files[i][at..]) == Some(t.entries[k].record)
  }

  /** A record of a stream is decoded where the encodings of those before it end, whatever follows. */
  lemma DecodedInside(rs: seq<Record>, j: nat, tail: seq<Octet>) returns (at: nat)
    requires j < |rs| && |rs[j].data| < U32_RANGE
    ensures at <= |EncodeAll(rs) + tail| && Decode((EncodeAll(rs) + tail)[at..]) == Some(rs[j])
  {
    hide Encode, EncodeOnto, Decode, EncodeAll;
    var a, b := rs[..j + 1], rs[j + 1..];
    at := |EncodeAll(rs[..j])|;
    assert rs == a + b && a == rs[..j] + [rs[j]];
    EncodeAllConcat(a, b);
    EncodeAllAppend(rs[..j], rs[j]);
    var rest := EncodeAll(b) + tail;
    assert (EncodeAll(rs) + tail)[at..] == Encode(rs[j]) + rest;
    EncodeOntoIsConcat(rs[j], rest);
    DecodeFront(rs[j], rest);
  }

  /** What is live can be read. */
  lemma LiveIsReadable(t: Trail, k: nat)
    requires TrailOk(t) && k < |t.entries| && Live(t, k) && |t.entries[k].record.data| < U32_RANGE
    ensures Readable(t, k)
  {
    hide Home, StreamOk, SafeOk, SizeOk, HomesOk, EntriesOk, EncodeAll, Decode;
    var i, r := Home(t.entries, k), t.entries[k].record;
    assert FileOk(t, i);
    var rs, file := t.segs[i], t.w.files[i];
    var j :| 0 <= j < |rs| && rs[j] == r;
    var tail := file[|EncodeAll(rs)|..];
    assert file == EncodeAll(rs) + tail;
    var at := DecodedInside(rs, j, tail);
  }

  // Each of these losses happens.

  function Sized(n: nat): Record {
    Record(1, 0, 0, 0, 0, 0, 0, seq(n, _ => 0))
  }

  lemma {:induction false} OneStep(t: Trail, a: Action, acts: seq<Action>, u: Trail)
    requires CanAct(t, a) && LeadsTo(After(t, a), acts, u)
    ensures LeadsTo(t, [a] + acts, u)
  {
    hide CanAct, After;
    assert ([a] + acts)[0] == a && ([a] + acts)[1..] == acts;
  }

  /** The counters after an append. */
  lemma AppendFacts(t: Trail, r: Record, io: AppendIo)
    requires t.w.nextLsn + 1 < LSN_RANGE
    ensures var u, e := After(t, Append(r, io)), EntryFor(t.w, r, io);
            && u.entries == t.entries + [e] && u.truncs == t.truncs && u.segs == SegsAfter(t, e)
            && e.record == Stamp(t.w, r) && e.io == io && SizeOf(e.record) == SizeOf(r)
            && e.needed == (t.w.pos + SizeOf(r) > t.w.segmentSize)
            && u.w.segmentSize == t.w.segmentSize && u.w.nextLsn == t.w.nextLsn + 1
            && u.w.pos == (if Refused(e) then 0 else if e.needed then SizeOf(r) else t.w.pos + SizeOf(r))
  {
    hide Encode, Landed, SegsAfter;
    EncodeOntoIsConcat(Stamp(t.w, r), []);
  }

  lemma LandedNothing(r: Record)
    ensures Landed(Encode(r), Cut(0)) == []
  {
    hide Encode;
    LandedSize(r, Cut(0));
  }

  lemma ReachedIn(s: Trail, a: Action, u: Trail, b: Action, t: Trail)
    requires CanAct(s, a) && u == After(s, a) && CanAct(u, b) && t == After(u, b)
    ensures LeadsTo(s, [a, b], t)
  {
    hide CanAct, After;
    assert LeadsTo(t, [], t);
    OneStep(u, b, [], t);
    OneStep(s, a, [b], t);
    assert [b] + [] == [b] && [a] + [b] == [a, b];
  }

  lemma ReachedThen(s: Trail, a: Action, u: Trail, acts: seq<Action>, t: Trail)
    requires CanAct(s, a) && u == After(s, a) && LeadsTo(u, acts, t)
    ensures LeadsTo(s, [a] + acts, t)
  {
    hide CanAct, After, LeadsTo;
    OneStep(s, a, acts, t);
  }

  /** The rotation for the first of two appends fails; the second gets an LSN and is lost. */
  lemma RefusedThenLost() returns (t: Trail)
    ensures Reachable(HEADER_SIZE, [Append(Sized(1), AppendIo(false, Whole)), Append(Sized(0), CLEAN)], t)
    ensures |t.entries| == 2 && t.entries[0].returned == INVALID_LSN && t.entries[1].returned == 2
    ensures Nowhere(t, t.entries[1].record) && t.w.files == map[0 := []] && t.w.size == HEADER_SIZE
  {
    hide Encode, After, LeadsTo, WalSpec.Append, Landed, TrailOk, StreamOk;
    var a, b := Append(Sized(1), AppendIo(false, Whole)), Append(Sized(0), CLEAN);
    var s := Beginning(HEADER_SIZE);
    BeginningOk(HEADER_SIZE);
    TrailStream(s);
    AppendEffect(s, a.r, a.io);
    AppendFacts(s, a.r, a.io);
    var u := After(s, a);
    ActionOk(s, a);
    TrailStream(u);
    AppendEffect(u, b.r, b.io);
    AppendFacts(u, b.r, b.io);
    t := After(u, b);
    LandedSize(Stamp(u.w, b.r), Whole);
    ReachedIn(s, a, u, b, t);
  }

  /** The write of the first of two appends fails on an open segment; both get LSNs and are lost. */
  lemma CutThenLost() returns (t: Trail)
    ensures Reachable(2 * HEADER_SIZE, [Append(Sized(0), AppendIo(true, Cut(0))), Append(Sized(0), CLEAN)], t)
    ensures |t.entries| == 2 && t.entries[0].returned == 1 && t.entries[1].returned == 2
    ensures Nowhere(t, t.entries[0].record) && Nowhere(t, t.entries[1].record) && t.w.files == map[0 := []]
  {
    hide Encode, After, LeadsTo, WalSpec.Append, Landed, TrailOk, StreamOk;
    var a, b := Append(Sized(0), AppendIo(true, Cut(0))), Append(Sized(0), CLEAN);
    var s := Beginning(2 * HEADER_SIZE);
    BeginningOk(2 * HEADER_SIZE);
    TrailStream(s);
    AppendEffect(s, a.r, a.io);
    AppendFacts(s, a.r, a.io);
    LandedNothing(Stamp(s.w, a.r));
    var u := After(s, a);
    ActionOk(s, a);
    TrailStream(u);
    AppendEffect(u, b.r, b.io);
    AppendFacts(u, b.r, b.io);
    t := After(u, b);
    ReachedIn(s, a, u, b, t);
  }

  /** Two refused rotations, and a truncation removes the only record there is. */
  lemma RefusalsTruncate() returns (t: Trail)
    ensures var refused := Append(Sized(1), AppendIo(false, Whole));
            Reachable(HEADER_SIZE, [Append(Sized(0), CLEAN), refused, refused, Truncate(AllRemoved())], t)
    ensures |t.entries| == 3 && t.entries[0].returned == 1 && Kept(t.entries, 0) && t.w.files == map[]
  {
    hide Encode, After, LeadsTo, WalSpec.Append, Landed, Kept, TrailOk, StreamOk;
    var a, b, c := Append(Sized(0), CLEAN), Append(Sized(1), AppendIo(false, Whole)), Truncate(AllRemoved());
    var s := Beginning(HEADER_SIZE);
    BeginningOk(HEADER_SIZE);
    TrailStream(s);
    AppendEffect(s, a.r, a.io);
    AppendFacts(s, a.r, a.io);
    var u1 := After(s, a);
    var u2 := RefusedAgain(u1, s, a);
    var u3 := RefusedAgain(u2, u1, b);
    t := After(u3, c);
    TruncatesAll(u3, c.removed);
    ReachedIn(u2, b, u3, c, t);
    assert [b] + [b, c] == [b, b, c] && [a] + [b, b, c] == [a, b, b, c];
    ReachedThen(u1, b, u2, [b, c], t);
    ReachedThen(s, a, u1, [b, b, c], t);
    FirstKept(t.entries);
  }

  lemma TrailStream(t: Trail)
    requires TrailOk(t)
    ensures StreamOk(t)
  {
  }

  lemma TruncatesAll(t: Trail, removed: nat -> bool)
    requires t.w.files.Keys <= {0} && t.w.current == 2 && removed(0)
    ensures After(t, Truncate(removed)).w.files == map[] && After(t, Truncate(removed)).entries == t.entries
    ensures CanAct(t, Truncate(removed))
  {
    hide BytesBelow;
  }

  /** A record that is too long for a segment, and whose rotation fails. */
  lemma RefusedAgain(t: Trail, s: Trail, a: Action) returns (u: Trail)
    requires TrailOk(s) && CanAct(s, a) && t == After(s, a)
    requires t.w.segmentSize == HEADER_SIZE && t.w.nextLsn + 1 < LSN_RANGE
    ensures TrailOk(t) && CanAct(t, Append(Sized(1), AppendIo(false, Whole)))
    ensures u == After(t, Append(Sized(1), AppendIo(false, Whole)))
    ensures u.w.segmentSize == HEADER_SIZE && u.w.nextLsn == t.w.nextLsn + 1
    ensures u.w.files == t.w.files && u.w.current == t.w.current + 1
    ensures |u.entries| == |t.entries| + 1 && t.entries <= u.entries
  {
    hide Encode, After, WalSpec.Append, Landed, TrailOk, StreamOk;
    ActionOk(s, a);
    TrailStream(t);
    var r, io := Sized(1), AppendIo(false, Whole);
    AppendEffect(t, r, io);
    AppendFacts(t, r, io);
    u := After(t, Append(r, io));
  }

  /** A record is kept, the next write is cut, and a force of the first LSN makes nothing safe. */
  lemma ForcedNotSafe() returns (t: Trail)
    ensures Reachable(2 * HEADER_SIZE,
                      [Append(Sized(0), CLEAN), Append(Sized(0), AppendIo(true, Cut(0))), Force(1)], t)
    ensures |t.entries| == 2 && t.w.flushedLsn == 1 == t.entries[0].returned
    ensures Live(t, 0) && Home(t.entries, 0) == 0 && 0 in t.w.safe && t.w.safe[0] == 0
  {
    hide Encode, After, LeadsTo, WalSpec.Append, Landed, Kept, Home, Live, TrailOk, StreamOk, Spares;
    var a, b, c := Append(Sized(0), CLEAN), Append(Sized(0), AppendIo(true, Cut(0))), Force(1);
    var s := Beginning(2 * HEADER_SIZE);
    BeginningOk(2 * HEADER_SIZE);
    TrailStream(s);
    AppendEffect(s, a.r, a.io);
    AppendFacts(s, a.r, a.io);
    var u1 := After(s, a);
    ActionOk(s, a);
    TrailStream(u1);
    AppendEffect(u1, b.r, b.io);
    AppendFacts(u1, b.r, b.io);
    var u2 := After(u1, b);
    t := After(u2, c);
    ForcedDown(u2, c.lsn);
    ReachedIn(u1, b, u2, c, t);
    ReachedThen(s, a, u1, [b, c], t);
    assert [a] + [b, c] == [a, b, c];
    FirstKept(t.entries);
    ReachableOk(2 * HEADER_SIZE, [a, b, c], t);
    LiveExact(t, 0);
  }

  lemma ForcedDown(t: Trail, lsn: U64)
    requires !t.w.isOpen && lsn < t.w.nextLsn
    ensures var u := After(t, Force(lsn));
            && u.w.safe == t.w.safe && u.w.flushedLsn == lsn && u.entries == t.entries && u.truncs == t.truncs
            && CanAct(t, Force(lsn))
  {
  }

  lemma FirstKept(es: seq<Entry>)
    requires |es| > 0 && !es[0].needed && es[0].io.write.Whole?
    ensures Kept(es, 0) && Home(es, 0) == 0
  {
    var first := [es[0]];
    assert es[..0] == [] && es[..0 + 1] == first && first[..0] == [];
    assert Attempts(first) == Attempts([]);
  }
}
