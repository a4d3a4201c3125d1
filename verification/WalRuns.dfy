/**
 Whole runs of the write-ahead log, from an empty directory and with every rotation
 succeeding. Beside the files we keep what was appended: the records of each closed
 segment and of the current one, and the oldest segment that is still there.
 */
module WalRuns {
  import opened WalCodec
  import opened WalSpec

  datatype Log = Log(w: Wal, closed: seq<seq<Record>>, last: seq<Record>, lo: nat)

  datatype Op = DoAppend(r: Record) | DoForce(lsn: U64) | DoTruncate

  function Flatten(segs: seq<seq<Record>>): seq<Record> {
    if segs == [] then [] else Flatten(segs[..|segs| - 1]) + segs[|segs| - 1]
  }

  /** Everything ever appended, in order. */
  function History(l: Log): seq<Record> {
    Flatten(l.closed) + l.last
  }

  function Segments(l: Log): seq<seq<Record>> {
    l.closed + [l.last]
  }

  ghost predicate Allowed(l: Log, op: Op) {
    match op
    case DoAppend(r) => l.w.nextLsn + 1 < LSN_RANGE
    case DoForce(lsn) => lsn < l.w.nextLsn
    case DoTruncate => true
  }

  function Step(l: Log, op: Op): Log {
    match op
    case DoAppend(r) =>
      var w := Append(l.w, r, CLEAN).0;
      var s := Stamp(l.w, r);
      if NeedsRotation(l.w, s) then Log(w, l.closed + [l.last], [s], l.lo) else Log(w, l.closed, l.last + [s], l.lo)
    case DoForce(lsn) => l.(w := Force(l.w, lsn))
    case DoTruncate =>
      l.(w := Truncate(l.w, AllRemoved()), lo := if l.lo + 1 < l.w.current then l.w.current - 1 else l.lo)
  }

  // The invariant

  /** Segment `i` is in its file. */
  ghost predicate FileGood(l: Log, i: nat)
    requires i <= |l.closed|
  {
    && i in l.w.files && i in l.w.safe
    && l.w.files[i] == EncodeAll(Segments(l)[i])
    && l.w.safe[i] <= |l.w.files[i]|
    && (i < |l.closed| ==> l.w.safe[i] == |l.w.files[i]|)
  }

  /** A segment overflows only if it holds a single record. */
  ghost predicate Fits(w: Wal, seg: seq<Record>) {
    |EncodeAll(seg)| <= w.segmentSize || |seg| == 1
  }

  ghost predicate LsnsGood(h: seq<Record>) {
    forall k | 0 <= k < |h| :: h[k].lsn == k + 1
  }

  /** The first `n` records of the current segment are safe. */
  ghost predicate SafeInCurrent(l: Log, n: nat) {
    && n <= |l.last| && l.w.current in l.w.safe
    && |EncodeAll(l.last[..n])| <= l.w.safe[l.w.current]
  }

  ghost predicate DurableGood(l: Log) {
    exists n | 0 <= n <= |l.last| :: SafeInCurrent(l, n) && l.w.flushedLsn <= |Flatten(l.closed)| + n
  }

  ghost predicate IdsGood(l: Log) {
    && l.w.current == |l.closed| && l.lo <= l.w.current && l.w.isOpen
    && (forall i :: i in l.w.files <==> l.lo <= i <= l.w.current)
    && (forall i :: i in l.w.safe <==> l.lo <= i <= l.w.current)
  }

  ghost predicate FilesGood(l: Log) {
    forall i | l.lo <= i <= |l.closed| :: FileGood(l, i)
  }

  ghost predicate SizesGood(l: Log) {
    && l.w.pos == |EncodeAll(l.last)|
    && (forall seg <- Segments(l) :: Fits(l.w, seg))
    && l.w.size == BytesBelow(l.w.files, l.w.current + 1)
  }

  ghost predicate HistoryGood(l: Log) {
    LsnsGood(History(l)) && l.w.nextLsn == |History(l)| + 1
  }

  ghost predicate Good(l: Log) {
    IdsGood(l) && FilesGood(l) && SizesGood(l) && HistoryGood(l) && DurableGood(l)
  }

  // Arithmetic of segments

  lemma {:induction false} FlattenAppend(segs: seq<seq<Record>>, seg: seq<Record>)
    ensures Flatten(segs + [seg]) == Flatten(segs) + seg
  {
    assert (segs + [seg])[..|segs|] == segs;
  }

  lemma {:induction false} FlattenConcat(a: seq<seq<Record>>, b: seq<seq<Record>>)
    ensures Flatten(a + b) == Flatten(a) + Flatten(b)
  {
    if b == [] {
      assert a + b == a;
    } else {
      FlattenConcat(a, b[..|b| - 1]);
      assert (a + b)[..|a + b| - 1] == a + b[..|b| - 1];
    }
  }

  lemma {:induction false} BytesBelowSame(f: map<nat, seq<Octet>>, g: map<nat, seq<Octet>>, n: nat)
    requires forall i | 0 <= i < n :: (i in f <==> i in g) && (i in f ==> f[i] == g[i])
    ensures BytesBelow(f, n) == BytesBelow(g, n)
  {
    if n > 0 {
      BytesBelowSame(f, g, n - 1);
    }
  }

  /** Dropping the files below `b` frees exactly their bytes. */
  lemma {:induction false} BytesSplit(f: map<nat, seq<Octet>>, g: map<nat, seq<Octet>>, b: nat, n: nat)
    requires b <= n
    requires forall i :: i in g <==> i in f && i >= b
    requires forall i | i in g :: g[i] == f[i]
    ensures BytesBelow(f, n) == BytesBelow(f, b) + BytesBelow(g, n)
  {
    if n == b {
      NoBytes(g, b);
    } else {
      BytesSplit(f, g, b, n - 1);
    }
  }

  lemma {:induction false} NoBytes(g: map<nat, seq<Octet>>, n: nat)
    requires forall i | 0 <= i < n :: i !in g
    ensures BytesBelow(g, n) == 0
  {
    if n > 0 {
      NoBytes(g, n - 1);
    }
  }

  // Each step keeps the invariant

  lemma FreshGood(segmentSize: nat)
    ensures Good(Log(Fresh(segmentSize), [], [], 0))
  {
    var l := Log(Fresh(segmentSize), [], [], 0);
    assert Segments(l) == [[]];
    assert BytesBelow(l.w.files, 1) == BytesBelow(l.w.files, 0) + 0;
    assert SafeInCurrent(l, 0);
  }

  lemma HistoryAfterAppend(l: Log, r: Record)
    ensures History(Step(l, DoAppend(r))) == History(l) + [Stamp(l.w, r)]
  {
    var s := Stamp(l.w, r);
    if NeedsRotation(l.w, s) {
      FlattenAppend(l.closed, l.last);
    } else {
      assert Flatten(l.closed) + (l.last + [s]) == Flatten(l.closed) + l.last + [s];
    }
  }

  lemma HistoryAfterAppendGood(l: Log, r: Record)
    requires Good(l) && Allowed(l, DoAppend(r))
    ensures HistoryGood(Step(l, DoAppend(r)))
  {
    hide Encode, EncodeAll, Flatten, FileGood, Fits;
    HistoryAfterAppend(l, r);
  }

  // An append into the current segment

  lemma FilesAfterWrite(l: Log, m: Log, s: Record)
    requires Good(l) && m.closed == l.closed && m.last == l.last + [s] && m.lo == l.lo
    requires m.w.safe == l.w.safe && m.w.files == l.w.files[l.w.current := l.w.files[l.w.current] + Encode(s)]
    ensures FilesGood(m)
  {
    EncodeAllAppend(l.last, s);
    forall i | m.lo <= i <= |m.closed| ensures FileGood(m, i) {
      assert FileGood(l, i);
      assert Segments(l)[i] == if i < |l.closed| then l.closed[i] else l.last;
      assert Segments(m)[i] == if i < |l.closed| then l.closed[i] else m.last;
    }
  }

  lemma SizesAfterWrite(l: Log, m: Log, s: Record)
    requires Good(l) && m.closed == l.closed && m.last == l.last + [s]
    requires m.w.current == l.w.current && m.w.segmentSize == l.w.segmentSize
    requires m.w.files == l.w.files[l.w.current := l.w.files[l.w.current] + Encode(s)]
    requires m.w.pos == l.w.pos + |Encode(s)| && m.w.size == l.w.size + |Encode(s)|
    requires m.w.pos <= m.w.segmentSize
    ensures SizesGood(m)
  {
    EncodeAllAppend(l.last, s);
    assert |EncodeAll(m.last)| == m.w.pos;
    forall seg <- Segments(m) ensures Fits(m.w, seg) {
      if seg != m.last {
        assert seg in l.closed && seg in Segments(l);
      }
    }
    BytesBelowSame(l.w.files, m.w.files, l.w.current);
  }

  lemma DurableAfterWrite(l: Log, m: Log, s: Record)
    requires Good(l) && m.closed == l.closed && m.last == l.last + [s]
    requires m.w.safe == l.w.safe && m.w.current == l.w.current && m.w.flushedLsn == l.w.flushedLsn
    ensures DurableGood(m)
  {
    var n :| 0 <= n <= |l.last| && SafeInCurrent(l, n) && l.w.flushedLsn <= |Flatten(l.closed)| + n;
    assert m.last[..n] == l.last[..n];
    assert SafeInCurrent(m, n);
  }

  lemma AppendInPlace(l: Log, r: Record)
    requires Good(l) && Allowed(l, DoAppend(r)) && !NeedsRotation(l.w, Stamp(l.w, r))
    ensures Good(Step(l, DoAppend(r)))
  {
    var m, s := Step(l, DoAppend(r)), Stamp(l.w, r);
    EncodeOntoIsConcat(s, []);
    HistoryAfterAppendGood(l, r);
    FilesAfterWrite(l, m, s);
    SizesAfterWrite(l, m, s);
    DurableAfterWrite(l, m, s);
  }

  // A rotation

  /** The log after a rotation that succeeds, before anything is written. */
  function Rotated(l: Log): Log {
    Log(Rotate(l.w, true), l.closed + [l.last], [], l.lo)
  }

  lemma FileAfterRotation(l: Log, i: nat)
    requires IdsGood(l) && FilesGood(l) && l.lo <= i <= l.w.current + 1
    ensures FileGood(Rotated(l), i)
  {
    var m := Rotated(l);
    if i <= l.w.current {
      assert FileGood(l, i);
      assert Segments(m)[i] == Segments(l)[i];
    } else {
      assert Segments(m)[i] == [];
    }
  }

  lemma SizesAfterRotation(l: Log)
    requires IdsGood(l) && SizesGood(l)
    ensures SizesGood(Rotated(l))
  {
    var m := Rotated(l);
    forall seg <- Segments(m) ensures Fits(m.w, seg) {
      if seg != [] { assert seg in Segments(l); }
    }
    BytesBelowSame(l.w.files, m.w.files, l.w.current + 1);
  }

  lemma RotationGood(l: Log)
    requires Good(l)
    ensures Good(Rotated(l))
  {
    hide FileGood, SizesGood, Flatten;
    var m := Rotated(l);
    FlattenAppend(l.closed, l.last);
    assert History(m) == History(l);
    forall i | m.lo <= i <= |m.closed| ensures FileGood(m, i) {
      FileAfterRotation(l, i);
    }
    SizesAfterRotation(l);
    assert SafeInCurrent(m, 0);
  }

  /** A record that starts a new segment. */
  lemma WriteIntoEmpty(l: Log, m: Log, s: Record)
    requires Good(l) && l.last == [] && m.closed == l.closed && m.last == [s]
    requires m.w.current == l.w.current && m.w.segmentSize == l.w.segmentSize
    requires m.w.files == l.w.files[l.w.current := l.w.files[l.w.current] + Encode(s)]
    requires m.w.pos == l.w.pos + |Encode(s)| && m.w.size == l.w.size + |Encode(s)|
    ensures SizesGood(m)
  {
    EncodeAllAppend([], s);
    assert [] + [s] == [s];
    forall seg <- Segments(m) ensures Fits(m.w, seg) {
      if seg != m.last {
        assert seg in l.closed && seg in Segments(l);
      }
    }
    BytesBelowSame(l.w.files, m.w.files, l.w.current);
  }

  lemma AppendWithRotation(l: Log, r: Record)
    requires Good(l) && Allowed(l, DoAppend(r)) && NeedsRotation(l.w, Stamp(l.w, r))
    ensures Good(Step(l, DoAppend(r)))
  {
    var m, s, k := Step(l, DoAppend(r)), Stamp(l.w, r), Rotated(l);
    RotationGood(l);
    HistoryAfterAppendGood(l, r);
    assert m.last == k.last + [s];
    FilesAfterWrite(k, m, s);
    WriteIntoEmpty(k, m, s);
    DurableAfterWrite(k, m, s);
  }

  lemma ForceGood(l: Log, lsn: U64)
    requires Good(l) && Allowed(l, DoForce(lsn))
    ensures Good(Step(l, DoForce(lsn)))
  {
    var m, c := Step(l, DoForce(lsn)), l.w.current;
    assert FileGood(l, c) && Segments(l)[c] == l.last;
    forall i | m.lo <= i <= |m.closed| ensures FileGood(m, i) {
      assert FileGood(l, i);
      assert Segments(m)[i] == Segments(l)[i];
    }
    assert SizesGood(m) by {
      assert Segments(m) == Segments(l);
      forall seg <- Segments(m) ensures Fits(m.w, seg) { assert Fits(l.w, seg); }
    }
    assert SafeInCurrent(m, |m.last|) by { assert m.last[..|m.last|] == m.last; }
  }

  lemma FileAfterTruncate(l: Log, i: nat)
    requires Good(l) && Step(l, DoTruncate).lo <= i <= |l.closed|
    ensures FileGood(Step(l, DoTruncate), i)
  {
    hide SizesGood, HistoryGood, DurableGood, EncodeAll, BytesBelow;
    assert FileGood(l, i);
    assert Segments(Step(l, DoTruncate))[i] == Segments(l)[i];
  }

  lemma SizesAfterTruncate(l: Log)
    requires Good(l)
    ensures SizesGood(Step(l, DoTruncate))
  {
    hide FilesGood, HistoryGood, DurableGood, EncodeAll;
    var m := Step(l, DoTruncate);
    assert Segments(m) == Segments(l);
    forall seg <- Segments(m) ensures Fits(m.w, seg) { assert Fits(l.w, seg); }
    BytesSplit(l.w.files, m.w.files, Bound(l.w), l.w.current + 1);
  }

  lemma TruncateGood(l: Log)
    requires Good(l)
    ensures Good(Step(l, DoTruncate))
  {
    hide FileGood, SizesGood, EncodeAll, BytesBelow;
    var m := Step(l, DoTruncate);
    forall i | m.lo <= i <= |m.closed| ensures FileGood(m, i) {
      FileAfterTruncate(l, i);
    }
    SizesAfterTruncate(l);
    var n :| 0 <= n <= |l.last| && SafeInCurrent(l, n) && l.w.flushedLsn <= |Flatten(l.closed)| + n;
    assert SafeInCurrent(m, n);
  }

  lemma StepGood(l: Log, op: Op)
    requires Good(l) && Allowed(l, op)
    ensures Good(Step(l, op))
  {
    match op {
      case DoAppend(r) =>
        if NeedsRotation(l.w, Stamp(l.w, r)) { AppendWithRotation(l, r); } else { AppendInPlace(l, r); }
      case DoForce(lsn) => ForceGood(l, lsn);
      case DoTruncate => TruncateGood(l);
    }
  }
}
