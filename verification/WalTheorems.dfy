/** What the write-ahead log promises after any run. */
module WalTheorems {
  import opened Wrappers
  import opened WalCodec
  import opened WalSpec
  import opened WalRuns

  ghost predicate RunsTo(l: Log, ops: seq<Op>, m: Log)
    decreases |ops|
  {
    if ops == [] then m == l else Allowed(l, ops[0]) && RunsTo(Step(l, ops[0]), ops[1..], m)
  }

  lemma {:induction false} RunGood(l: Log, ops: seq<Op>, m: Log)
    requires Good(l) && RunsTo(l, ops, m)
    ensures Good(m)
    decreases |ops|
  {
    if ops != [] {
      StepGood(l, ops[0]);
      RunGood(Step(l, ops[0]), ops[1..], m);
    }
  }

  // The live log

  /** All files with an id below `n`, one after the other. */
  function BytesOf(w: Wal, n: nat): seq<Octet> {
    if n == 0 then [] else BytesOf(w, n - 1) + FileOf(w, n - 1)
  }

  /** The part of each of those files that is safe. */
  function SafeBytesOf(w: Wal, n: nat): seq<Octet> {
    if n == 0 then []
    else SafeBytesOf(w, n - 1) + SafePart(w, n - 1)
  }

  function SafePart(w: Wal, i: nat): seq<Octet> {
    var f := FileOf(w, i);
    if i in w.safe && w.safe[i] <= |f| then f[..w.safe[i]] else []
  }

  /** The records of the segments that are still there. */
  ghost function Live(l: Log): seq<Record>
    requires l.lo <= |l.closed|
  {
    Flatten(Segments(l)[l.lo..])
  }

  ghost function Gone(l: Log): seq<Record>
    requires l.lo <= |l.closed|
  {
    Flatten(l.closed[..l.lo])
  }

  lemma {:induction false} BytesOfLive(l: Log, n: nat)
    requires Good(l) && l.lo <= n <= l.w.current + 1
    ensures |Segments(l)| == l.w.current + 1 && BytesOf(l.w, n) == EncodeAll(Flatten(Segments(l)[l.lo..n]))
    decreases n
  {
    hide Good, Flatten, EncodeAll;
    GoodIds(l);
    if n == l.lo {
      NothingBelow(l, n);
      NothingEncoded();
      assert Segments(l)[l.lo..n] == [];
    } else {
      BytesOfLive(l, n - 1);
      FileHolds(l, n - 1);
      assert Segments(l)[l.lo..n] == Segments(l)[l.lo..n - 1] + [Segments(l)[n - 1]];
      FlattenAppend(Segments(l)[l.lo..n - 1], Segments(l)[n - 1]);
      EncodeAllConcat(Flatten(Segments(l)[l.lo..n - 1]), Segments(l)[n - 1]);
    }
  }

  lemma GoodIds(l: Log)
    requires Good(l)
    ensures l.w.current == |l.closed| && l.lo <= l.w.current
  {
  }

  lemma FileHolds(l: Log, i: nat)
    requires Good(l) && l.lo <= i <= |l.closed|
    ensures FileOf(l.w, i) == EncodeAll(Segments(l)[i])
  {
    assert FileGood(l, i);
  }

  lemma NothingEncoded()
    ensures EncodeAll(Flatten([])) == []
  {
  }

  lemma {:induction false} NothingBelow(l: Log, n: nat)
    requires Good(l) && n <= l.lo
    ensures BytesOf(l.w, n) == [] && SafeBytesOf(l.w, n) == []
  {
    if n > 0 {
      NothingBelow(l, n - 1);
    }
  }

  lemma HistorySplits(l: Log)
    requires l.lo <= |l.closed|
    ensures History(l) == Gone(l) + Live(l)
  {
    assert Segments(l) == l.closed[..l.lo] + Segments(l)[l.lo..];
    FlattenConcat(l.closed[..l.lo], Segments(l)[l.lo..]);
    FlattenAppend(l.closed, l.last);
  }

  /** After any run from an empty directory: the files, in id order, hold exactly a suffix of
      everything appended, with consecutive LSNs, and decode back to it; a segment exceeds the
      segment size only if it holds a single record; the size counter is the sum of the file
      sizes; and a rotation would open a file that does not exist. */
  lemma LiveLog(segmentSize: nat, ops: seq<Op>, l: Log)
    requires RunsTo(Log(Fresh(segmentSize), [], [], 0), ops, l)
    ensures Good(l)
    ensures BytesOf(l.w, l.w.current + 1) == EncodeAll(Live(l))
    ensures History(l) == Gone(l) + Live(l) && LsnsGood(History(l))
    ensures (forall r <- Live(l) :: |r.data| < U32_RANGE) ==>
              DecodeAll(BytesOf(l.w, l.w.current + 1)) == Some(Live(l))
    ensures forall seg <- Segments(l) :: Fits(l.w, seg)
    ensures l.w.size == BytesBelow(l.w.files, l.w.current + 1)
    ensures l.w.current + 1 !in l.w.files
  {
    hide EncodeAll, DecodeAll, Flatten, BytesBelow, BytesOf, FileGood, Fits, DurableGood, Step;
    FreshGood(segmentSize);
    RunGood(Log(Fresh(segmentSize), [], [], 0), ops, l);
    BytesOfLive(l, l.w.current + 1);
    assert Segments(l)[l.lo..l.w.current + 1] == Segments(l)[l.lo..];
    HistorySplits(l);
    StreamRoundTrip(Live(l));
  }

  // The durable prefix

  lemma {:induction false} SafeBytesOfClosed(l: Log, n: nat)
    requires Good(l) && n <= l.w.current
    ensures SafeBytesOf(l.w, n) == BytesOf(l.w, n)
  {
    if n > 0 {
      SafeBytesOfClosed(l, n - 1);
      if n - 1 >= l.lo {
        assert FileGood(l, n - 1);
        assert SafePart(l.w, n - 1) == FileOf(l.w, n - 1);
      }
    }
  }

  lemma PrefixOfConcat(a: seq<Octet>, b: seq<Octet>, c: seq<Octet>)
    requires b <= c
    ensures a + b <= a + c
  {
  }

  /** The encodings of the first `n` records of the current segment are safe. */
  lemma SafeCurrent(l: Log, n: nat)
    requires Good(l) && SafeInCurrent(l, n)
    ensures EncodeAll(l.last[..n]) <= SafePart(l.w, l.w.current)
  {
    assert FileGood(l, l.w.current);
    assert Segments(l)[l.w.current] == l.last;
    assert l.last == l.last[..n] + l.last[n..];
    EncodeAllConcat(l.last[..n], l.last[n..]);
  }

  /** The safe bytes start with the encodings of the closed segments that are still there and
      of the safe records of the current one. */
  lemma SafeBytesStart(l: Log, n: nat)
    requires Good(l) && SafeInCurrent(l, n)
    ensures EncodeAll(Flatten(l.closed[l.lo..]) + l.last[..n]) <= SafeBytesOf(l.w, l.w.current + 1)
  {
    var c, kept := l.w.current, Flatten(l.closed[l.lo..]);
    SafeBytesOfClosed(l, c);
    BytesOfLive(l, c);
    assert Segments(l)[l.lo..c] == l.closed[l.lo..];
    EncodeAllConcat(kept, l.last[..n]);
    SafeCurrent(l, n);
    PrefixOfConcat(EncodeAll(kept), EncodeAll(l.last[..n]), SafePart(l.w, c));
  }

  /** Every record up to the flushed LSN is truncated or safe: the safe bytes start with the
      encodings of all of them that are still there. */
  lemma DurablePrefixNow(l: Log)
    requires Good(l)
    ensures l.w.flushedLsn <= |History(l)|
    ensures |Gone(l)| <= l.w.flushedLsn ==>
              EncodeAll(History(l)[|Gone(l)|..l.w.flushedLsn]) <= SafeBytesOf(l.w, l.w.current + 1)
  {
    hide EncodeAll, SafeBytesOf, Flatten, FileGood, Fits;
    var n :| 0 <= n <= |l.last| && SafeInCurrent(l, n) && l.w.flushedLsn <= |Flatten(l.closed)| + n;
    if |Gone(l)| <= l.w.flushedLsn {
      var kept := Flatten(l.closed[l.lo..]);
      assert Flatten(l.closed) == Gone(l) + kept by {
        assert l.closed == l.closed[..l.lo] + l.closed[l.lo..];
        FlattenConcat(l.closed[..l.lo], l.closed[l.lo..]);
      }
      SafeBytesStart(l, n);
      MiddleIsPrefix(Gone(l), kept, l.last, n, l.w.flushedLsn);
      PrefixEncodes(History(l)[|Gone(l)|..l.w.flushedLsn], kept + l.last[..n]);
    }
  }

  /** After any run in which only returned LSNs are forced, across rotations and appends that
      land between an append and its force. */
  lemma DurablePrefix(segmentSize: nat, ops: seq<Op>, l: Log)
    requires RunsTo(Log(Fresh(segmentSize), [], [], 0), ops, l)
    ensures Good(l) && l.w.flushedLsn <= |History(l)|
    ensures |Gone(l)| <= l.w.flushedLsn ==>
              EncodeAll(History(l)[|Gone(l)|..l.w.flushedLsn]) <= SafeBytesOf(l.w, l.w.current + 1)
  {
    hide *;
    FreshGood(segmentSize);
    RunGood(Log(Fresh(segmentSize), [], [], 0), ops, l);
    DurablePrefixNow(l);
  }

  lemma MiddleIsPrefix(g: seq<Record>, k: seq<Record>, last: seq<Record>, n: nat, f: nat)
    requires n <= |last| && |g| <= f <= |g + k| + n
    ensures f <= |g + k + last| && (g + k + last)[|g|..f] <= k + last[..n]
  {
  }

  lemma PrefixEncodes(a: seq<Record>, b: seq<Record>)
    requires a <= b
    ensures EncodeAll(a) <= EncodeAll(b)
  {
    assert b == a + b[|a|..];
    EncodeAllConcat(a, b[|a|..]);
  }

  // Truncation

  /** `m` is a later state than `l`: closed segments stay, the one that was current only grows,
      and truncations only ever removed segments two behind the then current one. */
  ghost predicate Later(l: Log, m: Log) {
    && |l.closed| <= |m.closed| && l.closed == m.closed[..|l.closed|]
    && l.last <= Segments(m)[|l.closed|]
    && m.lo <= |m.closed|
    && (m.lo <= l.lo || m.lo < |m.closed|)
  }

  lemma StepLater(l: Log, op: Op)
    requires Good(l) && Allowed(l, op)
    ensures Later(l, Step(l, op))
  {
  }

  lemma LaterTransitive(k: Log, l: Log, m: Log)
    requires Later(k, l) && Later(l, m)
    ensures Later(k, m)
  {
    if |k.closed| < |l.closed| {
      assert Segments(m)[|k.closed|] == Segments(l)[|k.closed|];
    } else {
      assert Segments(l)[|k.closed|] == l.last;
    }
  }

  lemma {:induction false} RunLater(l: Log, ops: seq<Op>, m: Log)
    requires Good(l) && RunsTo(l, ops, m)
    ensures Later(l, m)
    decreases |ops|
  {
    if ops != [] {
      StepGood(l, ops[0]);
      StepLater(l, ops[0]);
      RunLater(Step(l, ops[0]), ops[1..], m);
      LaterTransitive(l, Step(l, ops[0]), m);
    }
  }

  lemma {:induction false} FlattenMonotone(segs: seq<seq<Record>>, i: nat, j: nat)
    requires i <= j <= |segs|
    ensures |Flatten(segs[..i])| <= |Flatten(segs[..j])|
  {
    assert segs[..j] == segs[..i] + segs[i..j];
    FlattenConcat(segs[..i], segs[i..j]);
  }

  /** Truncation after a run from the append of record `b` on keeps `b` and everything after
      it exactly when at most one rotation happened since; the bytes it frees are those of
      the files it removes. */
  lemma TruncationRetention(l: Log, r: Record, ops: seq<Op>, m: Log)
    requires Good(l) && Allowed(l, DoAppend(r)) && RunsTo(Step(l, DoAppend(r)), ops, m)
    ensures var l1, t := Step(l, DoAppend(r)), Step(m, DoTruncate);
            var b := |History(l1)|;
            && Good(t)
            && History(l1)[b - 1] == Stamp(l.w, r) && Append(l.w, r, CLEAN).1 == b
            && History(l1) <= History(t)
            && (|Gone(t)| < b <==> m.w.current <= l1.w.current + 1)
            && m.w.size - t.w.size == BytesBelow(m.w.files, m.w.current + 1) - BytesBelow(t.w.files, m.w.current + 1)
  {
    hide Append, BytesBelow, Later, Good, History, Gone, Step;
    AppendEnds(l, r);
    TruncateStays(m);
    var l1, t := Step(l, DoAppend(r)), Step(m, DoTruncate);
    HistoryAfterAppend(l, r);
    GoodCounts(l);
    StepGood(l, DoAppend(r));
    RunGood(l1, ops, m);
    StepGood(m, DoTruncate);
    RunLater(l1, ops, m);
    StepLater(m, DoTruncate);
    LaterTransitive(l1, m, t);
    BeginPosition(l1, t);
    LaterKeepsOld(l1, m);
    GoodIds(l1);
    GoodCounts(m);
    GoodCounts(t);
  }

  lemma AppendEnds(l: Log, r: Record)
    ensures Append(l.w, r, CLEAN).1 == l.w.nextLsn && Step(l, DoAppend(r)).last != []
  {
    hide Rotate, Write;
  }

  lemma TruncateStays(l: Log)
    ensures Step(l, DoTruncate).w.current == l.w.current
  {
    hide BytesBelow;
  }

  lemma GoodCounts(l: Log)
    requires Good(l)
    ensures l.w.nextLsn == |History(l)| + 1 && l.w.size == BytesBelow(l.w.files, l.w.current + 1)
  {
  }

  lemma LaterKeepsOld(l: Log, m: Log)
    requires Good(l) && Good(m) && Later(l, m)
    ensures l.w.current <= m.w.current
    ensures Step(m, DoTruncate).lo <= l.w.current <==> m.w.current <= l.w.current + 1
  {
    hide Good, BytesBelow;
    GoodIds(l);
    GoodIds(m);
  }

  /** Where the last record of `l` is in a later state: in the segment that was current. */
  lemma BeginPosition(l: Log, t: Log)
    requires Good(l) && Good(t) && Later(l, t) && l.last != []
    ensures History(l) <= History(t) && t.lo <= |t.closed|
    ensures |Gone(t)| < |History(l)| <==> t.lo <= |l.closed|
  {
    hide Good, Flatten;
    GoodIds(t);
    var c := |l.closed|;
    var segs := Segments(t);
    assert segs[..c] == l.closed;
    assert segs[..c + 1] == segs[..c] + [segs[c]];
    FlattenAppend(segs[..c], segs[c]);
    assert History(l) <= Flatten(segs[..c + 1]);
    assert segs == segs[..c + 1] + segs[c + 1..];
    FlattenConcat(segs[..c + 1], segs[c + 1..]);
    FlattenAppend(t.closed, t.last);
    assert History(t) == Flatten(segs);
    assert segs[..t.lo] == t.closed[..t.lo];
    if t.lo <= c {
      FlattenMonotone(segs, t.lo, c);
    } else {
      FlattenMonotone(segs, c + 1, t.lo);
    }
  }

  function Tiny(): Record {
    Record(0, 0, 0, 0, 0, 0, 0, [])
  }

  /** With segments too small for any record, every append rotates. */
  lemma EveryAppendRotates(l: Log, r: Record)
    requires l.w.segmentSize == 0
    ensures Step(l, DoAppend(r)).w.current == l.w.current + 1 && Step(l, DoAppend(r)).w.segmentSize == 0
  {
  }

  /** Truncation does lose records: of three appends that each rotate, the first is gone. */
  lemma TruncationLoses() returns (ops: seq<Op>, l: Log)
    ensures RunsTo(Log(Fresh(0), [], [], 0), ops, l) && Good(l)
    ensures ops == [DoAppend(Tiny()), DoAppend(Tiny()), DoAppend(Tiny()), DoTruncate]
    ensures |History(l)| == 3 && |Gone(l)| >= 1
  {
    hide Step, History, Gone, Good;
    var l0, a := Log(Fresh(0), [], [], 0), DoAppend(Tiny());
    FreshGood(0);
    ops := [a, a, a, DoTruncate];
    var l1 := Step(l0, a);
    var l2 := Step(l1, a);
    var l3 := Step(l2, a);
    l := Step(l3, DoTruncate);
    EveryAppendRotates(l0, Tiny());
    EveryAppendRotates(l1, Tiny());
    EveryAppendRotates(l2, Tiny());
    ThreeAppends(l0, Tiny());
    assert ops[1..] == [a, a, DoTruncate] && ops[1..][1..] == [a, DoTruncate] && ops[1..][1..][1..] == [DoTruncate]
        && ops[1..][1..][1..][1..] == [];
    assert [a, a][1..] == [a] && [a][1..] == [];
    assert RunsTo(l3, [], l3) && RunsTo(l2, [a], l3) && RunsTo(l1, [a, a], l3);
    TruncationRetention(l0, Tiny(), [a, a], l3);
    assert RunsTo(l, [], l) && RunsTo(l3, [DoTruncate], l) && RunsTo(l2, [a, DoTruncate], l)
        && RunsTo(l1, [a, a, DoTruncate], l);
  }

  lemma ThreeAppends(l: Log, r: Record)
    requires l.w.nextLsn == 1 && l.closed == [] && l.last == []
    ensures var a := DoAppend(r);
            var l1 := Step(l, a);
            var l2 := Step(l1, a);
            var l3 := Step(l2, a);
            && Allowed(l, a) && Allowed(l1, a) && Allowed(l2, a)
            && |History(l)| == 0 && |History(l1)| == 1 && |History(l3)| == 3
            && History(Step(l3, DoTruncate)) == History(l3)
  {
    hide Step, History;
    var a := DoAppend(r);
    AppendNext(l, r);
    AppendNext(Step(l, a), r);
    HistoryAfterAppend(l, r);
    HistoryAfterAppend(Step(l, a), r);
    HistoryAfterAppend(Step(Step(l, a), a), r);
    EmptyHistory(l);
    TruncationKeepsHistory(Step(Step(Step(l, a), a), a));
  }

  lemma AppendNext(l: Log, r: Record)
    requires l.w.nextLsn + 1 < LSN_RANGE
    ensures Step(l, DoAppend(r)).w.nextLsn == l.w.nextLsn + 1
  {
  }

  lemma EmptyHistory(l: Log)
    requires l.closed == [] && l.last == []
    ensures History(l) == []
  {
  }

  lemma TruncationKeepsHistory(l: Log)
    ensures History(Step(l, DoTruncate)) == History(l)
  {
  }
}
