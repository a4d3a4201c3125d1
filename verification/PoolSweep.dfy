/**
 What a clock sweep does, for every pool state, clock position and pattern of write
 failures: which frame it takes, which reference bits it clears, and that everything else
 stays as it was.
 */
module PoolSweep {
  import opened Wrappers
  import opened Pages
  import opened DiskStore
  import opened PoolSpec

  /** The sweep may take a frame like this one. */
  predicate Spare(f: Frame) {
    f.page.pins == 0 && f.page.id != INVALID_PAGE_ID
  }

  /** How many frames the hand passes before it reaches frame `i`. */
  function Distance(s: Pool, i: nat): nat
    requires i < |s.frames| && s.hand < |s.frames|
  {
    if s.hand <= i then i - s.hand else i - s.hand + |s.frames|
  }

  lemma MultiplesOrdered(a: int, b: int, n: nat)
    requires a <= b
    ensures a * n <= b * n
  {
  }

  lemma DivisionUnique(q: int, r: nat, n: nat, q': int, r': nat)
    requires n > 0 && r < n && r' < n && q * n + r == q' * n + r'
    ensures r == r'
  {
    assert (q - q') * n == r' - r;
    if q - q' >= 1 {
      MultiplesOrdered(1, q - q', n);
    } else if q - q' <= -1 {
      MultiplesOrdered(q - q', -1, n);
    }
  }

  lemma ModuloWrap(x: nat, q: nat, n: nat)
    requires n > 0 && q * n <= x < (q + 1) * n
    ensures x % n == x - q * n
  {
    DivisionUnique(q, x - q * n, n, x / n, x % n);
  }

  /** Probe `k` is the visit of pass `k / n` to the frame at distance `k % n`. */
  lemma ProbeDistance(s: Pool, k: nat)
    requires s.hand < |s.frames| && k < 2 * |s.frames|
    ensures Distance(s, At(s, k)) == if k < |s.frames| then k else k - |s.frames|
  {
    var n := |s.frames|;
    var x := s.hand + k;
    if x < n {
      ModuloWrap(x, 0, n);
    } else if x < 2 * n {
      ModuloWrap(x, 1, n);
    } else {
      ModuloWrap(x, 2, n);
    }
  }

  lemma DistanceProbe(s: Pool, i: nat)
    requires i < |s.frames| && s.hand < |s.frames|
    ensures Distance(s, i) < |s.frames| && At(s, Distance(s, i)) == i
  {
    ModuloWrap(s.hand + Distance(s, i), if s.hand <= i then 0 else 1, |s.frames|);
  }

  /** Probe `k` of a sweep that starts in `s` would take its frame. In the second pass every
      spare frame has lost its reference bit. */
  ghost predicate Takes(s: Pool, k: nat, io: WriteOracle)
    requires s.frames != []
  {
    var f := s.frames[At(s, k)];
    Spare(f) && (f.referenced ==> k >= |s.frames|) && (f.page.dirty ==> io(k).Written?)
  }

  /** Equal up to the reference bit and the checksum field. */
  ghost predicate SameFrame(f: Frame, g: Frame) {
    && g.page.id == f.page.id
    && g.page.dirty == f.page.dirty
    && g.page.pins == f.page.pins
    && ContentOf(g.page.data) == ContentOf(f.page.data)
    && g.page.data[..4] == f.page.data[..4]
  }

  ghost predicate DirtyIn(s: Pool, p: PageId) {
    exists i | 0 <= i < |s.frames| :: s.frames[i].page.id == p && s.frames[i].page.dirty
  }

  /** What probes that take no frame may change: reference bits, checksum fields, and, by
      failed writes, the disk images of pages that stay dirty. */
  ghost predicate Stirred(s: Pool, t: Pool) {
    && t.table == s.table && t.free == s.free && t.hand == s.hand
    && t.dirtyCount == s.dirtyCount && t.metric == s.metric
    && |t.frames| == |s.frames|
    && (forall i | 0 <= i < |s.frames| :: SameFrame(s.frames[i], t.frames[i]))
    && t.disk.next == s.disk.next && t.disk.durable == s.disk.durable
    && (forall p: PageId | !DirtyIn(s, p) :: p in t.disk.cached <==> p in s.disk.cached)
    && (forall p | p in t.disk.cached && p in s.disk.cached && !DirtyIn(s, p) ::
          t.disk.cached[p] == s.disk.cached[p])
  }

  ghost predicate NoTornWrite(io: WriteOracle) {
    forall k :: !io(k).Torn?
  }

  lemma StirredTransitive(s: Pool, t: Pool, u: Pool)
    requires Stirred(s, t) && Stirred(t, u)
    ensures Stirred(s, u)
  {
    forall p: PageId | DirtyIn(t, p) ensures DirtyIn(s, p) {
      var i :| 0 <= i < |t.frames| && t.frames[i].page.id == p && t.frames[i].page.dirty;
      assert SameFrame(s.frames[i], t.frames[i]);
    }
    forall i | 0 <= i < |s.frames| ensures SameFrame(s.frames[i], u.frames[i]) {
      assert SameFrame(s.frames[i], t.frames[i]) && SameFrame(t.frames[i], u.frames[i]);
    }
  }

  /** A failed eviction only stirs. */
  lemma FailedEvictStirs(s: Pool, i: nat, w: WriteOutcome)
    requires i < |s.frames| && !Evict(s, i, w).1
    ensures var t := Evict(s, i, w).0;
            && Stirred(s, t)
            && (!w.Torn? ==> t.disk == s.disk)
            && t.frames[i].referenced == s.frames[i].referenced
            && (forall j | 0 <= j < |s.frames| && j != i :: t.frames[j] == s.frames[j])
  {
    SealedKeeps(s.frames[i].page.data);
    assert DirtyIn(s, s.frames[i].page.id);
  }

  /** Reference bits after probes `0..k` from `s` took nothing. */
  ghost predicate BitsCleared(s: Pool, t: Pool, k: nat)
    requires |t.frames| == |s.frames|
    requires s.frames != [] ==> s.hand < |s.frames|
  {
    forall i | 0 <= i < |s.frames| ::
      t.frames[i].referenced == (s.frames[i].referenced && !(Spare(s.frames[i]) && Distance(s, i) < k))
  }

  /** The sweep so far: `k` probes from `s` took nothing and led to `t`. */
  ghost predicate SweptTo(s: Pool, t: Pool, k: nat, io: WriteOracle) {
    && s.frames != [] && s.hand < |s.frames| && k <= 2 * |s.frames|
    && Stirred(s, t)
    && BitsCleared(s, t, k)
    && (forall j | 0 <= j < k :: !Takes(s, j, io))
    && (NoTornWrite(io) ==> t.disk == s.disk)
  }

  /** A probe that takes nothing stirs, and touches no reference bit but that of a spare
      frame it visits. */
  lemma ProbeStirs(t: Pool, k: nat, w: WriteOutcome)
    requires t.frames != [] && Probe(t, k, w).Next?
    ensures var u, i := Probe(t, k, w).s, At(t, k);
            && Stirred(t, u)
            && (!w.Torn? ==> u.disk == t.disk)
            && (forall j | 0 <= j < |t.frames| && j != i :: u.frames[j] == t.frames[j])
            && u.frames[i].referenced == (t.frames[i].referenced && !Spare(t.frames[i]))
            && (Spare(t.frames[i]) && !t.frames[i].referenced ==> t.frames[i].page.dirty && !w.Written?)
  {
    var i := At(t, k);
    if Spare(t.frames[i]) && !t.frames[i].referenced {
      FailedEvictStirs(t, i, w);
    }
  }

  lemma OtherDistances(s: Pool, k: nat, j: nat)
    requires s.hand < |s.frames| && k < 2 * |s.frames| && j < |s.frames|
    ensures j != At(s, k) ==> (Distance(s, j) < k + 1 <==> Distance(s, j) < k)
    ensures j == At(s, k) ==> Distance(s, j) < k + 1 && (k < |s.frames| ==> Distance(s, j) == k)
    ensures k >= |s.frames| ==> Distance(s, j) < k
  {
    ProbeDistance(s, k);
    DistanceProbe(s, j);
    DistanceProbe(s, At(s, k));
  }

  lemma ProbeTakesNothing(s: Pool, t: Pool, k: nat, io: WriteOracle)
    requires SweptTo(s, t, k, io) && k < 2 * |s.frames|
    requires Probe(t, k, io(k)).Next?
    ensures SweptTo(s, Probe(t, k, io(k)).s, k + 1, io)
  {
    var i, u := At(s, k), Probe(t, k, io(k)).s;
    ProbeStirs(t, k, io(k));
    StirredTransitive(s, t, u);
    assert SameFrame(s.frames[i], t.frames[i]);
    OtherDistances(s, k, i);
    assert !Takes(s, k, io);
    forall j | 0 <= j < |s.frames|
      ensures u.frames[j].referenced == (s.frames[j].referenced && !(Spare(s.frames[j]) && Distance(s, j) < k + 1))
    {
      OtherDistances(s, k, j);
    }
  }

  lemma ProbeTakesVictim(s: Pool, t: Pool, k: nat, io: WriteOracle)
    requires SweptTo(s, t, k, io) && k < 2 * |s.frames|
    requires Probe(t, k, io(k)).Victim?
    ensures Takes(s, k, io)
    ensures Probe(t, k, io(k)).i == At(s, k)
    ensures Evict(t, At(s, k), io(k)).1
    ensures Probe(t, k, io(k)).s == Evict(t, At(s, k), io(k)).0.(hand := (At(s, k) + 1) % |s.frames|)
  {
    ProbeDistance(s, k);
    assert SameFrame(s.frames[At(s, k)], t.frames[At(s, k)]);
  }

  /** The induction rule for sweeps of `n` frames: what probes that take nothing preserve
      holds when the sweep stops, be it after `2n` probes or at the probe that takes the
      victim. */
  lemma {:induction false} SweepInduction(t: Pool, j: nat, n: nat, io: WriteOracle, inv: (Pool, nat) -> bool)
    returns (mid: Pool, k: nat)
    requires |t.frames| == n && j <= 2 * n && inv(t, j)
    requires forall u: Pool, i: nat | |u.frames| == n && i < 2 * n && inv(u, i) && Probe(u, i, io(i)).Next? ::
               inv(Probe(u, i, io(i)).s, i + 1)
    ensures |mid.frames| == n && k <= 2 * n && inv(mid, k)
    ensures var (u, v) := Sweep(t, j, io);
            if v.None? then k == 2 * n && u == mid
            else k < 2 * n && Probe(mid, k, io(k)) == Victim(u, v.value)
    decreases 2 * n - j
  {
    if j == 2 * n || Probe(t, j, io(j)).Victim? {
      mid, k := t, j;
    } else {
      mid, k := SweepInduction(Probe(t, j, io(j)).s, j + 1, n, io, inv);
    }
  }

  /** The whole sweep: either `2n` probes took nothing, or probe `k`, in the state the earlier
      ones left, takes the victim. */
  lemma SweepRuns(s: Pool, io: WriteOracle) returns (mid: Pool, k: nat)
    requires s.frames != [] && s.hand < |s.frames|
    ensures SweptTo(s, mid, k, io)
    ensures var (u, v) := Sweep(s, 0, io);
            if v.None? then k == 2 * |s.frames| && u == mid
            else k < 2 * |s.frames| && Probe(mid, k, io(k)) == Victim(u, v.value)
  {
    var inv := (t: Pool, j: nat) => SweptTo(s, t, j, io);
    forall u: Pool, i: nat | |u.frames| == |s.frames| && i < 2 * |s.frames| && inv(u, i) && Probe(u, i, io(i)).Next?
      ensures inv(Probe(u, i, io(i)).s, i + 1)
    {
      ProbeTakesNothing(s, u, i, io);
    }
    mid, k := SweepInduction(s, 0, |s.frames|, io, inv);
  }

  /** Clock-sweep exactness. The victim is at the first probe that takes its frame, and none
      is found if and only if no probe of the two passes takes one. Exactly the spare frames
      visited before the victim lose their reference bit. */
  lemma SweepExact(s: Pool, io: WriteOracle) returns (k: nat)
    requires s.frames != [] && s.hand < |s.frames|
    ensures k <= 2 * |s.frames|
    ensures forall j | 0 <= j < k :: !Takes(s, j, io)
    ensures var (u, v) := Sweep(s, 0, io);
            && (v.None? <==> k == 2 * |s.frames|)
            && (v.Some? ==> Takes(s, k, io) && v.value == At(s, k)
                            && u.frames[At(s, k)] == Frame(EMPTY_PAGE, false)
                            && u.hand == (At(s, k) + 1) % |s.frames|
                            && u.table == s.table - {s.frames[At(s, k)].page.id})
            && (forall i | 0 <= i < |s.frames| && v != Some(i) ::
                  && SameFrame(s.frames[i], u.frames[i])
                  && u.frames[i].referenced == (s.frames[i].referenced && !(Spare(s.frames[i]) && Distance(s, i) < k)))
  {
    var mid;
    mid, k := SweepRuns(s, io);
    if k < 2 * |s.frames| {
      ProbeTakesVictim(s, mid, k, io);
      assert SameFrame(s.frames[At(s, k)], mid.frames[At(s, k)]);
    }
  }

  /** With every write succeeding: the first spare frame without a reference bit in circular
      order from the hand, else the first spare frame; none only if no frame is spare. */
  lemma SweepWithoutFailures(s: Pool, io: WriteOracle)
    requires s.frames != [] && s.hand < |s.frames|
    requires forall k :: io(k).Written?
    ensures var v := Sweep(s, 0, io).1;
            && (v.None? <==> forall i | 0 <= i < |s.frames| :: !Spare(s.frames[i]))
            && (v.Some? ==>
                  && Spare(s.frames[v.value])
                  && (!s.frames[v.value].referenced ==>
                        forall i | 0 <= i < |s.frames| && Spare(s.frames[i]) && !s.frames[i].referenced ::
                          Distance(s, v.value) <= Distance(s, i))
                  && (s.frames[v.value].referenced ==>
                        forall i | 0 <= i < |s.frames| && Spare(s.frames[i]) ::
                          s.frames[i].referenced && Distance(s, v.value) <= Distance(s, i)))
  {
    var n := |s.frames|;
    var k := SweepExact(s, io);
    var v := Sweep(s, 0, io).1;
    if v.Some? { ProbeDistance(s, k); }
    forall i | 0 <= i < n && Spare(s.frames[i])
      ensures k <= n + Distance(s, i) && k < 2 * n
      ensures !s.frames[i].referenced ==> k <= Distance(s, i)
    {
      SpareIsTaken(s, io, i);
    }
  }

  /** A spare frame is taken in the second pass at the latest, and in the first if its
      reference bit is clear. */
  lemma SpareIsTaken(s: Pool, io: WriteOracle, i: nat)
    requires s.hand < |s.frames| && i < |s.frames| && Spare(s.frames[i])
    requires forall k :: io(k).Written?
    ensures Distance(s, i) < |s.frames|
    ensures Takes(s, |s.frames| + Distance(s, i), io)
    ensures !s.frames[i].referenced ==> Takes(s, Distance(s, i), io)
  {
    var n, d := |s.frames|, Distance(s, i);
    DistanceProbe(s, i);
    ModuloWrap(s.hand + (n + d), if s.hand <= i then 1 else 2, n);
    assert At(s, n + d) == i;
  }
}
