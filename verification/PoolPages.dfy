/**
 What each operation of the pool does to one page, seen from outside: whether the page is
 resident and how, and its images on disk.
 */
module PoolPages {
  import opened Wrappers
  import opened Pages
  import opened DiskStore
  import opened PoolSpec
  import opened PoolSweep
  import opened PoolInvariant
  import opened PoolPreservation

  /** A resident page: `named` says that its header carries its id. */
  datatype Resident = Resident(dirty: bool, pins: nat, content: Content, named: bool)

  /** One page: in the pool, in the stream, and flushed from the stream. */
  datatype Look = Look(res: Option<Resident>, disk: Option<Image>, safe: Option<Image>)

  function Lookup<V>(m: map<PageId, V>, p: PageId): Option<V> {
    if p in m then Some(m[p]) else None
  }

  function Seen(page: PageValue): Resident {
    Resident(page.dirty, page.pins, ContentOf(page.data), Names(page.data, page.id))
  }

  function LookAt(s: Pool, p: PageId): Look {
    Look(if p in s.table && s.table[p] < |s.frames| then Some(Seen(s.frames[s.table[p]].page)) else None,
         Lookup(s.disk.cached, p), Lookup(s.disk.durable, p))
  }

  /** A write-out of page `p` with this content and a header that names it or not. */
  ghost predicate ImageOf(p: PageId, img: Image, r: Resident) {
    ContentOf(img) == r.content && (r.named ==> ChecksumOk(WithId(img, p)))
  }

  /** The page stays as it is, or failed writes spoil the stream image of a page that stays
      resident and dirty. */
  ghost predicate Unharmed(l: Look, m: Look) {
    m == l || (l.res.Some? && l.res.value.dirty && m == l.(disk := m.disk))
  }

  /** The page is unpinned and leaves the pool, written out first if it is dirty. */
  ghost predicate PutOut(p: PageId, l: Look, m: Look) {
    && l.res.Some? && l.res.value.pins == 0 && m.res.None? && m.safe == l.safe
    && if l.res.value.dirty then m.disk.Some? && ImageOf(p, m.disk.value, l.res.value) else m.disk == l.disk
  }

  /** What the search for a victim may do to a page; `calm` says that no write was torn. */
  ghost predicate Yielded(p: PageId, l: Look, m: Look, calm: bool) {
    (if calm then m == l else Unharmed(l, m)) || PutOut(p, l, m)
  }

  lemma StirredUnharmed(s: Pool, t: Pool, p: PageId)
    requires Inv(s) && Stirred(s, t)
    ensures Unharmed(LookAt(s, p), LookAt(t, p))
    ensures t.disk == s.disk ==> LookAt(t, p) == LookAt(s, p)
  {
    if p in s.table {
      assert SameFrame(s.frames[s.table[p]], t.frames[s.table[p]]);
    }
    if DirtyIn(s, p) {
      var i :| 0 <= i < |s.frames| && s.frames[i].page.id == p && s.frames[i].page.dirty;
      assert i in s.free || Mapped(s, i);
    }
  }

  /** Sealing a page changes nothing that clients see. */
  lemma SealedSeen(page: PageValue)
    ensures Seen(page.(data := Sealed(page.data))) == Seen(page)
    ensures Seen(page.(data := Sealed(page.data), dirty := false)) == Seen(page).(dirty := false)
  {
    SealedKeeps(page.data);
  }

  lemma SealedImage(p: PageId, page: PageValue)
    requires page.id == p
    ensures ImageOf(p, Sealed(page.data), Seen(page))
  {
    SealedKeeps(page.data);
    SealedIsOk(page.data);
    WithIdKeeps(Sealed(page.data), p);
  }

  lemma EvictedPage(s: Pool, i: nat, w: WriteOutcome, h: nat, p: PageId)
    requires Inv(s) && i < |s.frames| && Mapped(s, i) && Evict(s, i, w).1
    requires s.frames[i].page.pins == 0 && h < |s.frames|
    ensures var t := Evict(s, i, w).0.(hand := h);
            Yielded(p, LookAt(s, p), LookAt(t, p), true)
  {
    hide Sealed, ContentOf, Names, ImageOf;
    var t := Evict(s, i, w).0.(hand := h);
    if p == s.frames[i].page.id {
      SealedImage(p, s.frames[i].page);
      assert PutOut(p, LookAt(s, p), LookAt(t, p));
    } else {
      assert p in s.table ==> s.table[p] != i;
      assert LookAt(t, p) == LookAt(s, p);
    }
  }

  lemma ChosenYields(s: Pool, c: Choice, p: PageId)
    requires Inv(s) && Possible(s, c)
    ensures Yielded(p, LookAt(s, p), LookAt(Chosen(s, c).0, p), true)
  {
    match c {
      case Nothing =>
      case FromFree =>
      case Evicted(i, w) => EvictedPage(s, i, w, (i + 1) % |s.frames|, p);
    }
  }

  lemma YieldedAfterUnharmed(p: PageId, l: Look, m: Look, n: Look)
    requires Unharmed(l, m) && Yielded(p, m, n, true)
    ensures Yielded(p, l, n, false)
    ensures m == l ==> Yielded(p, l, n, true)
  {
  }

  /** The effect of a search for a victim on any page. */
  lemma VictimYields(s: Pool, io: WriteOracle, p: PageId)
    requires Inv(s)
    ensures var t := FindVictim(s, io).0;
            && Yielded(p, LookAt(s, p), LookAt(t, p), false)
            && (NoTornWrite(io) ==> Yielded(p, LookAt(s, p), LookAt(t, p), true))
  {
    var mid, c := VictimChosen(s, io);
    StirredUnharmed(s, mid, p);
    ChosenYields(mid, c, p);
    YieldedAfterUnharmed(p, LookAt(s, p), LookAt(mid, p), LookAt(Chosen(mid, c).0, p));
  }

  // The operations

  lemma LoadedPage(s: Pool, i: nat, p: PageId, r: ReadOutcome, q: PageId)
    requires InvBut(s, {i}) && p !in s.table
    ensures var (t, v) := Load(s, i, p, r);
            && (q != p ==> LookAt(t, q) == LookAt(s, q))
            && (v.None? ==> LookAt(t, p) == LookAt(s, p))
            && (v.Some? ==>
                  && p in s.disk.cached
                  && v == Some(i) == Lookup(t.table, p)
                  && LookAt(t, p) == LookAt(s, p).(res := Some(Resident(false, 1, ContentOf(s.disk.cached[p]), true))))
  {
    hide WithId, ContentOf, Names, ChecksumOk;
    LoadKeeps(s, i, p, r);
    if q in s.table {
      assert s.table[q] != i by { assert s.frames[s.table[q]].page.id == q; }
    }
    if p in s.disk.cached {
      WithIdKeeps(s.disk.cached[p], p);
    }
  }

  lemma PinnedPage(s: Pool, p: PageId, q: PageId)
    requires Inv(s) && p in s.table
    ensures var t, l := PinResident(s, p), LookAt(s, q);
            && (q == p ==> l.res.Some?)
            && LookAt(t, q) == if q != p then l else l.(res := Some(l.res.value.(pins := l.res.value.pins + 1)))
  {
    hide ContentOf, Names;
    if q in s.table && q != p {
      assert s.table[q] != s.table[p];
    }
  }

  lemma FetchHits(s: Pool, p: PageId, io: WriteOracle, r: ReadOutcome)
    requires Shape(s) && p in s.table
    ensures Fetch(s, p, io, r) == (PinResident(s, p), Some(s.table[p]))
  {
  }

  /** A fetch of `p` that misses. `p` comes from the stream, clean and pinned once, or not at
      all; any other page only suffers the search for a victim. */
  lemma MissedPage(s: Pool, p: PageId, io: WriteOracle, r: ReadOutcome, q: PageId)
    requires Inv(s) && p !in s.table
    ensures var (t, v) := Fetch(s, p, io, r);
            var l, m := LookAt(s, q), LookAt(t, q);
            && (q != p ==> Yielded(q, l, m, false) && (NoTornWrite(io) ==> Yielded(q, l, m, true)))
            && (q == p ==> l.res.None?)
            && (q == p && v.None? ==> m == l)
            && (q == p && v.Some? ==>
                  && l.disk.Some?
                  && m == l.(res := Some(Resident(false, 1, ContentOf(l.disk.value), true)))
                  && Lookup(t.table, p) == v)
  {
    VictimYields(s, io, q);
    FindVictimKeeps(s, io);
    var (s1, v) := FindVictim(s, io);
    if v.Some? {
      LoadedPage(s1, v.value, p, r, q);
    }
  }

  /** What the end of `new_page` does: the new page is clean, zero and pinned once; for every
      other page the file growth flushes the stream. */
  ghost predicate Allocated(l: Look, m: Look, grown: bool, isNew: bool) {
    if !isNew then
      m == if grown then l.(safe := l.disk) else l
    else
      && m.res == Some(Resident(false, 1, ContentOf(ZeroImage()), true))
      && (grown ==> m.disk.Some? && m.safe == m.disk && (l.disk.None? ==> m.disk.value == ZeroImage()))
      && (!grown ==> m.disk == l.disk && m.safe == l.safe)
  }

  lemma CreatedPage(s: Pool, i: nat, grown: bool, q: PageId)
    requires InvBut(s, {i}) && s.disk.next != INVALID_PAGE_ID
    ensures Allocated(LookAt(s, q), LookAt(Create(s, i, grown).0, q), grown, q == s.disk.next)
    ensures Create(s, i, grown).0.disk.next == s.disk.next + 1
  {
    hide WithId, ContentOf, Names;
    WithIdKeeps(ZeroImage(), s.disk.next);
    if q in s.table {
      assert s.table[q] != i by { assert s.frames[s.table[q]].page.id == q; }
    }
  }

  lemma NewedPage(s: Pool, io: WriteOracle, grown: bool, q: PageId) returns (mid: Look)
    requires Inv(s) && s.disk.next != INVALID_PAGE_ID
    ensures var (t, v) := NewPage(s, io, grown);
            && Yielded(q, LookAt(s, q), mid, false)
            && (NoTornWrite(io) ==> Yielded(q, LookAt(s, q), mid, true))
            && (if v.Some? then Allocated(mid, LookAt(t, q), grown, q == s.disk.next) else LookAt(t, q) == mid)
            && t.disk.next == if v.Some? then s.disk.next + 1 else s.disk.next
  {
    hide LookAt, Create, FindVictim, Yielded, Allocated;
    InvHasShape(s);
    var (s1, v) := FindVictim(s, io);
    VictimYields(s, io, q);
    FindVictimKeeps(s, io);
    mid := LookAt(s1, q);
    if v.Some? {
      CreatedPage(s1, v.value, grown, q);
    }
  }

  lemma UnpinnedPage(s: Pool, p: PageId, isDirty: bool, q: PageId)
    requires Inv(s)
    ensures var (t, ok) := Unpin(s, p, isDirty);
            var l, m := LookAt(s, q), LookAt(t, q);
            && (ok <==> LookAt(s, p).res.Some? && LookAt(s, p).res.value.pins > 0)
            && m == if q != p || !ok then l
                    else var r := l.res.value; l.(res := Some(r.(pins := r.pins - 1, dirty := r.dirty || isDirty)))
  {
    hide ContentOf, Names;
    if q in s.table && p in s.table && q != p {
      assert s.table[q] != s.table[p];
    }
  }

  /** A flush that reports success left the page absent, clean, or just written out. */
  lemma FlushedPage(s: Pool, p: PageId, w: WriteOutcome, q: PageId)
    requires Inv(s)
    ensures var (t, ok) := FlushPage(s, p, w);
            var l, m := LookAt(s, q), LookAt(t, q);
            && (q != p || l.res.None? || !l.res.value.dirty ==> m == l)
            && (q == p && l.res.Some? && l.res.value.dirty ==>
                  && ok == w.Written?
                  && (ok ==>
                        && m.disk.Some? && ImageOf(p, m.disk.value, l.res.value)
                        && m == l.(res := Some(l.res.value.(dirty := false)), disk := m.disk))
                  && (!ok ==> Unharmed(l, m) && (!w.Torn? ==> m == l)))
            && (q == p && (l.res.None? || !l.res.value.dirty) ==> ok)
  {
    hide Sealed, ContentOf, Names, ImageOf;
    if q in s.table && p in s.table && q != p {
      assert s.table[q] != s.table[p];
    }
    if p in s.table {
      SealedImage(p, s.frames[s.table[p]].page);
      SealedSeen(s.frames[s.table[p]].page);
    }
  }

  /** A page that was dirty is now clean and written out; any other page is untouched. */
  ghost predicate FlushedLook(p: PageId, l: Look, m: Look) {
    if l.res.None? || !l.res.value.dirty then m == l
    else
      && m.disk.Some? && ImageOf(p, m.disk.value, l.res.value)
      && m == l.(res := Some(l.res.value.(dirty := false)), disk := m.disk)
  }

  lemma WrittenOutPage(s: Pool, p: PageId, q: PageId)
    requires Inv(s)
    ensures var l, m := LookAt(s, q), LookAt(FlushPage(s, p, Written).0, q);
            if q == p then FlushedLook(p, l, m) else m == l
  {
    hide LookAt, FlushPage, ImageOf, Inv;
    FlushedPage(s, p, Written, q);
  }

  lemma FlushedTwice(p: PageId, l: Look, m: Look, n: Look)
    requires FlushedLook(p, l, m) && FlushedLook(p, m, n)
    ensures FlushedLook(p, l, n)
  {
    hide ImageOf;
  }

  lemma SyncedPage(s: Pool, q: PageId)
    ensures LookAt(s.(disk := Sync(s.disk)), q) == LookAt(s, q).(safe := LookAt(s, q).disk)
  {
  }

  lemma DeletedPage(s: Pool, p: PageId, q: PageId)
    requires Inv(s)
    ensures var (t, ok) := Delete(s, p);
            var l, m := LookAt(s, q), LookAt(t, q);
            && (ok <==> LookAt(s, p).res.None? || LookAt(s, p).res.value.pins == 0)
            && m == if q != p || !ok then l else l.(res := None)
  {
    hide ContentOf, Names;
    if q in s.table && p in s.table && q != p {
      assert s.table[q] != s.table[p];
    }
  }

  lemma WrittenPage(s: Pool, p: PageId, c: Content, q: PageId)
    requires Inv(s) && p in s.table
    ensures var l, m := LookAt(s, q), LookAt(ClientWrite(s, p, c), q);
            m == if q != p then l else l.(res := Some(l.res.value.(content := c)))
  {
    if q in s.table && q != p {
      assert s.table[q] != s.table[p];
    }
    WithContentSets(s.frames[s.table[p]].page.data, c);
  }
}
