/** The representation invariant of the buffer pool. */
module PoolInvariant {
  import opened Pages
  import opened PoolSpec

  ghost predicate Mapped(s: Pool, i: nat)
    requires i < |s.frames|
  {
    var p := s.frames[i].page.id;
    p in s.table && s.table[p] == i
  }

  /** Each mapped frame carries its key as page id, so the table is injective. */
  ghost predicate TableOk(s: Pool)
    requires Shape(s)
  {
    forall p <- s.table :: s.frames[s.table[p]].page.id == p && p < s.disk.next
  }

  ghost predicate Idle(page: PageValue) {
    page.pins == 0 && !page.dirty
  }

  /** The free list has no duplicates and holds idle frames that no page maps to. */
  ghost predicate FreeOk(s: Pool)
    requires Shape(s)
  {
    && (forall k, l | 0 <= k < l < |s.free| :: s.free[k] != s.free[l])
    && (forall k | 0 <= k < |s.free| :: !Mapped(s, s.free[k]) && Idle(s.frames[s.free[k]].page))
  }

  /** Every frame is free, mapped, or held by the operation in progress. */
  ghost predicate AllAccounted(s: Pool, held: set<nat>)
    requires Shape(s)
  {
    && (forall i | 0 <= i < |s.frames| :: i in held || i in s.free || Mapped(s, i))
    && (forall i <- held :: i < |s.frames| && i !in s.free && !Mapped(s, i) && Idle(s.frames[i].page))
  }

  /** Both counters count the resident dirty pages. */
  ghost predicate CountersOk(s: Pool)
    requires Shape(s)
  {
    s.dirtyCount == s.metric == |DirtyPages(s)|
  }

  ghost predicate InvBut(s: Pool, held: set<nat>) {
    Shape(s) && TableOk(s) && FreeOk(s) && AllAccounted(s, held) && CountersOk(s) && |s.frames| < COUNTER_RANGE
  }

  ghost predicate Inv(s: Pool) {
    InvBut(s, {})
  }
}
