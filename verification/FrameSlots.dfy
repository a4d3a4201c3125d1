/** The frames of the buffer pool as objects: a page and its reference bit. */
module FrameSlots {
  import opened Pages
  import opened PoolSpec

  class Slot {
    const page: Page
    var referenced: bool

    constructor ()
      ensures fresh(page) && fresh(page.data) && page.Valid()
      ensures Value() == Frame(EMPTY_PAGE, false)
    {
      page := new Page();
      referenced := false;
    }

    ghost function Value(): Frame
      requires page.Valid()
      reads this, page, page.data
    {
      Frame(page.Value(), referenced)
    }

    method Refer(bit: bool)
      requires page.Valid()
      modifies this
      ensures Value() == old(Value()).(referenced := bit)
    {
      referenced := bit;
    }
  }

  /** No two frames share a page or its bytes. */
  ghost predicate Apart(slots: seq<Slot>) {
    && (forall s <- slots :: s.page.Valid())
    && (forall i, j | 0 <= i < j < |slots| ::
          slots[i] != slots[j] && slots[i].page != slots[j].page && slots[i].page.data != slots[j].page.data)
  }

  ghost function Owned(slots: seq<Slot>): set<object> {
    (set s <- slots :: s as object) + (set s <- slots :: s.page as object) + (set s <- slots :: s.page.data as object)
  }

  ghost function Values(slots: seq<Slot>): (r: seq<Frame>)
    requires Apart(slots)
    reads Owned(slots)
    ensures |r| == |slots| && forall i | 0 <= i < |slots| :: r[i] == slots[i].Value()
  {
    seq(|slots|, i requires 0 <= i < |slots| reads Owned(slots) => PartsOwned(slots, i); slots[i].Value())
  }

  /** What belongs to one frame. */
  ghost function Parts(s: Slot): set<object> {
    {s, s.page, s.page.data}
  }

  lemma PartsOwned(slots: seq<Slot>, i: nat)
    requires i < |slots|
    ensures Parts(slots[i]) <= Owned(slots)
  {
    var s := slots[i];
    assert s in slots;
    assert s as object in (set t <- slots :: t as object);
  }

  /** Nothing of one frame belongs to another. */
  lemma PartsApart(slots: seq<Slot>, i: nat)
    requires Apart(slots) && i < |slots|
    ensures forall j | 0 <= j < |slots| && j != i :: Parts(slots[j]) !! Parts(slots[i])
  {
  }

  lemma OneMore(slots: seq<Slot>, s: Slot)
    ensures Owned(slots + [s]) == Owned(slots) + Parts(s)
  {
    var more := slots + [s];
    PartsOwned(more, |slots|);
    forall o | o in Owned(slots) ensures o in Owned(more) {
      var i :| 0 <= i < |slots| && o in Parts(slots[i]);
      PartsOwned(more, i);
      assert more[i] == slots[i];
    }
  }

  ghost predicate AllEmpty(slots: seq<Slot>)
    requires Apart(slots)
    reads Owned(slots)
  {
    forall i | 0 <= i < |slots| :: Values(slots)[i] == Frame(EMPTY_PAGE, false)
  }

  method MakeSlots(n: nat) returns (slots: seq<Slot>)
    ensures |slots| == n && Apart(slots) && fresh(Owned(slots)) && AllEmpty(slots)
  {
    hide Apart, Owned, Values;
    slots := [];
    NoSlots();
    for i := 0 to n
      invariant |slots| == i && Apart(slots) && fresh(Owned(slots)) && AllEmpty(slots)
    {
      slots := AddSlot(slots);
    }
  }

  lemma NoSlots()
    ensures Apart([]) && Owned([]) == {}
  {
  }

  method AddSlot(slots: seq<Slot>) returns (more: seq<Slot>)
    requires Apart(slots) && AllEmpty(slots)
    ensures |more| == |slots| + 1 && Apart(more) && AllEmpty(more)
    ensures fresh(Owned(more) - Owned(slots))
  {
    hide Apart;
    ghost var owned, frames := Owned(slots), Values(slots);
    var slot := NewSlot();
    assert Parts(slot) !! owned;
    OneMore(slots, slot);
    ApartMore(slots, slot);
    more := slots + [slot];
    assert Values(slots) == frames;
    ValuesMore(slots, slot);
  }

  method NewSlot() returns (slot: Slot)
    ensures fresh(Parts(slot)) && slot.page.Valid() && slot.Value() == Frame(EMPTY_PAGE, false)
  {
    slot := new Slot();
  }

  lemma ValuesMore(slots: seq<Slot>, s: Slot)
    requires Apart(slots) && Apart(slots + [s]) && s.page.Valid()
    ensures Values(slots + [s]) == Values(slots) + [s.Value()]
  {
    var more := slots + [s];
    assert forall k | 0 <= k < |slots| :: more[k] == slots[k];
  }

  lemma ApartMore(slots: seq<Slot>, s: Slot)
    requires Apart(slots) && s.page.Valid() && Parts(s) !! Owned(slots)
    ensures Apart(slots + [s])
  {
    var more := slots + [s];
    forall i, j | 0 <= i < j < |more|
      ensures more[i] != more[j] && more[i].page != more[j].page && more[i].page.data != more[j].page.data
    {
      PartsOwned(slots, i);
    }
  }
}
