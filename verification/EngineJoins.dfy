/**
 A query behind a log whose last line is not terminated: its first line is joined to that one.
 What survives is told command by command, for one table after the other.
 */
module EngineJoins {
  import opened Wrappers
  import opened Engine
  import opened EngineCommands
  import opened EngineReplay
  import opened EngineLosses

  /** The commands about table `x`. */
  function On(cs: seq<Command>, x: string): seq<Command>
    decreases |cs|
  {
    if cs == [] then [] else (if cs[0].name == x then [cs[0]] else []) + On(cs[1..], x)
  }

  /** These commands about one table do what `d` does, whether the table is there or not. */
  predicate Quiet(d: Command, on: seq<Command>) {
    if d.Creation? then on != [] && on[0] == d && forall e <- on :: e.Creation? else on == [d]
  }

  /** The commands `js` do what `d`, the command of the pending line if it is one, and then `c` did,
      on all tables on which `c` succeeds after `d`. */
  predicate JoinSafe(d: Option<Command>, c: Command, js: seq<Command>) {
    if d.None? then Owns(c, js)
    else if d.value.name != c.name then
      && (forall e <- js :: e.name == d.value.name || e.name == c.name)
      && Quiet(d.value, On(js, d.value.name)) && Owns(c, On(js, c.name))
    else if c.Creation? then d.value.Creation? || Owns(c, js)
    else
      && (forall e <- js :: e.name == c.name)
      && if d.value.Creation? then js != [] && js[0] == d.value && Owns(c, js[1..])
         else RowsFor(js, c.name) == [d.value.items, c.items]
  }

  // One table

  lemma FirstCommand(t: Option<Recorded>, cs: seq<Command>, x: string)
    requires cs != []
    ensures TableAfter(t, cs, x) == TableAfter(TableAfter(t, [cs[0]], x), cs[1..], x)
  {
    var one := [cs[0]];
    assert one[0] == cs[0] && one[1..] == [];
  }

  lemma {:induction false} OnMembers(cs: seq<Command>, x: string)
    ensures forall e <- On(cs, x) :: e.name == x && e in cs
    decreases |cs|
  {
    if cs != [] {
      OnMembers(cs[1..], x);
    }
  }

  lemma {:induction false} OnSame(t: Option<Recorded>, cs: seq<Command>, x: string)
    ensures TableAfter(t, cs, x) == TableAfter(t, On(cs, x), x)
    decreases |cs|
  {
    hide TableAfter;
    if cs != [] {
      var rest, on := cs[1..], On(cs[1..], x);
      FirstCommand(t, cs, x);
      OnSame(TableAfter(t, [cs[0]], x), rest, x);
      if cs[0].name == x {
        assert ([cs[0]] + on)[0] == cs[0] && ([cs[0]] + on)[1..] == on;
        FirstCommand(t, [cs[0]] + on, x);
      } else {
        assert [] + on == on;
        OtherTable(t, cs[0], x);
      }
    }
  }

  lemma OtherTable(t: Option<Recorded>, c: Command, x: string)
    requires c.name != x
    ensures TableAfter(t, [c], x) == t
  {
    assert [c][1..] == [];
  }

  lemma {:induction false} OnAll(cs: seq<Command>, x: string)
    requires forall e <- cs :: e.name == x
    ensures On(cs, x) == cs
    decreases |cs|
  {
    if cs != [] {
      assert cs[0] in cs && forall e <- cs[1..] :: e in cs;
      OnAll(cs[1..], x);
      assert cs == [cs[0]] + cs[1..];
    }
  }

  lemma {:induction false} OnNone(cs: seq<Command>, x: string)
    requires forall e <- cs :: e.name != x
    ensures On(cs, x) == []
    decreases |cs|
  {
    if cs != [] {
      assert cs[0] in cs && forall e <- cs[1..] :: e in cs;
      OnNone(cs[1..], x);
    }
  }

  /** A table that such commands create has at most the rows they insert. */
  lemma {:induction false} RowsAtMost(cs: seq<Command>, x: string)
    ensures TableAfter(None, cs, x).Some? ==> |TableAfter(None, cs, x).value.rows| <= |RowsFor(cs, x)|
    decreases |cs|
  {
    if cs != [] {
      RowsAtMost(cs[1..], x);
      if cs[0].name == x && cs[0].Creation? {
        ExistingTable(Recorded(x, cs[0].items, []), cs[1..], x);
      }
    }
  }

  lemma {:induction false} RowsOfInsertions(cs: seq<Command>, x: string)
    requires forall e <- cs :: e.Insertion? && e.name == x
    ensures |RowsFor(cs, x)| == |cs| && forall i | 0 <= i < |cs| :: RowsFor(cs, x)[i] == cs[i].items
    decreases |cs|
  {
    if cs != [] {
      assert cs[0] in cs && forall e <- cs[1..] :: e in cs;
      RowsOfInsertions(cs[1..], x);
    }
  }

  lemma SameRows(t: Recorded, a: seq<seq<string>>, b: seq<seq<string>>)
    ensures t.(rows := t.rows + a) == t.(rows := t.rows + b) <==> a == b
  {
    if t.rows + a == t.rows + b {
      assert a == (t.rows + a)[|t.rows|..] && b == (t.rows + b)[|t.rows|..];
    }
  }

  lemma OneCommand(t: Option<Recorded>, d: Command)
    ensures TableAfter(t, [d], d.name) ==
            if d.Creation? then (if t.Some? then t else Some(Recorded(d.name, d.items, [])))
            else (if t.Some? then Some(t.value.(rows := t.value.rows + [d.items])) else t)
    ensures RowsFor([d], d.name) == if d.Creation? then [] else [d.items]
  {
    assert [d][1..] == [];
    assert RowsFor([d], d.name) == (if d.Creation? then [] else [d.items]) + RowsFor([], d.name);
  }

  /** Quiet commands are exactly those with the effect of `d` on a table, be it there or not. */
  lemma QuietExact(t: Recorded, d: Command, on: seq<Command>)
    requires forall e <- on :: e.name == d.name
    ensures (&& TableAfter(None, on, d.name) == TableAfter(None, [d], d.name)
             && TableAfter(Some(t), on, d.name) == TableAfter(Some(t), [d], d.name)) <==> Quiet(d, on)
  {
    hide TableAfter, RowsFor;
    var x := d.name;
    OneCommand(None, d);
    OneCommand(Some(t), d);
    ExistingTable(t, on, x);
    ExistingTable(t, [d], x);
    SameRows(t, RowsFor(on, x), RowsFor([d], x));
    NoRowsFor(on, x);
    NotCreated(on, x);
    if d.Creation? {
      if on != [] && on[0].Creation? {
        FirstCreates(on, x);
        if forall e <- on :: e.Creation? {
          NoRowsFor(on[1..], x);
        }
      }
    } else if forall e <- on :: e.Insertion? {
      RowsOfInsertions(on, x);
      if RowsFor(on, x) == [d.items] {
        assert on[0].items == RowsFor(on, x)[0];
        assert on == [on[0]];
      }
    }
  }

  lemma FirstCreates(on: seq<Command>, x: string)
    requires on != [] && on[0].Creation? && on[0].name == x
    ensures TableAfter(None, on, x) == Some(Recorded(x, on[0].items, RowsFor(on[1..], x)))
  {
    ExistingTable(Recorded(x, on[0].items, []), on[1..], x);
    assert [] + RowsFor(on[1..], x) == RowsFor(on[1..], x);
  }

  ghost function Alone(o: Option<Recorded>, x: string): Records {
    if o.Some? then map[x := o.value] else map[]
  }

  /** Owned commands are exactly those with the effect of `c` where it succeeds. */
  lemma OwnsExact(o: Option<Recorded>, c: Command, on: seq<Command>)
    requires c.Creation? <==> o.None?
    requires forall e <- on :: e.name == c.name
    ensures TableAfter(o, on, c.name) == TableAfter(o, [c], c.name) <==> Owns(c, on)
  {
    hide TableAfter, RunAll;
    OneCommand(o, c);
    if Owns(c, on) {
      var base := Alone(o, c.name);
      OwnsRuns(RECORDING, base, c, on);
      RunAllAt(base, on, c.name);
    } else if TableAfter(o, on, c.name) == TableAfter(o, [c], c.name) {
      SameEffectOwned(o, c, on);
    }
  }

  lemma TwoCommands(o: Option<Recorded>, d: Command, c: Command, x: string)
    ensures TableAfter(o, [d, c], x) == TableAfter(TableAfter(o, [d], x), [c], x)
    ensures d.name == c.name == x && d.Insertion? && c.Insertion? ==> RowsFor([d, c], x) == [d.items, c.items]
  {
    hide TableAfter, RowsFor;
    FirstCommand(o, [d, c], x);
    assert [d, c][1..] == [c];
    if d.name == c.name == x && d.Insertion? && c.Insertion? {
      FirstRow([d, c], x);
      OneCommand(None, c);
      assert [d.items] + [c.items] == [d.items, c.items];
    }
  }

  /** A creation and an insertion into the same table. */
  lemma PairExact(t: Recorded, d: Command, c: Command, on: seq<Command>)
    requires d.name == c.name && d.Creation? && c.Insertion? && forall e <- on :: e.name == c.name
    ensures (&& TableAfter(None, on, c.name) == TableAfter(None, [d, c], c.name)
             && TableAfter(Some(t), on, c.name) == TableAfter(Some(t), [d, c], c.name))
            <==> on != [] && on[0] == d && Owns(c, on[1..])
  {
    hide TableAfter, RowsFor, Owns;
    var x := c.name;
    TwoCommands(None, d, c, x);
    TwoCommands(Some(t), d, c, x);
    OneCommand(None, d);
    OneCommand(Some(t), d);
    OneCommand(Some(t), c);
    var made := Recorded(x, d.items, []);
    OneCommand(Some(made), c);
    assert [] + [c.items] == [c.items];
    ExistingTable(t, on, x);
    SameRows(t, RowsFor(on, x), [c.items]);
    if on == [] {
      NotCreated(on, x);
    } else {
      var rest := on[1..];
      assert forall e <- rest :: e in on;
      FirstRow(on, x);
      if on[0].Creation? {
        FirstCreates(on, x);
        OwnsExact(Some(made), c, rest);
        ExistingTable(made, rest, x);
        SameRows(made, RowsFor(rest, x), [c.items]);
      } else {
        RowsAtMost(rest, x);
        InsertionSkipped(on, x);
      }
    }
  }

  lemma FirstRow(on: seq<Command>, x: string)
    requires on != [] && on[0].name == x
    ensures RowsFor(on, x) == (if on[0].Insertion? then [on[0].items] else []) + RowsFor(on[1..], x)
  {
  }

  lemma InsertionSkipped(on: seq<Command>, x: string)
    requires on != [] && on[0].Insertion?
    ensures TableAfter(None, on, x) == TableAfter(None, on[1..], x)
  {
  }

  // All tables

  function AsList(d: Option<Command>): seq<Command> {
    if d.Some? then [d.value] else []
  }

  /** Replaying `js` on `base` does what `d` and then `c` did, if `c` succeeded. */
  ghost predicate JoinedWell(base: Records, d: Option<Command>, c: Command, js: seq<Command>) {
    var t := Run(RECORDING, RunAll(RECORDING, base, AsList(d)), c);
    t.None? || RunAll(RECORDING, base, js) == t.value
  }

  /** `c` succeeds after `d` on a table that is `o`, or not there. */
  predicate SucceedsOn(o: Option<Recorded>, d: Option<Command>, c: Command) {
    c.Creation? <==> TableAfter(o, AsList(d), c.name).None?
  }

  ghost predicate SameAt(o: Option<Recorded>, d: Option<Command>, c: Command, js: seq<Command>, x: string) {
    TableAfter(o, js, x) == TableAfter(o, AsList(d) + [c], x)
  }

  lemma SameLookups(a: Records, b: Records)
    requires forall x :: Lookup(a, x) == Lookup(b, x)
    ensures a == b
  {
    assert forall x :: x in a <==> Lookup(a, x).Some?;
    assert forall x :: x in b <==> Lookup(b, x).Some?;
    forall x | x in a ensures a[x] == b[x] {
      assert Lookup(a, x) == Lookup(b, x);
    }
  }

  lemma RunLast(base: Records, ds: seq<Command>, c: Command)
    ensures var t := Run(RECORDING, RunAll(RECORDING, base, ds), c);
            && (t.Some? <==> (c.Creation? <==> TableAfter(Lookup(base, c.name), ds, c.name).None?))
            && (t.Some? ==> t.value == RunAll(RECORDING, base, ds + [c]))
  {
    hide TableAfter;
    RunAllAt(base, ds, c.name);
    RunAllConcat(RECORDING, base, ds, [c]);
    assert [c][1..] == [];
  }

  /** So the question is one about each table. */
  lemma WellTableByTable(base: Records, d: Option<Command>, c: Command, js: seq<Command>)
    ensures JoinedWell(base, d, c, js) <==>
            (SucceedsOn(Lookup(base, c.name), d, c) ==> forall x :: SameAt(Lookup(base, x), d, c, js, x))
  {
    hide Run, RunAll, TableAfter, Lookup;
    var cs := AsList(d) + [c];
    RunLast(base, AsList(d), c);
    var a, b := RunAll(RECORDING, base, js), RunAll(RECORDING, base, cs);
    forall x ensures Lookup(a, x) == TableAfter(Lookup(base, x), js, x) {
      RunAllAt(base, js, x);
    }
    forall x ensures Lookup(b, x) == TableAfter(Lookup(base, x), cs, x) {
      RunAllAt(base, cs, x);
    }
    if forall x :: SameAt(Lookup(base, x), d, c, js, x) {
      SameLookups(a, b);
    }
  }

  lemma {:induction false} OwnsNames(c: Command, js: seq<Command>)
    requires Owns(c, js)
    ensures forall e <- js :: e.name == c.name
    decreases |js|
  {
    assert js == [js[0]] + js[1..];
    if js[0].Creation? != c.Creation? {
      OwnsNames(c, js[1..]);
    }
  }

  /** Commands about other tables. */
  lemma Untouched(o: Option<Recorded>, cs: seq<Command>, x: string)
    requires forall e <- cs :: e.name != x
    ensures TableAfter(o, cs, x) == o
  {
    OnSame(o, cs, x);
    OnNone(cs, x);
  }

  /** What the two commands do to one table. */
  lemma PairAt(o: Option<Recorded>, d: Option<Command>, c: Command, x: string)
    ensures var cs := AsList(d) + [c];
            TableAfter(o, cs, x) ==
            if d.None? || (d.value.name != x && c.name == x) then TableAfter(o, [c], x)
            else if c.name != x then TableAfter(o, [d.value], x)
            else TableAfter(o, [d.value, c], x)
  {
    hide TableAfter;
    if d.None? {
      assert AsList(d) + [c] == [c];
    } else {
      assert AsList(d) + [c] == [d.value, c];
      TwoCommands(o, d.value, c, x);
      if d.value.name != x { OtherTable(o, d.value, x); }
      if c.name != x { OtherTable(TableAfter(o, [d.value], x), c, x); }
    }
  }

  /** Safe joins do the same to the table of `c`. */
  lemma SafeAtOwn(o: Option<Recorded>, d: Option<Command>, c: Command, js: seq<Command>)
    requires JoinSafe(d, c, js) && SucceedsOn(o, d, c)
    ensures SameAt(o, d, c, js, c.name)
  {
    hide TableAfter, RowsFor, Owns, Quiet;
    var x := c.name;
    PairAt(o, d, c, x);
    NoCommandAt(o, x);
    if d.None? {
      OwnsNames(c, js);
      OwnsExact(o, c, js);
    } else if d.value.name != x {
      OtherTable(o, d.value, x);
      OnSame(o, js, x);
      OnMembers(js, x);
      OwnsExact(o, c, On(js, x));
    } else {
      OneCommand(o, d.value);
      TwoCommands(o, d.value, c, x);
      if c.Creation? {
        OwnsNames(c, js);
        OwnsExact(o, c, js);
      } else if d.value.Creation? {
        PairExact(if o.Some? then o.value else Empty(x), d.value, c, js);
      } else {
        ExistingTable(o.value, js, x);
        ExistingTable(o.value, [d.value, c], x);
      }
    }
  }

  lemma NoCommandAt(o: Option<Recorded>, x: string)
    ensures TableAfter(o, [], x) == o
  {
  }

  lemma SafeAtOther(o: Option<Recorded>, d: Option<Command>, c: Command, js: seq<Command>, x: string)
    requires JoinSafe(d, c, js) && x != c.name
    requires !(d.Some? && d.value.Creation? && c.Creation? && d.value.name == c.name)
    ensures SameAt(o, d, c, js, x)
  {
    hide TableAfter, RowsFor, Owns, Quiet;
    PairAt(o, d, c, x);
    OtherTable(o, c, x);
    if d.Some? && d.value.name == x {
      OnSame(o, js, x);
      OnMembers(js, x);
      QuietExact(if o.Some? then o.value else Empty(x), d.value, On(js, x));
    } else {
      if d.None? || (c.Creation? && d.value.name == c.name) { OwnsNames(c, js); }
      Untouched(o, js, x);
      if d.Some? { OtherTable(o, d.value, x); }
    }
  }

  lemma JoinSafeIsWell(base: Records, d: Option<Command>, c: Command, js: seq<Command>)
    requires JoinSafe(d, c, js)
    ensures JoinedWell(base, d, c, js)
  {
    hide JoinSafe, JoinedWell, SameAt, Lookup;
    WellTableByTable(base, d, c, js);
    if SucceedsOn(Lookup(base, c.name), d, c) {
      SucceedsSomewhere(Lookup(base, c.name), d, c);
      forall x ensures SameAt(Lookup(base, x), d, c, js, x) {
        if x == c.name {
          SafeAtOwn(Lookup(base, x), d, c, js);
        } else {
          SafeAtOther(Lookup(base, x), d, c, js, x);
        }
      }
    }
  }

  /** A creation never succeeds after a creation of the same table. */
  lemma SucceedsSomewhere(o: Option<Recorded>, d: Option<Command>, c: Command)
    requires SucceedsOn(o, d, c)
    ensures !(d.Some? && d.value.Creation? && c.Creation? && d.value.name == c.name)
  {
    hide TableAfter;
    if d.Some? && d.value.name == c.name {
      OneCommand(o, d.value);
    }
  }

  // Joins that are not safe

  /** Whether the table of `c` must be there for `c` to succeed after `d`. */
  predicate MustExist(d: Option<Command>, c: Command) {
    c.Insertion? && !(d.Some? && d.value.Creation? && d.value.name == c.name)
  }

  function Maybe(x: string, there: bool): Option<Recorded> {
    if there then Some(Empty(x)) else None
  }

  lemma SucceedsIfThere(d: Option<Command>, c: Command, there: bool)
    requires !(d.Some? && d.value.Creation? && c.Creation? && d.value.name == c.name)
    requires (c.Insertion? && d.Some? && d.value.Creation? && d.value.name == c.name) || there == MustExist(d, c)
    ensures SucceedsOn(Maybe(c.name, there), d, c)
  {
    hide TableAfter;
    var o := Maybe(c.name, there);
    NoCommandAt(o, c.name);
    if d.Some? {
      OneCommand(o, d.value);
      if d.value.name != c.name { OtherTable(o, d.value, c.name); }
    }
  }

  lemma ForeignDiffers(js: seq<Command>, d: Option<Command>, c: Command, e: Command) returns (there: bool)
    requires e in js && e.name != c.name && (d.Some? ==> e.name != d.value.name)
    ensures !SameAt(Maybe(e.name, there), d, c, js, e.name)
  {
    hide TableAfter, RowsFor, Empty;
    var x := e.name;
    there := exists f <- js :: f.Insertion? && f.name == x;
    var o := Maybe(x, there);
    PairAt(o, d, c, x);
    OtherTable(o, c, x);
    if d.Some? { OtherTable(o, d.value, x); }
    if there {
      ExistingTable(Empty(x), js, x);
      NoRowsFor(js, x);
      SameRows(Empty(x), RowsFor(js, x), []);
      assert Empty(x).rows + [] == Empty(x).rows;
    } else {
      NotCreated(js, x);
    }
  }

  lemma PendingDiffers(js: seq<Command>, d: Command, c: Command) returns (there: bool)
    requires d.name != c.name && !Quiet(d, On(js, d.name))
    ensures !SameAt(Maybe(d.name, there), Some(d), c, js, d.name)
  {
    hide TableAfter, Empty, Quiet;
    var x := d.name;
    OnMembers(js, x);
    QuietExact(Empty(x), d, On(js, x));
    there := TableAfter(None, On(js, x), x) == TableAfter(None, [d], x);
    OnSame(Maybe(x, there), js, x);
    PairAt(Maybe(x, there), Some(d), c, x);
  }

  lemma OwnDiffers(js: seq<Command>, d: Option<Command>, c: Command) returns (there: bool)
    requires !JoinSafe(d, c, js)
    requires forall e <- js :: e.name == c.name || (d.Some? && e.name == d.value.name)
    requires d.Some? && d.value.name != c.name ==> Quiet(d.value, On(js, d.value.name))
    ensures SucceedsOn(Maybe(c.name, there), d, c) && !SameAt(Maybe(c.name, there), d, c, js, c.name)
  {
    hide TableAfter, RowsFor, Owns, Quiet, Empty;
    var x := c.name;
    there := MustExist(d, c);
    if d.Some? && d.value.name == x && d.value.Creation? && c.Insertion? {
      PairExact(Empty(x), d.value, c, js);
      there := TableAfter(None, js, x) == TableAfter(None, [d.value, c], x);
    }
    var o := Maybe(x, there);
    SucceedsIfThere(d, c, there);
    PairAt(o, d, c, x);
    NoCommandAt(o, x);
    if d.Some? && d.value.name == x {
      OneCommand(o, d.value);
      TwoCommands(o, d.value, c, x);
      if c.Creation? {
        OwnsExact(o, c, js);
      } else if d.value.Insertion? {
        ExistingTable(Empty(x), js, x);
        ExistingTable(Empty(x), [d.value, c], x);
        SameRows(Empty(x), RowsFor(js, x), RowsFor([d.value, c], x));
      }
    } else {
      OnSame(o, js, x);
      OnMembers(js, x);
      OwnsExact(o, c, On(js, x));
      if d.None? { OnAll(js, x); }
    }
  }

  /** Empty tables, with at most two names, on which a join that is not safe shows. */
  lemma NotJoinSafeNames(d: Option<Command>, c: Command, js: seq<Command>) returns (names: seq<string>)
    requires !JoinSafe(d, c, js)
    ensures |names| <= 2 && (|names| == 2 ==> names[0] != names[1])
    ensures forall x <- names :: x == c.name || (d.Some? && x == d.value.name) || exists e <- js :: e.name == x
    ensures !JoinedWell(EmptyTables(names), d, c, js)
  {
    hide TableAfter, Owns, Quiet, Empty, JoinedWell, SameAt, SucceedsOn, EmptyTables;
    var own := if MustExist(d, c) then [c.name] else [];
    var at;
    if e :| e in js && e.name != c.name && (d.Some? ==> e.name != d.value.name) {
      var there := ForeignDiffers(js, d, c, e);
      names, at := own + (if there then [e.name] else []), e.name;
      SucceedsIfThere(d, c, MustExist(d, c));
    } else if d.Some? && d.value.name != c.name && !Quiet(d.value, On(js, d.value.name)) {
      var there := PendingDiffers(js, d.value, c);
      names, at := own + (if there then [d.value.name] else []), d.value.name;
      SucceedsIfThere(d, c, MustExist(d, c));
    } else {
      var there := OwnDiffers(js, d, c);
      names, at := if there then [c.name] else [], c.name;
    }
    FewNames(names);
    LookupEmpty(names, at);
    LookupEmpty(names, c.name);
    WellTableByTable(EmptyTables(names), d, c, js);
  }

  lemma LookupEmpty(names: seq<string>, x: string)
    ensures Lookup(EmptyTables(names), x) == Maybe(x, x in names)
  {
  }

  // The text

  lemma {:induction false} EndedOfJoined(log: string, last: string)
    requires Terminated(log) && '\n' !in last
    ensures Ended(log + last) == log && Pending(log + last) == last
    decreases |last|
  {
    if last == [] {
      assert log + last == log;
    } else {
      var n := |last| - 1;
      assert (log + last)[..|log + last| - 1] == log + last[..n];
      assert (log + last)[|log + last| - 1] == last[n];
      EndedOfJoined(log, last[..n]);
    }
  }

  lemma SurvivesJoined(log: string, last: string, query: string)
    requires Terminated(log) && last != [] && '\n' !in last
    requires CommandOf(DropSemicolon(query)).Some?
    ensures var q := DropSemicolon(query);
            Survives(log + last, query) <==>
            JoinedWell(Replay(RECORDING, map[], log), CommandOf(last), CommandOf(q).value, Commands(last + (q + "\n")))
  {
    hide Replay, Apply, Run, RunAll, Commands, CommandOf, Terminated;
    var q := DropSemicolon(query);
    var base, e := Replay(RECORDING, map[], log), Started(RECORDING, log + last, true);
    EndedOfJoined(log, last);
    ExecuteExact(RECORDING, e, query, Whole);
    ReplayAppended(RECORDING, map[], log, last);
    ReplayIsRun(RECORDING, base, last);
    UnterminatedLine(last);
    ApplyIsRun(RECORDING, e.tables, q);
    ReplayIsRun(RECORDING, base, last + (q + "\n"));
  }

  /** A query executed behind a last line that is not terminated survives, whatever the log is
      before that line, if and only if the commands of the joined text do, on every table, what
      the command of that line, if it is one, and then the query do. */
  lemma UnterminatedExact(last: string, query: string)
    requires last != [] && '\n' !in last
    requires CommandOf(DropSemicolon(query)).Some?
    ensures var q := DropSemicolon(query);
            (forall log | Terminated(log) :: Survives(log + last, query)) <==>
            JoinSafe(CommandOf(last), CommandOf(q).value, Commands(last + (q + "\n")))
  {
    hide Survives, JoinedWell, JoinSafe, CommandOf, Commands, Replay, Terminated, IsTableName, Distinct, CreationLog;
    var q := DropSemicolon(query);
    var d, c, js := CommandOf(last), CommandOf(q).value, Commands(last + (q + "\n"));
    if JoinSafe(d, c, js) {
      forall log | Terminated(log) ensures Survives(log + last, query) {
        SurvivesJoined(log, last, query);
        JoinSafeIsWell(Replay(RECORDING, map[], log), d, c, js);
      }
    } else {
      CommandName(q);
      if d.Some? { CommandName(last); }
      CommandNames(last + (q + "\n"));
      var names := NotJoinSafeNames(d, c, js);
      FewNames(names);
      StartedOver(names);
      SurvivesJoined(CreationLog(names), last, query);
    }
  }

  /** A query without line ends makes one line of it: behind a line that is no command, it survives
      exactly if the joined line is the same command. */
  lemma PlainJoin(last: string, query: string)
    requires last != [] && '\n' !in last && '\n' !in query && CommandOf(last).None?
    requires CommandOf(DropSemicolon(query)).Some?
    ensures var q := DropSemicolon(query);
            (forall log | Terminated(log) :: Survives(log + last, query)) <==> CommandOf(last + q) == CommandOf(q)
  {
    hide Survives, CommandOf, Commands, Terminated;
    var q := DropSemicolon(query);
    UnterminatedExact(last, query);
    OneLine(last + q);
    assert last + (q + "\n") == last + q + "\n";
    OwnsOne(CommandOf(q).value, CommandOf(last + q));
  }

  lemma OwnsOne(c: Command, j: Option<Command>)
    ensures Owns(c, AsList(j)) <==> j == Some(c)
  {
    if j.Some? {
      assert [j.value][0] == j.value && [j.value][1..] == [];
      assert !Owns(c, []);
    }
  }
}
