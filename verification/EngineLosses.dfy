/**
 The conditions of EngineReplay are exact. With tables that record every row, a query that is
 not safe has a log after which it is lost, changed, or does more on replay than it did; and
 a command behind an unterminated line survives only if the joined line is still that command.
 */
module EngineLosses {
  import opened Wrappers
  import opened Text
  import opened Engine
  import opened EngineCommands
  import opened EngineReplay

  /** A table that records its rows and refuses none. */
  datatype Recorded = Recorded(name: string, columns: seq<string>, rows: seq<seq<string>>)

  const RECORDING: TableOps<Recorded> :=
    TableOps((name, columns) => Recorded(name, columns, []),
             (t: Recorded, row) => Some(t.(rows := t.rows + [row])))

  type Records = Tables<Recorded>

  // What commands do to one table

  function Lookup(tables: Records, x: string): Option<Recorded> {
    if x in tables then Some(tables[x]) else None
  }

  function TableAfter(t: Option<Recorded>, cs: seq<Command>, x: string): Option<Recorded>
    decreases |cs|
  {
    if cs == [] then t
    else if cs[0].name != x then TableAfter(t, cs[1..], x)
    else if cs[0].Creation? then TableAfter(if t.Some? then t else Some(Recorded(x, cs[0].items, [])), cs[1..], x)
    else TableAfter(if t.Some? then Some(t.value.(rows := t.value.rows + [cs[0].items])) else t, cs[1..], x)
  }

  lemma {:induction false} RunAllAt(tables: Records, cs: seq<Command>, x: string)
    ensures Lookup(RunAll(RECORDING, tables, cs), x) == TableAfter(Lookup(tables, x), cs, x)
    decreases |cs|
  {
    if cs != [] {
      var t := Run(RECORDING, tables, cs[0]);
      RunAllAt(if t.Some? then t.value else tables, cs[1..], x);
    }
  }

  /** The rows that the commands would add to table `x`. */
  function RowsFor(cs: seq<Command>, x: string): seq<seq<string>>
    decreases |cs|
  {
    if cs == [] then []
    else (if cs[0].Insertion? && cs[0].name == x then [cs[0].items] else []) + RowsFor(cs[1..], x)
  }

  lemma {:induction false} ExistingTable(t: Recorded, cs: seq<Command>, x: string)
    ensures TableAfter(Some(t), cs, x) == Some(t.(rows := t.rows + RowsFor(cs, x)))
    decreases |cs|
  {
    if cs == [] {
      assert t.rows + [] == t.rows;
    } else if cs[0].Insertion? && cs[0].name == x {
      ExistingTable(t.(rows := t.rows + [cs[0].items]), cs[1..], x);
      assert t.rows + [cs[0].items] + RowsFor(cs[1..], x) == t.rows + ([cs[0].items] + RowsFor(cs[1..], x));
    } else {
      ExistingTable(t, cs[1..], x);
      assert [] + RowsFor(cs[1..], x) == RowsFor(cs[1..], x);
    }
  }

  lemma {:induction false} NoRowsFor(cs: seq<Command>, x: string)
    ensures RowsFor(cs, x) == [] <==> forall d <- cs :: !(d.Insertion? && d.name == x)
    decreases |cs|
  {
    if cs != [] {
      NoRowsFor(cs[1..], x);
      assert cs == [cs[0]] + cs[1..];
    }
  }

  lemma {:induction false} NotCreated(cs: seq<Command>, x: string)
    ensures TableAfter(None, cs, x).None? <==> forall d <- cs :: !(d.Creation? && d.name == x)
    decreases |cs|
  {
    if cs != [] {
      assert cs == [cs[0]] + cs[1..];
      NotCreated(cs[1..], x);
      if cs[0].Creation? && cs[0].name == x {
        ExistingTable(Recorded(x, cs[0].items, []), cs[1..], x);
      }
    }
  }

  /** Commands that are all about the table of `c` and leave it as `c` would, are owned by `c`. */
  lemma {:induction false} SameEffectOwned(t: Option<Recorded>, c: Command, cs: seq<Command>)
    requires c.Creation? <==> t.None?
    requires forall d <- cs :: d.name == c.name
    requires TableAfter(t, cs, c.name) ==
             Some(if c.Creation? then Recorded(c.name, c.items, []) else t.value.(rows := t.value.rows + [c.items]))
    ensures Owns(c, cs)
    decreases |cs|
  {
    assert t.Some? ==> |t.value.rows + [c.items]| > |t.value.rows|;
    if cs != [] {
      var x := c.name;
      assert cs[0] in cs;
      assert forall d <- cs[1..] :: d in cs;
      if cs[0].Creation? != c.Creation? {
        SameEffectOwned(t, c, cs[1..]);
      } else {
        var made := if c.Creation? then Recorded(x, cs[0].items, [])
                    else t.value.(rows := t.value.rows + [cs[0].items]);
        ExistingTable(made, cs[1..], x);
        RowsOf(made, t, c, cs);
        NoRowsFor(cs[1..], x);
      }
    }
  }

  lemma RowsOf(made: Recorded, t: Option<Recorded>, c: Command, cs: seq<Command>)
    requires cs != [] && cs[0].Creation? == c.Creation? && cs[0].name == c.name && (c.Creation? <==> t.None?)
    requires made == if c.Creation? then Recorded(c.name, cs[0].items, [])
                     else t.value.(rows := t.value.rows + [cs[0].items])
    requires made.(rows := made.rows + RowsFor(cs[1..], c.name)) ==
             if c.Creation? then Recorded(c.name, c.items, []) else t.value.(rows := t.value.rows + [c.items])
    ensures RowsFor(cs[1..], c.name) == [] && cs[0] == c
  {
    var more := RowsFor(cs[1..], c.name);
    if c.Creation? {
      assert |[] + more| == |more|;
    } else {
      var rows := t.value.rows;
      assert |rows + [cs[0].items] + more| == |rows| + 1 + |more|;
      assert (rows + [cs[0].items])[|rows|] == cs[0].items && (rows + [c.items])[|rows|] == c.items;
      assert more == [];
      assert rows + [cs[0].items] + [] == rows + [cs[0].items];
    }
  }

  /** Commands that are not owned by `c` differ from it on some tables: none, that of `c`, or
      these and one more. */
  lemma NotOwnedDiffers(c: Command, cs: seq<Command>, base: Records, of: string -> Recorded) returns (tables: Records)
    requires !Owns(c, cs)
    requires base == if c.Creation? then map[] else map[c.name := of(c.name)]
    ensures Run(RECORDING, tables, c).Some? && RunAll(RECORDING, tables, cs) != Run(RECORDING, tables, c).value
    ensures tables == base || exists d <- cs :: d.name != c.name && tables == base[d.name := of(d.name)]
  {
    hide RunAll, TableAfter, RowsFor, Owns;
    tables := base;
    if d :| d in cs && d.name != c.name && d.Insertion? {
      tables := base[d.name := of(d.name)];
      RunAllAt(tables, cs, d.name);
      ExistingTable(of(d.name), cs, d.name);
      NoRowsFor(cs, d.name);
      var t := of(d.name);
      assert |t.rows + RowsFor(cs, d.name)| > |t.rows|;
    } else if d :| d in cs && d.name != c.name {
      RunAllAt(base, cs, d.name);
      NotCreated(cs, d.name);
    } else {
      RunAllAt(base, cs, c.name);
      if RunAll(RECORDING, base, cs) == Run(RECORDING, base, c).value {
        SameEffectOwned(Lookup(base, c.name), c, cs);
      }
    }
  }

  // Words

  lemma {:induction false} WordLengthExact(w: string, rest: string)
    requires (forall c <- w :: !IsBlank(c)) && (rest == [] || IsBlank(rest[0]))
    ensures WordLength(w + rest) == |w|
  {
    if w == [] {
      assert w + rest == rest;
    } else {
      assert w[0] in w && forall c <- w[1..] :: c in w;
      assert (w + rest)[0] == w[0] && (w + rest)[1..] == w[1..] + rest;
      WordLengthExact(w[1..], rest);
    }
  }

  lemma WordThen(w: string, rest: string, n: nat)
    requires w != [] && (forall c <- w :: !IsBlank(c)) && (rest == [] || IsBlank(rest[0]))
    ensures Word(w + rest, 0) == w && Word(w + rest, n + 1) == Word(rest, n)
  {
    var s := w + rest;
    assert w[0] in w && s[0] == w[0] && SkipBlank(s) == s;
    WordLengthExact(w, rest);
    assert s[..|w|] == w && s[|w|..] == rest;
  }

  lemma BlankThen(b: char, s: string, n: nat)
    requires IsBlank(b)
    ensures Word([b] + s, n) == Word(s, n)
  {
    assert ([b] + s)[1..] == s;
    assert SkipBlank([b] + s) == SkipBlank(s);
  }

  lemma {:induction false} SkipBlankIsSuffix(s: string)
    ensures forall c <- SkipBlank(s) :: c in s
  {
    if s != [] && IsBlank(s[0]) {
      SkipBlankIsSuffix(s[1..]);
    }
  }

  lemma {:induction false} NoBlankInWord(t: string)
    ensures forall c <- t[..WordLength(t)] :: !IsBlank(c)
  {
    if t != [] && !IsBlank(t[0]) {
      NoBlankInWord(t[1..]);
      assert t[..WordLength(t)] == [t[0]] + t[1..][..WordLength(t[1..])];
    }
  }

  lemma {:induction false} WordChars(s: string, n: nat)
    ensures forall c <- Word(s, n) :: !IsBlank(c) && c in s
    decreases n
  {
    SkipBlankIsSuffix(s);
    var t := SkipBlank(s);
    var k := WordLength(t);
    if n == 0 {
      NoBlankInWord(t);
    } else {
      WordChars(t[k..], n - 1);
    }
  }

  // Logs that create tables

  /** What can be the name of a table. */
  predicate IsTableName(name: string) {
    forall c <- name :: !IsBlank(c) && c != '('
  }

  lemma CommandName(q: string)
    requires CommandOf(q).Some?
    ensures IsTableName(CommandOf(q).value.name)
  {
    hide Find, Word, Split;
    var head := q[..Find(q, '(')];
    WordChars(head, 2);
    assert forall i | 0 <= i < |head| :: head[i] == q[i];
  }

  lemma {:induction false} CommandNames(log: string)
    ensures forall d <- Commands(log) :: IsTableName(d.name)
    decreases |log|
  {
    hide CommandOf, Find, AfterLine, IsTableName;
    if log != [] {
      var line := log[..Find(log, '\n')];
      if CommandOf(line).Some? { CommandName(line); }
      CommandNames(AfterLine(log, '\n'));
    }
  }

  function CreationText(name: string): string {
    "CREATE" + (" " + ("T" + (" " + (name + " ()"))))
  }

  function CreationItems(name: string): seq<string> {
    var c := CommandOf(CreationText(name));
    if c.Some? then c.value.items else []
  }

  /** The table that such a line makes. */
  function Empty(name: string): Recorded {
    Recorded(name, CreationItems(name), [])
  }

  lemma CreateUpper()
    ensures Upper("CREATE") == "CREATE"
  {
  }

  lemma CreationHead(name: string)
    requires IsTableName(name)
    ensures Word("CREATE" + (" " + ("T" + (" " + (name + " ")))), 2) == name
  {
    hide Word;
    var s3 := name + " ";
    var s2 := "T" + (" " + s3);
    WordThen("CREATE", " " + s2, 1);
    BlankThen(' ', s2, 1);
    assert " " + s2 == [' '] + s2 && " " + s3 == [' '] + s3;
    WordThen("T", " " + s3, 0);
    BlankThen(' ', s3, 0);
    if name == [] {
      assert s3 == [' '] + [];
      BlankThen(' ', [], 0);
      NoWord();
    } else {
      WordThen(name, " ", 0);
    }
  }

  lemma NoWord()
    ensures Word([], 0) == [] && Word([], 1) == []
  {
    assert Word([], 1) == Word([], 0);
  }

  lemma OpenedAfter(head: string)
    requires '(' !in head
    ensures var q := head + "()"; Find(q, '(') == |head| && q[..|head|] == head && Find(q, ')') < |q|
  {
    hide Find;
    var q := head + "()";
    assert q[|head|] == '(' && q[|head| + 1] == ')';
    assert forall i | 0 <= i < |head| :: q[i] == head[i];
  }

  lemma CreationCommand(name: string)
    requires IsTableName(name)
    ensures LineCommands(CreationText(name)) == [Creation(name, CreationItems(name))]
    ensures '\n' !in CreationText(name)
  {
    hide Word, Find, Split, Upper, Between;
    var head := "CREATE" + (" " + ("T" + (" " + (name + " "))));
    assert CreationText(name) == head + "()";
    CreationHead(name);
    assert '(' !in head;
    OpenedAfter(head);
    WordThen("CREATE", " " + ("T" + (" " + (name + " ()"))), 0);
    CreateUpper();
  }

  function CreationLog(names: seq<string>): string {
    if names == [] then "" else CreationText(names[0]) + ("\n" + CreationLog(names[1..]))
  }

  predicate Distinct(names: seq<string>) {
    names == [] || (names[0] !in names[1..] && Distinct(names[1..]))
  }

  ghost function EmptyTables(names: seq<string>): Records {
    map x | x in names :: Empty(x)
  }

  lemma {:induction false} CreationLogTerminated(names: seq<string>)
    ensures Terminated(CreationLog(names))
    decreases |names|
  {
    hide CreationText;
    if names != [] {
      CreationLogTerminated(names[1..]);
      var text, rest := CreationText(names[0]), CreationLog(names[1..]);
      assert CreationLog(names)[|text|] == '\n';
    }
  }

  lemma CreationRuns(x: string, tables: Records, cs: seq<Command>)
    requires x !in tables
    ensures RunAll(RECORDING, tables, [Creation(x, CreationItems(x))] + cs) ==
            RunAll(RECORDING, tables[x := Empty(x)], cs)
  {
    hide CreationItems;
    assert ([Creation(x, CreationItems(x))] + cs)[1..] == cs;
  }

  lemma NoTables(tables: Records)
    ensures tables + EmptyTables([]) == tables
  {
  }

  lemma EmptyTablesStep(names: seq<string>, tables: Records)
    requires names != []
    ensures tables[names[0] := Empty(names[0])] + EmptyTables(names[1..]) == tables + EmptyTables(names)
  {
    hide Empty;
    assert forall x :: x in names <==> x == names[0] || x in names[1..];
  }

  /** Such a log creates the named tables, and they are empty. */
  lemma {:induction false} CreationLogRuns(names: seq<string>, tables: Records)
    requires forall x <- names :: IsTableName(x) && x !in tables
    requires Distinct(names)
    ensures RunAll(RECORDING, tables, Commands(CreationLog(names))) == tables + EmptyTables(names)
    decreases |names|
  {
    hide Commands, IsTableName, CreationText, Empty, RunAll, LineCommands, EmptyTables;
    if names == [] {
      NoCommands();
      RunNothing(RECORDING, tables);
      NoTables(tables);
    } else {
      var x, rest := names[0], names[1..];
      CreationCommand(x);
      CommandsLine(CreationText(x), CreationLog(rest));
      CreationRuns(x, tables, Commands(CreationLog(rest)));
      EmptyTablesStep(names, tables);
      CreationLogRuns(rest, tables[x := Empty(x)]);
    }
  }

  /** A start over such a log. */
  lemma StartedOver(names: seq<string>)
    requires forall x <- names :: IsTableName(x)
    requires Distinct(names)
    ensures Terminated(CreationLog(names))
    ensures Replay(RECORDING, map[], CreationLog(names)) == EmptyTables(names)
  {
    hide Replay, IsTableName, EmptyTables;
    CreationLogTerminated(names);
    CreationLogRuns(names, map[]);
    ReplayIsRun(RECORDING, map[], CreationLog(names));
    assert map[] + EmptyTables(names) == EmptyTables(names);
  }

  // Exactness

  /** Started over this log, the engine can execute the query and still recovers its tables. */
  ghost predicate Survives(log: string, query: string) {
    Recovers(RECORDING, Execute(RECORDING, Started(RECORDING, log, true), query, Whole))
  }

  /** No name, one name, or two different ones. */
  lemma FewNames(names: seq<string>)
    requires |names| <= 2 && (|names| == 2 ==> names[0] != names[1])
    ensures Distinct(names)
    ensures EmptyTables(names) ==
            if |names| == 0 then map[]
            else if |names| == 1 then map[names[0] := Empty(names[0])]
            else map[names[0] := Empty(names[0]), names[1] := Empty(names[1])]
  {
    hide Empty;
    if |names| == 2 {
      assert names[1..] == [names[1]] && names[1..][1..] == [];
      assert names == [names[0], names[1]];
    } else if |names| == 1 {
      assert names[1..] == [] && names == [names[0]];
    }
  }

  /** A log that brings out the difference between a command and commands it does not own. */
  lemma NotOwnedLog(c: Command, cs: seq<Command>) returns (log: string)
    requires !Owns(c, cs) && IsTableName(c.name) && forall d <- cs :: IsTableName(d.name)
    ensures Terminated(log)
    ensures var tables := Replay(RECORDING, map[], log);
            Run(RECORDING, tables, c).Some? && RunAll(RECORDING, tables, cs) != Run(RECORDING, tables, c).value
  {
    hide Replay, Run, RunAll, Owns, IsTableName, Empty, EmptyTables, Distinct, CreationLog, Terminated;
    var names := if c.Creation? then [] else [c.name];
    FewNames(names);
    var tables := NotOwnedDiffers(c, cs, EmptyTables(names), Empty);
    if tables != EmptyTables(names) {
      var d :| d in cs && d.name != c.name && tables == EmptyTables(names)[d.name := Empty(d.name)];
      names := names + [d.name];
      FewNames(names);
    }
    log := CreationLog(names);
    StartedOver(names);
  }

  lemma UnsafeIsLost(query: string) returns (log: string)
    requires !Safe(query)
    ensures Terminated(log) && !Survives(log, query)
  {
    hide Apply, Replay, Run, RunAll, Owns, CommandOf, Commands, IsTableName;
    var q := DropSemicolon(query);
    var c, cs := CommandOf(q).value, Commands(q + "\n");
    CommandName(q);
    CommandNames(q + "\n");
    log := NotOwnedLog(c, cs);
    var e := Started(RECORDING, log, true);
    ApplyIsRun(RECORDING, e.tables, q);
    ReplayIsRun(RECORDING, e.tables, q + "\n");
    ExecuteExactTerminated(RECORDING, e, query, Whole);
    LogTerminated(log, query);
  }

  lemma LogTerminated(log: string, query: string)
    requires Terminated(log)
    ensures Terminated(Execute(RECORDING, Started(RECORDING, log, true), query, Whole).log)
  {
    hide Apply, Replay;
    var q := DropSemicolon(query);
    assert (log + (q + "\n"))[|log| + |q|] == '\n';
  }

  /** The condition on the text of a query is exact: it is executed without loss after every log
      whose last line is terminated, if and only if its lines are still that one command. */
  lemma SafeExact(query: string)
    ensures (forall log | Terminated(log) :: Survives(log, query)) <==> Safe(query)
  {
    hide Safe, Replay, Terminated;
    if Safe(query) {
      forall log | Terminated(log) ensures Survives(log, query) {
        SafeExecute(RECORDING, Started(RECORDING, log, true), query, Whole);
      }
    } else {
      var log := UnsafeIsLost(query);
    }
  }

  // Behind an unterminated line

  lemma UnterminatedLine(last: string)
    requires last != [] && '\n' !in last
    ensures Commands(last) == LineCommands(last)
  {
    hide LineCommands, Find;
    assert Find(last, '\n') == |last| && last[..|last|] == last;
    assert LineCommands(last) + [] == LineCommands(last);
  }

  // Examples of each kind of loss, for tables of any type

  lemma InsertUpper()
    ensures Upper("INSERT") == "INSERT" && Upper("()") == "()"
  {
  }

  /** `CREATE ()` and `INSERT ()`, with any white space and anything behind them. */
  lemma BareCommand(word: string, b: char, rest: string)
    requires (word == "CREATE" || word == "INSERT") && IsBlank(b)
    ensures CommandOf(word + ([b] + ("()" + rest))) ==
            Some(if word == "CREATE" then Creation("", []) else Insertion("", []))
  {
    hide Upper, Word, Find;
    var q := word + ([b] + ("()" + rest));
    CreateUpper();
    InsertUpper();
    WordThen(word, [b] + ("()" + rest), 0);
    ParensAt(q);
    var head := word + [b];
    assert q[..7] == head;
    WordThen(word, [b], 1);
    assert [b] == [b] + [];
    BlankThen(b, [], 1);
    NoWord();
    assert Between(q, 7, 8) == [];
  }

  lemma ParensAt(q: string)
    requires |q| >= 9 && q[7] == '(' && q[8] == ')'
    requires forall i | 0 <= i < 7 :: q[i] != '(' && q[i] != ')'
    ensures Find(q, '(') == 7 && Find(q, ')') == 8
  {
    hide Find;
    var n, m := Find(q, '('), Find(q, ')');
  }

  lemma NoCommandHere()
    ensures CommandOf("CREATE").None? && CommandOf("()").None?
  {
    hide Upper, Word;
    InsertUpper();
    WordThen("()", "", 0);
    assert "()" + "" == "()";
    assert Find("CREATE", '(') == 6;
  }

  /** A command with a line end in it is logged as two lines, neither of which is a command. */
  lemma LineEndLosesTable<T>(ops: TableOps<T>)
    ensures var e := Execute(ops, Started(ops, "", true), "CREATE\n()", Whole);
            "" in e.tables && Replay(ops, map[], e.log) == map[]
  {
    hide CommandOf, Apply, Replay, Commands;
    var q := "CREATE\n()";
    assert q == "CREATE" + (['\n'] + ("()" + ""));
    BareCommand("CREATE", '\n', "");
    NoCommandHere();
    CommandsLine("CREATE", "()" + ("\n" + ""));
    CommandsLine("()", "");
    assert q + "\n" == "CREATE" + ("\n" + ("()" + ("\n" + "")));
    ReplayNothing(ops);
    ApplyIsRun(ops, map[], q);
    ReplayIsRun(ops, map[], "" + (q + "\n"));
    assert "" + (q + "\n") == q + "\n";
    NoCommands();
  }

  lemma ReplayNothing<T>(ops: TableOps<T>)
    ensures Replay(ops, map[], "") == map[]
  {
  }

  lemma BareRuns<T>(ops: TableOps<T>, t: T)
    requires ops.insert(ops.make("", []), []) == Some(t)
    ensures Run(ops, map[], Creation("", [])) == Some(map["" := ops.make("", [])])
    ensures Run(ops, map["" := ops.make("", [])], Insertion("", [])) == Some(map["" := t])
    ensures RunAll(ops, map[], [Creation("", [])]) == map["" := ops.make("", [])]
    ensures RunAll(ops, map[], [Creation("", []), Insertion("", [])]) == map["" := t]
  {
    var made := map["" := ops.make("", [])];
    assert made["" := t] == map["" := t];
    var cs := [Creation("", []), Insertion("", [])];
    assert cs[1..] == [Insertion("", [])] && cs[1..][1..] == [] && [Creation("", [])][1..] == [];
  }

  /** A creation with a second line behind it: replay inserts a row that nobody inserted. */
  lemma LineEndAddsRow<T>(ops: TableOps<T>, t: T)
    requires ops.insert(ops.make("", []), []) == Some(t)
    ensures var e := Execute(ops, Started(ops, "", true), "CREATE ()\nINSERT ()", Whole);
            e.tables == map["" := ops.make("", [])] && Replay(ops, map[], e.log) == map["" := t]
  {
    hide CommandOf, Apply, Replay, Run, RunAll;
    var q := "CREATE ()\nINSERT ()";
    assert q == "CREATE" + ([' '] + ("()" + "\nINSERT ()"));
    BareCommand("CREATE", ' ', "\nINSERT ()");
    BareLines();
    BareRuns(ops, t);
    ReplayNothing(ops);
    ApplyIsRun(ops, map[], q);
    ReplayIsRun(ops, map[], "" + (q + "\n"));
    assert "" + (q + "\n") == q + "\n";
  }

  lemma BareLines()
    ensures Commands("CREATE ()\nINSERT ()" + "\n") == [Creation("", []), Insertion("", [])]
  {
    hide CommandOf, Commands;
    BareCommand("CREATE", ' ', "");
    BareCommand("INSERT", ' ', "");
    assert "CREATE ()" == "CREATE" + ([' '] + ("()" + "")) && "INSERT ()" == "INSERT" + ([' '] + ("()" + ""));
    CommandsLine("CREATE ()", "INSERT ()" + ("\n" + ""));
    CommandsLine("INSERT ()", "");
    NoCommands();
    assert "CREATE ()\nINSERT ()" + "\n" == "CREATE ()" + ("\n" + ("INSERT ()" + ("\n" + "")));
  }

  /** A line end at the end of a command does no harm. */
  lemma TrailingLineEndIsSafe()
    ensures Safe("CREATE ()\n")
  {
    hide CommandOf, Commands;
    var q := "CREATE ()\n";
    BareCommand("CREATE", ' ', "\n");
    BareCommand("CREATE", ' ', "");
    assert q == "CREATE" + ([' '] + ("()" + "\n")) && "CREATE ()" == "CREATE" + ([' '] + ("()" + ""));
    CommandsLine("CREATE ()", "" + ("\n" + ""));
    CommandsLine("", "");
    NoCommands();
    EmptyLine();
    assert q + "\n" == "CREATE ()" + ("\n" + ("" + ("\n" + "")));
    var cs := Commands(q + "\n");
    assert cs == [Creation("", [])] && cs[1..] == [];
  }

  /** An insertion into the table that a pending line creates is lost. */
  lemma UnterminatedLogLosesRow<T>(ops: TableOps<T>, t: T)
    requires ops.insert(ops.make("", []), []) == Some(t)
    ensures var e := Execute(ops, Started(ops, "CREATE ()", true), "INSERT ()", Whole);
            e.tables == map["" := t] && Replay(ops, map[], e.log) == map["" := ops.make("", [])]
  {
    hide CommandOf, Apply, Replay, Run, RunAll, Commands;
    BareCommand("CREATE", ' ', "");
    BareCommand("CREATE", ' ', "INSERT ()");
    BareCommand("INSERT", ' ', "");
    var line, q := "CREATE ()", "INSERT ()";
    assert line == "CREATE" + ([' '] + ("()" + "")) && q == "INSERT" + ([' '] + ("()" + ""));
    assert line + q == "CREATE" + ([' '] + ("()" + "INSERT ()"));
    UnterminatedLine(line);
    OneLine(line + q);
    BareRuns(ops, t);
    ReplayIsRun(ops, map[], line);
    ApplyIsRun(ops, map["" := ops.make("", [])], q);
    ReplayIsRun(ops, map[], line + (q + "\n"));
    assert line + (q + "\n") == line + q + "\n";
  }
}
