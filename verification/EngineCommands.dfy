/**
 The log of the engine as a sequence of commands: which lines are commands at all, and what
 running them does. Replay of a log is the run of its commands.
 */
module EngineCommands {
  import opened Wrappers
  import opened Text
  import opened Sequences
  import opened Engine

  datatype Command = Creation(name: string, items: seq<string>) | Insertion(name: string, items: seq<string>)

  /** The command that a text is, if it is one. */
  function CommandOf(q: string): Option<Command> {
    var word, open, close := Upper(Word(q, 0)), Find(q, '('), Find(q, ')');
    if (word != "CREATE" && word != "INSERT") || open == |q| || close == |q| then None
    else
      var name, items := Word(q[..open], 2), Split(Between(q, open, close), ',');
      Some(if word == "CREATE" then Creation(name, items) else Insertion(name, items))
  }

  /** The new tables, or None if the command throws. */
  function Run<T>(ops: TableOps<T>, tables: Tables<T>, c: Command): Option<Tables<T>> {
    match c
    case Creation(name, columns) =>
      if name in tables then None else Some(tables[name := ops.make(name, columns)])
    case Insertion(name, values) =>
      if name !in tables then None
      else
        var t := ops.insert(tables[name], values);
        if t.None? then None else Some(tables[name := t.value])
  }

  function RunAll<T>(ops: TableOps<T>, tables: Tables<T>, cs: seq<Command>): Tables<T>
    decreases |cs|
  {
    if cs == [] then tables
    else
      var t := Run(ops, tables, cs[0]);
      RunAll(ops, if t.Some? then t.value else tables, cs[1..])
  }

  /** A line as a sequence of at most one command. */
  function LineCommands(line: string): seq<Command> {
    var c := CommandOf(line);
    if c.Some? then [c.value] else []
  }

  /** The commands among the lines of a log. */
  function Commands(log: string): seq<Command>
    decreases |log|
  {
    if log == [] then []
    else LineCommands(log[..Find(log, '\n')]) + Commands(AfterLine(log, '\n'))
  }

  lemma ApplyIsRun<T>(ops: TableOps<T>, tables: Tables<T>, q: string)
    ensures Apply(ops, tables, q) ==
            if CommandOf(q).Some? then Run(ops, tables, CommandOf(q).value) else None
  {
    hide Word, Find, Split, Upper;
  }

  lemma LineIsRun<T>(ops: TableOps<T>, tables: Tables<T>, line: string)
    ensures RunAll(ops, tables, LineCommands(line)) ==
            if line == [] then tables else ApplyOrKeep(ops, tables, line)
  {
    hide CommandOf, Apply;
    ApplyIsRun(ops, tables, line);
    EmptyLine();
    var c := CommandOf(line);
    if c.Some? {
      assert [c.value][1..] == [];
    }
  }

  lemma EmptyLine()
    ensures CommandOf("").None?
  {
  }

  lemma {:induction false} RunAllConcat<T>(ops: TableOps<T>, tables: Tables<T>, a: seq<Command>, b: seq<Command>)
    ensures RunAll(ops, tables, a + b) == RunAll(ops, RunAll(ops, tables, a), b)
    decreases |a|
  {
    hide Run;
    if a == [] {
      assert a + b == b;
    } else {
      assert (a + b)[0] == a[0] && (a + b)[1..] == a[1..] + b;
      var t := Run(ops, tables, a[0]);
      RunAllConcat(ops, if t.Some? then t.value else tables, a[1..], b);
    }
  }

  lemma {:induction false} ReplayIsRun<T>(ops: TableOps<T>, tables: Tables<T>, log: string)
    ensures Replay(ops, tables, log) == RunAll(ops, tables, Commands(log))
    decreases |log|
  {
    hide Find, AfterLine, LineCommands, ApplyOrKeep, RunAll;
    if log == [] {
      assert RunAll(ops, tables, []) == tables by { RunNothing(ops, tables); }
    } else {
      var line, rest := log[..Find(log, '\n')], AfterLine(log, '\n');
      LineIsRun(ops, tables, line);
      RunAllConcat(ops, tables, LineCommands(line), Commands(rest));
      ReplayIsRun(ops, RunAll(ops, tables, LineCommands(line)), rest);
    }
  }

  lemma RunNothing<T>(ops: TableOps<T>, tables: Tables<T>)
    ensures RunAll(ops, tables, []) == tables
  {
  }

  // Taking a log apart

  /** Empty, or ending with a line end. */
  predicate Terminated(log: string) {
    log == [] || log[|log| - 1] == '\n'
  }

  /** The log up to its last line end. */
  function Ended(log: string): (w: string)
    ensures w <= log && Terminated(w)
    ensures '\n' !in log[|w|..]
  {
    if Terminated(log) then log else Ended(log[..|log| - 1])
  }

  /** What stands behind the last line end. */
  function Pending(log: string): string {
    log[|Ended(log)|..]
  }

  lemma FindInPrefix(a: string, b: string, c: char)
    requires c in a
    ensures Find(a + b, c) == Find(a, c) < |a|
  {
    hide Find;
    var n, m := Find(a, c), Find(a + b, c);
    var i :| 0 <= i < |a| && a[i] == c;
    assert n <= i;
    assert (a + b)[n] == c;
    assert forall j | 0 <= j < n :: (a + b)[j] == a[j];
  }

  lemma FindAtEnd(q: string, c: char)
    requires c !in q
    ensures Find(q + [c], c) == |q|
  {
    hide Find;
    var s := q + [c];
    assert s[|q|] == c;
    assert forall i | 0 <= i < |q| :: s[i] == q[i];
  }

  /** Taking one line off the log. */
  lemma CommandsLine(line: string, rest: string)
    requires '\n' !in line
    ensures Commands(line + ("\n" + rest)) == LineCommands(line) + Commands(rest)
  {
    hide LineCommands, Find;
    var log := line + ("\n" + rest);
    assert log == (line + ['\n']) + rest;
    FindAtEnd(line, '\n');
    assert '\n' in line + ['\n'] by { assert (line + ['\n'])[|line|] == '\n'; }
    FindInPrefix(line + ['\n'], rest, '\n');
    assert log[..|line|] == line && log[|line| + 1..] == rest;
  }

  lemma {:induction false} CommandsConcat(log: string, more: string)
    requires Terminated(log)
    ensures Commands(log + more) == Commands(log) + Commands(more)
    decreases |log|
  {
    hide LineCommands, Find, Commands;
    if log == [] {
      assert log + more == more;
      assert Commands([]) == [] by { NoCommands(); }
    } else {
      var n := Find(log, '\n');
      assert n < |log| by { assert log[|log| - 1] == '\n'; }
      var line, rest := log[..n], log[n + 1..];
      assert log == line + ("\n" + rest);
      assert log + more == line + ("\n" + (rest + more));
      CommandsLine(line, rest);
      CommandsLine(line, rest + more);
      assert rest != [] ==> rest[|rest| - 1] == log[|log| - 1];
      CommandsConcat(rest, more);
      Associative(LineCommands(line), Commands(rest), Commands(more));
    }
  }

  lemma NoCommands()
    ensures Commands([]) == []
  {
  }

  /** A text without line ends, as a line of the log. */
  lemma OneLine(q: string)
    requires '\n' !in q
    ensures Commands(q + "\n") == LineCommands(q)
  {
    hide LineCommands, Commands;
    CommandsLine(q, "");
    NoCommands();
    assert q + ("\n" + "") == q + "\n";
    assert LineCommands(q) + [] == LineCommands(q);
  }

  /** What is appended to a log replays after what it holds, joined to its pending line. */
  lemma ReplayAppended<T>(ops: TableOps<T>, tables: Tables<T>, log: string, more: string)
    ensures Replay(ops, tables, log + more) == Replay(ops, Replay(ops, tables, Ended(log)), Pending(log) + more)
    ensures Terminated(log) ==> Replay(ops, tables, log + more) == Replay(ops, Replay(ops, tables, log), more)
  {
    hide Replay, Commands, RunAll, Terminated;
    var whole, rest := Ended(log), Pending(log) + more;
    assert log + more == whole + rest;
    CommandsConcat(whole, rest);
    ReplayIsRun(ops, tables, log + more);
    ReplayIsRun(ops, tables, whole);
    ReplayIsRun(ops, Replay(ops, tables, whole), rest);
    RunAllConcat(ops, tables, Commands(whole), Commands(rest));
    if Terminated(log) {
      NothingPending(log);
      assert [] + more == more;
    }
  }

  lemma NothingPending(log: string)
    requires Terminated(log)
    ensures Ended(log) == log && Pending(log) == []
  {
  }
}
