/** When the log of the engine rebuilds its tables, command by command and over whole runs. */
module EngineReplay {
  import opened Sequences
  import opened Engine
  import opened EngineCommands

  /** A restart would rebuild the tables. */
  ghost predicate Recovers<T>(ops: TableOps<T>, e: State<T>) {
    Replay(ops, map[], e.log) == e.tables
  }

  ghost predicate Faithful<T>(ops: TableOps<T>, e: State<T>) {
    Terminated(e.log) && Recovers(ops, e)
  }

  /** Exactly when a command keeps the tables recoverable, whatever of its line came to the log: it
      fails, or what came, joined to the pending line of the log if there is one, replays to what
      the command did. */
  lemma ExecuteExact<T>(ops: TableOps<T>, e: State<T>, query: string, write: LineWrite)
    requires Recovers(ops, e)
    ensures var q := DropSemicolon(query);
            var t := Apply(ops, e.tables, q);
            var base := Replay(ops, map[], Ended(e.log));
            Recovers(ops, Execute(ops, e, query, write)) <==>
            t.None? || Replay(ops, base, Pending(e.log) + Logged(e, q, write)) == t.value
  {
    hide Replay, Apply, Logged;
    ReplayAppended(ops, map[], e.log, Logged(e, DropSemicolon(query), write));
  }

  /** So a command of which nothing came to the log is lost, unless it did nothing. */
  lemma NothingLogged<T>(ops: TableOps<T>, e: State<T>, query: string, write: LineWrite)
    requires Recovers(ops, e) && Logged(e, DropSemicolon(query), write) == ""
    ensures var t := Apply(ops, e.tables, DropSemicolon(query));
            Recovers(ops, Execute(ops, e, query, write)) <==> t.None? || t.value == e.tables
  {
    hide Replay, Apply, Logged;
    assert e.log + "" == e.log;
  }

  /** The same for a log whose last line is terminated. */
  lemma ExecuteExactTerminated<T>(ops: TableOps<T>, e: State<T>, query: string, write: LineWrite)
    requires Faithful(ops, e) && e.writable && write.Whole?
    ensures var q := DropSemicolon(query);
            var t := Apply(ops, e.tables, q);
            Faithful(ops, Execute(ops, e, query, write)) <==> t.None? || Replay(ops, e.tables, q + "\n") == t.value
  {
    hide Replay, Apply;
    var q := DropSemicolon(query);
    ReplayAppended(ops, map[], e.log, q + "\n");
    assert (e.log + (q + "\n"))[|e.log| + |q|] == '\n';
  }

  // The condition on the text of a command

  /** Among the commands `cs` one is `c` itself, and the others, being about the same table, fail
      whenever `c` succeeds: before it only commands of the other kind, after it only creations. */
  predicate Owns(c: Command, cs: seq<Command>)
    decreases |cs|
  {
    && cs != [] && cs[0].name == c.name
    && if cs[0].Creation? == c.Creation? then
         cs[0] == c && forall d <- cs[1..] :: d.Creation? && d.name == c.name
       else
         Owns(c, cs[1..])
  }

  lemma {:induction false} OwnsRuns<T>(ops: TableOps<T>, tables: Tables<T>, c: Command, cs: seq<Command>)
    requires Owns(c, cs) && Run(ops, tables, c).Some?
    ensures RunAll(ops, tables, cs) == Run(ops, tables, c).value
    decreases |cs|
  {
    if cs[0].Creation? == c.Creation? {
      CreationsFail(ops, Run(ops, tables, c).value, c.name, cs[1..]);
    } else {
      OwnsRuns(ops, tables, c, cs[1..]);
    }
  }

  lemma {:induction false} CreationsFail<T>(ops: TableOps<T>, tables: Tables<T>, name: string, cs: seq<Command>)
    requires name in tables && forall d <- cs :: d.Creation? && d.name == name
    ensures RunAll(ops, tables, cs) == tables
    decreases |cs|
  {
    if cs != [] {
      assert cs[0] in cs;
      CreationsFail(ops, tables, name, cs[1..]);
    }
  }

  /** A query whose text, split into lines, is still that one command. */
  predicate Safe(query: string) {
    var q := DropSemicolon(query);
    CommandOf(q).None? || Owns(CommandOf(q).value, Commands(q + "\n"))
  }

  lemma SafeExecute<T>(ops: TableOps<T>, e: State<T>, query: string, write: LineWrite)
    requires Faithful(ops, e) && e.writable && Safe(query) && write.Whole?
    ensures Faithful(ops, Execute(ops, e, query, write)) && Execute(ops, e, query, write).writable
  {
    hide Replay, Apply, RunAll, Run, Owns, Commands, CommandOf;
    var q := DropSemicolon(query);
    ExecuteExactTerminated(ops, e, query, write);
    ApplyIsRun(ops, e.tables, q);
    if Apply(ops, e.tables, q).Some? {
      OwnsRuns(ops, e.tables, CommandOf(q).value, Commands(q + "\n"));
      ReplayIsRun(ops, e.tables, q + "\n");
    }
  }

  /** Queries without line ends are safe. */
  lemma PlainIsSafe(query: string)
    requires '\n' !in query
    ensures Safe(query)
  {
    hide CommandOf, Commands;
    var q := DropSemicolon(query);
    OneLine(q);
    var c := CommandOf(q);
    if c.Some? {
      assert [c.value][1..] == [];
    }
  }

  // Runs

  datatype Step = Issue(query: string, write: LineWrite) | Restart(writable: bool)

  function After<T>(ops: TableOps<T>, e: State<T>, s: Step): State<T> {
    match s
    case Issue(query, write) => Execute(ops, e, query, write)
    case Restart(writable) => Started(ops, e.log, writable)
  }

  function AfterAll<T>(ops: TableOps<T>, e: State<T>, steps: seq<Step>): State<T>
    decreases |steps|
  {
    if steps == [] then e else AfterAll(ops, After(ops, e, steps[0]), steps[1..])
  }

  /** Safe queries whose lines are written whole, and restarts that get hold of the log. */
  ghost predicate SafeSteps(steps: seq<Step>) {
    forall s <- steps :: if s.Issue? then Safe(s.query) && s.write.Whole? else s.writable
  }

  /** After any safe queries, and any restarts between them, the log replays to exactly the
      tables in memory, so that a restart at any point changes nothing. */
  lemma {:induction false} ReplayCorrect<T>(ops: TableOps<T>, e: State<T>, steps: seq<Step>)
    requires Faithful(ops, e) && e.writable && SafeSteps(steps)
    ensures Faithful(ops, AfterAll(ops, e, steps)) && AfterAll(ops, e, steps).writable
    ensures After(ops, AfterAll(ops, e, steps), Restart(true)) == AfterAll(ops, e, steps)
    decreases |steps|
  {
    hide Replay, Execute, Safe;
    if steps != [] {
      assert steps[0] in steps;
      if steps[0].Issue? {
        SafeExecute(ops, e, steps[0].query, steps[0].write);
      }
      ReplayCorrect(ops, After(ops, e, steps[0]), steps[1..]);
    }
  }

  /** The lines of the queries that succeed in a run, one after the other. */
  function SuccessLines<T>(ops: TableOps<T>, e: State<T>, steps: seq<Step>): string
    decreases |steps|
  {
    if steps == [] then ""
    else
      var s := steps[0];
      (if s.Issue? && Apply(ops, e.tables, DropSemicolon(s.query)).Some? then DropSemicolon(s.query) + "\n" else "")
      + SuccessLines(ops, After(ops, e, s), steps[1..])
  }

  /** Failed commands, queries and restarts leave no trace: a run adds to the log exactly the
      lines of the commands that succeed, and the tables at its end are the replay of those. */
  lemma {:induction false} OnlySuccessesTraced<T>(ops: TableOps<T>, e: State<T>, steps: seq<Step>)
    requires Faithful(ops, e) && e.writable && SafeSteps(steps)
    ensures AfterAll(ops, e, steps) == Started(ops, e.log + SuccessLines(ops, e, steps), true)
    decreases |steps|
  {
    hide Replay, Apply, Safe;
    if steps != [] {
      assert steps[0] in steps;
      if steps[0].Issue? {
        SafeExecute(ops, e, steps[0].query, steps[0].write);
      }
      var f := After(ops, e, steps[0]);
      OnlySuccessesTraced(ops, f, steps[1..]);
      var rest := SuccessLines(ops, f, steps[1..]);
      if steps[0].Issue? && Apply(ops, e.tables, DropSemicolon(steps[0].query)).Some? {
        Associative(e.log, DropSemicolon(steps[0].query) + "\n", rest);
      } else {
        assert "" + rest == rest;
      }
    } else {
      assert e.log + "" == e.log;
    }
  }

  /** From an empty log: the tables after any safe run are the replay of its successful lines. */
  lemma RunsFromNothing<T>(ops: TableOps<T>, steps: seq<Step>)
    requires SafeSteps(steps)
    ensures var e := Started(ops, "", true);
            AfterAll(ops, e, steps) == Started(ops, SuccessLines(ops, e, steps), true)
  {
    hide Replay, Safe, AfterAll, SuccessLines;
    var e := Started(ops, "", true);
    OnlySuccessesTraced(ops, e, steps);
    assert "" + SuccessLines(ops, e, steps) == SuccessLines(ops, e, steps);
  }
}
