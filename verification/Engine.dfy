/**
 The command-log engine: commands change tables in memory and, once they have succeeded, are
 appended to a text log that is replayed at start. Tables are of any type, with a constructor
 and an insertion that may throw.
 */
module Engine {
  import opened Wrappers
  import opened Text
  import opened Sequences

  datatype TableOps<!T> = TableOps(make: (string, seq<string>) -> T, insert: (T, seq<string>) -> Option<T>)

  type Tables<T> = map<string, T>

  // Text

  /** std::string::find for one character; the length if there is none. */
  function Find(s: string, c: char): (n: nat)
    ensures n <= |s|
    ensures n < |s| ==> s[n] == c
    ensures forall i | 0 <= i < n :: s[i] != c
  {
    if s == [] || s[0] == c then 0 else 1 + Find(s[1..], c)
  }

  /** White space of a stream. */
  predicate IsBlank(c: char) {
    c == ' ' || c == '\t' || c == '\n' || c == 11 as char || c == 12 as char || c == '\r'
  }

  function SkipBlank(s: string): (r: string)
    ensures |r| <= |s|
  {
    if s == [] || !IsBlank(s[0]) then s else SkipBlank(s[1..])
  }

  /** The length of the word at the start of `s`. */
  function WordLength(s: string): (n: nat)
    ensures n <= |s|
  {
    if s == [] || IsBlank(s[0]) then 0 else 1 + WordLength(s[1..])
  }

  /** Word number `n`, counted from zero, as a stream extracts it; empty if there is none. */
  function Word(s: string, n: nat): string
    decreases n
  {
    var t := SkipBlank(s);
    var k := WordLength(t);
    if n == 0 then t[..k] else Word(t[k..], n - 1)
  }

  predicate IsTrimmed(c: char) { c == ' ' || c == '\t' || c == '\n' || c == '\r' }

  function TrimLeft(s: string): (r: string)
    ensures |r| <= |s|
  {
    if s == [] || !IsTrimmed(s[0]) then s else TrimLeft(s[1..])
  }

  function TrimRight(s: string): (r: string)
    ensures |r| <= |s|
  {
    if s == [] || !IsTrimmed(s[|s| - 1]) then s else TrimRight(s[..|s| - 1])
  }

  function Trim(s: string): string {
    TrimRight(TrimLeft(s))
  }

  /** What std::getline leaves after taking a line that ends with `c`. */
  function AfterLine(s: string, c: char): (r: string)
    ensures s != [] ==> |r| < |s|
  {
    var n := Find(s, c);
    if n < |s| then s[n + 1..] else []
  }

  /** DatabaseEngine::split: trimmed pieces, without the empty ones. */
  function Split(s: string, c: char): seq<string>
    decreases |s|
  {
    if s == [] then []
    else
      var piece := Trim(s[..Find(s, c)]);
      (if piece == [] then [] else [piece]) + Split(AfterLine(s, c), c)
  }

  // Commands

  /** query.substr(open + 1, close - open - 1), where the length wraps to the whole rest if the
      closing parenthesis comes first. */
  function Between(q: string, open: nat, close: nat): string
    requires open < |q| && close < |q| && open != close
  {
    if close < open then q[open + 1..] else q[open + 1..close]
  }

  function InternalCreate<T>(ops: TableOps<T>, tables: Tables<T>, q: string): Option<Tables<T>> {
    var open, close := Find(q, '('), Find(q, ')');
    if open == |q| || close == |q| then None
    else
      var name := Word(q[..open], 2);
      if name in tables then None
      else Some(tables[name := ops.make(name, Split(Between(q, open, close), ','))])
  }

  function InternalInsert<T>(ops: TableOps<T>, tables: Tables<T>, q: string): Option<Tables<T>> {
    var open, close := Find(q, '('), Find(q, ')');
    if open == |q| || close == |q| then None
    else
      var name := Word(q[..open], 2);
      if name !in tables then None
      else
        var t := ops.insert(tables[name], Split(Between(q, open, close), ','));
        if t.None? then None else Some(tables[name := t.value])
  }

  /** The new tables, or None if the command throws or changes nothing. */
  function Apply<T>(ops: TableOps<T>, tables: Tables<T>, q: string): Option<Tables<T>> {
    var command := Upper(Word(q, 0));
    if command == "CREATE" then InternalCreate(ops, tables, q)
    else if command == "INSERT" then InternalInsert(ops, tables, q)
    else None
  }

  function ApplyOrKeep<T>(ops: TableOps<T>, tables: Tables<T>, q: string): Tables<T> {
    var t := Apply(ops, tables, q);
    if t.Some? then t.value else tables
  }

  /** DatabaseEngine::recover on the log text; empty lines are passed over. */
  function Replay<T>(ops: TableOps<T>, tables: Tables<T>, log: string): Tables<T>
    decreases |log|
  {
    if log == [] then tables
    else
      var line := log[..Find(log, '\n')];
      Replay(ops, if line == [] then tables else ApplyOrKeep(ops, tables, line), AfterLine(log, '\n'))
  }

  function DropSemicolon(q: string): string {
    if q != [] && q[|q| - 1] == ';' then q[..|q| - 1] else q
  }

  /** How much of a line reaches the log; a write that is cut leaves a stream that takes nothing
      until the next start, and nobody looks at its error bits. */
  datatype LineWrite = Whole | Cut(n: nat)

  function Landed(line: string, write: LineWrite): string {
    if write.Cut? && write.n < |line| then line[..write.n] else line
  }

  /** `writable`: the log could be opened for appending, and no write to it has failed. */
  datatype State<T> = State(tables: Tables<T>, log: string, writable: bool)

  /** What of a command's line comes to the log. */
  function Logged<T>(e: State<T>, q: string, write: LineWrite): string {
    if e.writable then Landed(q + "\n", write) else ""
  }

  /** DatabaseEngine::execute_command, as far as tables and log go. A log that takes nothing is
      passed over in silence. */
  function Execute<T>(ops: TableOps<T>, e: State<T>, query: string, write: LineWrite): State<T> {
    var q := DropSemicolon(query);
    var t := Apply(ops, e.tables, q);
    if t.None? then e else State(t.value, e.log + Logged(e, q, write), e.writable && write.Whole?)
  }

  /** A start over a log file. */
  function Started<T>(ops: TableOps<T>, log: string, writable: bool): State<T> {
    State(Replay(ops, map[], log), log, writable)
  }

  /** The engine object. The log file is its text. */
  class DatabaseEngine<T> {
    const ops: TableOps<T>
    var tables: Tables<T>
    var log: string
    var writable: bool

    ghost function Value(): State<T>
      reads this
    {
      State(tables, log, writable)
    }

    /** Start over a log file: its commands are replayed. */
    constructor (ops: TableOps<T>, file: string, writable: bool)
      ensures this.ops == ops
      ensures Value() == Started(ops, file, writable)
    {
      this.ops, tables, log, this.writable := ops, map[], file, writable;
      new;
      Recover();
    }

    method Recover()
      modifies this`tables
      ensures tables == Replay(ops, old(tables), log)
    {
      var rest := log;
      while rest != []
        invariant Replay(ops, tables, rest) == Replay(ops, old(tables), log)
        decreases |rest|
      {
        var line := rest[..Find(rest, '\n')];
        rest := AfterLine(rest, '\n');
        if line == [] {
          continue;
        }
        var _ := Perform(line);
      }
    }

    /** Runs a creation or an insertion; false if it throws or the command is another one. */
    method Perform(q: string) returns (ok: bool)
      modifies this`tables
      ensures ok == Apply(ops, old(tables), q).Some? && tables == ApplyOrKeep(ops, old(tables), q)
    {
      var command := Upper(Word(q, 0));
      if command == "CREATE" {
        ok := Create(q);
      } else if command == "INSERT" {
        ok := Insert(q);
      } else {
        ok := false;
      }
    }

    method Create(q: string) returns (ok: bool)
      modifies this`tables
      ensures var t := InternalCreate(ops, old(tables), q);
              ok == t.Some? && tables == if ok then t.value else old(tables)
    {
      var open, close := Find(q, '('), Find(q, ')');
      if open == |q| || close == |q| {
        return false;
      }
      var name := Word(q[..open], 2);
      if name in tables {
        return false;
      }
      var columns := SplitLoop(Between(q, open, close), ',');
      tables := tables[name := ops.make(name, columns)];
      ok := true;
    }

    method Insert(q: string) returns (ok: bool)
      modifies this`tables
      ensures var t := InternalInsert(ops, old(tables), q);
              ok == t.Some? && tables == if ok then t.value else old(tables)
    {
      var open, close := Find(q, '('), Find(q, ')');
      if open == |q| || close == |q| {
        return false;
      }
      var name := Word(q[..open], 2);
      if name !in tables {
        return false;
      }
      var values := SplitLoop(Between(q, open, close), ',');
      var t := ops.insert(tables[name], values);
      if t.None? {
        return false;
      }
      tables := tables[name := t.value];
      ok := true;
    }

    method Persist(q: string, write: LineWrite)
      modifies this`log, this`writable
      ensures log == old(log) + Logged(old(Value()), q, write) && writable == (old(writable) && write.Whole?)
    {
      if writable {
        log := log + Landed(q + "\n", write);
        writable := write.Whole?;
      } else {
        assert log + "" == log;
      }
    }

    method ExecuteCommand(query: string, write: LineWrite)
      modifies this
      ensures Value() == Execute(ops, old(Value()), query, write)
    {
      var q := DropSemicolon(query);
      var ok := Perform(q);
      if ok {
        Persist(q, write);
      }
    }
  }

  function Piece(s: string, c: char): seq<string> {
    var piece := Trim(s[..Find(s, c)]);
    if piece == [] then [] else [piece]
  }

  lemma SplitStep(s: string, c: char)
    requires s != []
    ensures Split(s, c) == Piece(s, c) + Split(AfterLine(s, c), c)
  {
    hide Find, Trim, AfterLine;
  }

  /** The loop of split. */
  method SplitLoop(s: string, c: char) returns (tokens: seq<string>)
    ensures tokens == Split(s, c)
  {
    hide Find, Trim, AfterLine, Split;
    tokens := [];
    var rest := s;
    while rest != []
      invariant tokens + Split(rest, c) == Split(s, c)
      decreases |rest|
    {
      SplitStep(rest, c);
      Associative(tokens, Piece(rest, c), Split(AfterLine(rest, c), c));
      var token := Trim(rest[..Find(rest, c)]);
      rest := AfterLine(rest, c);
      if token != [] {
        tokens := tokens + [token];
      }
    }
    assert Split([], c) == [] by { SplitNothing(c); }
  }

  lemma SplitNothing(c: char)
    ensures Split([], c) == []
  {
  }
}
