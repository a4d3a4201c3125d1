/** The printers of the statements: to_string of ast.cpp. */
module SqlPrinter {
  import opened Sequences
  import opened SqlParser

  /** The items with ", " between them. */
  function Join(items: seq<string>): string {
    if items == [] then ""
    else if |items| == 1 then items[0]
    else items[0] + (", " + Join(items[1..]))
  }

  function Print(st: Statement): string {
    match st
    case Create(table, columns) => "CREATE TABLE " + table + " (" + Join(columns) + ")"
    case Insert(table, values) => "INSERT INTO " + table + " VALUES (" + Join(values) + ")"
    case Select(table, columns) => "SELECT " + (if columns == [] then "*" else Join(columns)) + " FROM " + table
  }

  lemma JoinFrom(items: seq<string>, i: nat)
    requires i < |items|
    ensures Join(items[i..]) == items[i] + ((if i < |items| - 1 then ", " else "") + Join(items[i + 1..]))
  {
    assert items[i..][1..] == items[i + 1..];
    if i == |items| - 1 {
      assert items[i + 1..] == [];
      assert items[i] + ("" + "") == items[i];
    }
  }

  /** The loop that the three printers share. */
  method JoinLoop(items: seq<string>) returns (s: string)
    ensures s == Join(items)
  {
    s := "";
    assert items[0..] == items;
    for i := 0 to |items|
      invariant s + Join(items[i..]) == Join(items)
    {
      JoinFrom(items, i);
      var separator := if i < |items| - 1 then ", " else "";
      Associative(s + items[i], separator, Join(items[i + 1..]));
      Associative(s, items[i], separator + Join(items[i + 1..]));
      s := s + items[i] + separator;
    }
    assert items[|items|..] == [];
  }

  method ToString(st: Statement) returns (s: string)
    ensures s == Print(st)
  {
    match st {
      case Create(table, columns) =>
        var list := JoinLoop(columns);
        s := "CREATE TABLE " + table + " (" + list + ")";
      case Insert(table, values) =>
        var list := JoinLoop(values);
        s := "INSERT INTO " + table + " VALUES (" + list + ")";
      case Select(table, columns) =>
        var list := "*";
        if columns != [] {
          list := JoinLoop(columns);
        }
        s := "SELECT " + list + " FROM " + table;
    }
  }
}
