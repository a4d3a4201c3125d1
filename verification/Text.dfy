/** Letter case, as `::toupper` has it for plain letters. */
module Text {
  function ToUpper(c: char): char {
    if 'a' <= c <= 'z' then c - 'a' + 'A' else c
  }

  function Upper(s: string): string {
    if s == [] then [] else [ToUpper(s[0])] + Upper(s[1..])
  }
}
