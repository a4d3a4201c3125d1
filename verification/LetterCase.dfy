/** Words up to letter case, told by the two alphabets, and what `Upper` has to do with them. */
module LetterCase {
  import opened Text

  const SMALL := "abcdefghijklmnopqrstuvwxyz"
  const CAPITAL := "ABCDEFGHIJKLMNOPQRSTUVWXYZ"

  /** The same character, or the same letter in the other case. */
  predicate SameLetter(a: char, b: char) {
    || a == b
    || exists i | 0 <= i < 26 :: (a == SMALL[i] && b == CAPITAL[i]) || (a == CAPITAL[i] && b == SMALL[i])
  }

  predicate SameWord(v: string, w: string) {
    |v| == |w| && forall i | 0 <= i < |v| :: SameLetter(v[i], w[i])
  }

  lemma Alphabets(i: nat)
    requires i < 26
    ensures SMALL[i] == 'a' + i as char && CAPITAL[i] == 'A' + i as char
  {
  }

  lemma UpperLetter(a: char, b: char)
    ensures ToUpper(a) == ToUpper(b) <==> SameLetter(a, b)
  {
    if ToUpper(a) == ToUpper(b) && a != b {
      var i := (if 'a' <= a <= 'z' then a - 'a' else a - 'A') as nat;
      Alphabets(i);
      assert (a == SMALL[i] && b == CAPITAL[i]) || (a == CAPITAL[i] && b == SMALL[i]);
    } else if SameLetter(a, b) && a != b {
      var i :| 0 <= i < 26 && ((a == SMALL[i] && b == CAPITAL[i]) || (a == CAPITAL[i] && b == SMALL[i]));
      Alphabets(i);
    }
  }

  lemma {:induction false} UpperChars(w: string)
    ensures |Upper(w)| == |w| && forall i | 0 <= i < |w| :: Upper(w)[i] == ToUpper(w[i])
  {
    if w != [] {
      UpperChars(w[1..]);
    }
  }

  /** Two words are the same up to letter case exactly if their capitals are the same. */
  lemma UpperWord(v: string, w: string)
    ensures Upper(v) == Upper(w) <==> SameWord(v, w)
  {
    hide SameLetter, Upper, ToUpper;
    UpperChars(v);
    UpperChars(w);
    if |v| == |w| {
      forall i | 0 <= i < |v| ensures Upper(v)[i] == Upper(w)[i] <==> SameLetter(v[i], w[i]) {
        UpperLetter(v[i], w[i]);
      }
      assert Upper(v) == Upper(w) <==> forall i | 0 <= i < |v| :: Upper(v)[i] == Upper(w)[i];
    }
  }

  lemma {:induction false} CapitalsStay(w: string)
    requires forall i | 0 <= i < |w| :: 'A' <= w[i] <= 'Z'
    ensures Upper(w) == w
  {
    if w != [] {
      CapitalsStay(w[1..]);
      assert w == [w[0]] + w[1..];
    }
  }

  /** A word's capitals are a given word of capitals exactly if it is that word up to case. */
  lemma UpperIs(w: string, k: string)
    requires forall i | 0 <= i < |k| :: 'A' <= k[i] <= 'Z'
    ensures Upper(w) == k <==> SameWord(w, k)
  {
    hide SameWord, Upper;
    CapitalsStay(k);
    UpperWord(w, k);
  }
}
