/** Comparing names without regard to the case of ASCII letters, as strcasecmp does. */
module CaseFold {
  function Lower(c: char): (r: char) {
    if 'A' <= c <= 'Z' then c + 32 as char else c
  }

  function Fold(s: string): (r: string) {
    seq(|s|, i requires 0 <= i < |s| => Lower(s[i]))
  }

  // ------------------------------------------------------------------ what is one name

  const CAPITALS := "ABCDEFGHIJKLMNOPQRSTUVWXYZ"
  const SMALL := "abcdefghijklmnopqrstuvwxyz"

  /** A capital and a small form of one letter. */
  predicate IsPair(c: char, d: char) {
    exists i :: 0 <= i < 26 && CAPITALS[i] == c && SMALL[i] == d
  }

  /** The same character, or the two cases of one ASCII letter. */
  predicate SameLetter(c: char, d: char) {
    c == d || IsPair(c, d) || IsPair(d, c)
  }

  /** Names that differ in the case of letters only. */
  predicate SameName(s: string, t: string) {
    |s| == |t| && forall i | 0 <= i < |s| :: SameLetter(s[i], t[i])
  }

  lemma LetterAt(i: nat)
    requires i < 26
    ensures CAPITALS[i] as int == 65 + i && SMALL[i] as int == 97 + i
  {
  }

  lemma PairIsFolded(c: char, d: char)
    ensures IsPair(c, d) <==> 65 <= c as int <= 90 && d as int == c as int + 32
  {
    if IsPair(c, d) {
      var i :| 0 <= i < 26 && CAPITALS[i] == c && SMALL[i] == d;
      LetterAt(i);
    }
    if 65 <= c as int <= 90 && d as int == c as int + 32 {
      var i := c as int - 65;
      LetterAt(i);
      assert CAPITALS[i] == c && SMALL[i] == d;
    }
  }

  lemma LowerDecides(c: char, d: char)
    ensures Lower(c) == Lower(d) <==> SameLetter(c, d)
  {
    PairIsFolded(c, d);
    PairIsFolded(d, c);
  }

  /** Folding identifies exactly the names that differ in the case of letters only. */
  lemma FoldDecides(s: string, t: string)
    ensures Fold(s) == Fold(t) <==> SameName(s, t)
  {
    if |s| == |t| {
      forall i | 0 <= i < |s| ensures Fold(s)[i] == Fold(t)[i] <==> SameLetter(s[i], t[i]) {
        LowerDecides(s[i], t[i]);
      }
      assert Fold(s) == Fold(t) <==> forall i | 0 <= i < |s| :: Fold(s)[i] == Fold(t)[i];
    } else {
      assert |Fold(s)| != |Fold(t)|;
    }
  }
}
