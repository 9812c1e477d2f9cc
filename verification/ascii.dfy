/** ASCII letter case. */
module Ascii {
  function Lower(c: char): char {
    if 'A' <= c <= 'Z' then (c as int + 32) as char else c
  }

  function LowerAll(s: string): string {
    seq(|s|, i requires 0 <= i < |s| => Lower(s[i]))
  }

  /** Each capital becomes the small letter at its place in the alphabet; the rest stays. */
  lemma LettersFold(s: string)
    ensures |LowerAll(s)| == |s|
    ensures forall i | 0 <= i < |s| && 'A' <= s[i] <= 'Z' :: LowerAll(s)[i] as int - 'a' as int == s[i] as int - 'A' as int
    ensures forall i | 0 <= i < |s| && !('A' <= s[i] <= 'Z') :: LowerAll(s)[i] == s[i]
  {
  }
}
