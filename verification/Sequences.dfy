/** A fact every loop over a sequence needs. */
module Sequences {
  /** The first i + 1 elements are the first i and one more. */
  lemma InitOf<T>(s: seq<T>, i: nat)
    requires i < |s|
    ensures s[..i + 1][..i] == s[..i] && s[..i + 1][i] == s[i] && |s[..i + 1]| == i + 1
    ensures s[..|s|] == s
  {
  }
}
