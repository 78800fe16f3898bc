/** A text that stands inside a longer one. */
module Texts {
  /** The text s stands in str at position i. */
  predicate StandsAt(str: string, i: nat, s: string) {
    i + |s| <= |str| && str[i..i + |s|] == s
  }

  lemma StandsChars(str: string, i: nat, s: string)
    requires StandsAt(str, i, s)
    ensures forall p :: i <= p < i + |s| ==> str[p] == s[p - i]
  {
    forall p | i <= p < i + |s| ensures str[p] == s[p - i] {
      assert str[i..i + |s|][p - i] == s[p - i];
    }
  }

  lemma StandsFits(str: string, i: nat, s: string)
    requires StandsAt(str, i, s)
    ensures i + |s| <= |str|
  {
  }

  lemma StandsSplit(str: string, i: nat, s: string, t: string)
    requires StandsAt(str, i, s + t)
    ensures StandsAt(str, i, s) && StandsAt(str, i + |s|, t)
  {
    StandsChars(str, i, s + t);
  }

  lemma StandsJoin(str: string, i: nat, s: string, t: string)
    requires StandsAt(str, i, s) && StandsAt(str, i + |s|, t)
    ensures StandsAt(str, i, s + t)
  {
    StandsChars(str, i, s);
    StandsChars(str, i + |s|, t);
  }

  predicate CharAt(str: string, i: nat, c: char) {
    i < |str| && str[i] == c
  }

  /** Two neighbouring texts and their first characters. */
  lemma Neighbours(str: string, i: nat, here: string, behind: string)
    requires StandsAt(str, i, here + behind) && here != "" && behind != ""
    ensures StandsAt(str, i, here) && StandsAt(str, i + |here|, behind)
    ensures CharAt(str, i, here[0]) && CharAt(str, i + |here|, behind[0])
  {
    StandsSplit(str, i, here, behind);
    StandsChars(str, i, here);
    StandsChars(str, i + |here|, behind);
  }
}
