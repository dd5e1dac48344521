/** Substring search and case folding on strings. */
module Strings {
  predicate Contains(text: string, needle: string) {
    exists i :: 0 <= i <= |text| && needle <= text[i..]
  }

  function LowerChar(c: char): char {
    if 'A' <= c <= 'Z' then c - 'A' + 'a' else c
  }

  /** The ASCII letters in lower case; other characters as they are. */
  function Lower(text: string): (lower: string)
    ensures |lower| == |text|
  {
    seq(|text|, i requires 0 <= i < |text| => LowerChar(text[i]))
  }

  lemma {:induction false} LowerOfConcat(a: string, b: string)
    ensures Lower(a + b) == Lower(a) + Lower(b)
  {
  }

  /** A text contains what one of its parts becomes in lower case. */
  lemma {:induction false} LowerContains(before: string, part: string, needle: string)
    requires Lower(part) == needle
    ensures Contains(Lower(before + part), needle)
  {
    LowerOfConcat(before, part);
    assert needle <= Lower(before + part)[|before|..];
  }
}
