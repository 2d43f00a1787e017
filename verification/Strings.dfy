/** Searching in strings. */
module Strings {
  import opened Common

  predicate IsDigit(c: char) {
    '0' <= c <= '9'
  }

  /** Where a character first occurs. */
  function FindChar(s: string, c: char): Option<nat> {
    if s == [] then None
    else if s[0] == c then Some(0)
    else match FindChar(s[1..], c) case None => None case Some(i) => Some(i + 1)
  }

  lemma {:induction false} FindCharBound(s: string, c: char)
    ensures FindChar(s, c).Some? ==> FindChar(s, c).value < |s| && s[FindChar(s, c).value] == c
  {
    if s != [] {
      FindCharBound(s[1..], c);
    }
  }

  predicate Without(s: string, c: char) {
    forall i :: 0 <= i < |s| ==> s[i] != c
  }

  lemma {:induction false} FindAfter(a: string, c: char, b: string)
    requires Without(a, c)
    ensures FindChar(a + [c] + b, c) == Some(|a|) && FindChar(a, c) == None
    decreases |a|
  {
    if a == [] {
      assert a + [c] + b == [c] + b;
    } else {
      assert (a + [c] + b)[1..] == a[1..] + [c] + b;
      FindAfter(a[1..], c, b);
    }
  }
}
