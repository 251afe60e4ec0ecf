/** Searching a string for a character. */
module Strings {

  /** Position of the first `c`, or the length. */
  function Find(s: string, c: char): (k: nat)
    ensures k <= |s|
    ensures k < |s| ==> s[k] == c
    ensures forall i :: 0 <= i < k ==> s[i] != c
  {
    if s == "" || s[0] == c then 0 else 1 + Find(s[1..], c)
  }

  lemma FindIs(s: string, c: char, k: nat)
    requires k < |s| && s[k] == c && c !in s[..k]
    ensures Find(s, c) == k
  {
    assert forall i :: 0 <= i < k ==> s[i] == s[..k][i];
  }

  lemma FindNone(s: string, c: char)
    requires c !in s
    ensures Find(s, c) == |s|
  {
  }

  lemma FindAt(a: string, c: char, b: string)
    requires c !in a
    ensures Find(a + [c] + b, c) == |a|
  {
    assert (a + [c] + b)[..|a|] == a;
    FindIs(a + [c] + b, c, |a|);
  }

  lemma FindPast(s: string, c: char, i: nat)
    requires i <= |s| && c !in s[..i]
    ensures i <= Find(s, c)
  {
    assert forall j :: 0 <= j < i ==> s[j] == s[..i][j];
  }
}
