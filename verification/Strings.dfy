/** Cutting strings where something first occurs, as the parsers of the repository do. */
module Strings {

  /** The index of the first character that stops, or the length. */
  function Until(s: string, stop: char -> bool): (n: nat)
    ensures n <= |s|
    ensures forall i | 0 <= i < n :: !stop(s[i])
    ensures n < |s| ==> stop(s[n])
  {
    if s == [] || stop(s[0]) then 0 else 1 + Until(s[1..], stop)
  }

  /** Where a text is cut that begins with characters that do not stop. */
  lemma CutAfter(p: string, q: string, stop: char -> bool)
    requires (forall i | 0 <= i < |p| :: !stop(p[i])) && (q == [] || stop(q[0]))
    ensures Until(p + q, stop) == |p|
    ensures (p + q)[..|p|] == p && (q != [] ==> (p + q)[|p| + 1..] == q[1..])
  {
    var s := p + q;
    forall i | 0 <= i < |p|
      ensures !stop(s[i])
    {
      assert s[i] == p[i];
    }
    if q != [] {
      assert s[|p|] == q[0];
    }
  }

  predicate At(s: string, k: nat, needle: string) {
    k + |needle| <= |s| && s[k..k + |needle|] == needle
  }

  /** The index of the first occurrence of a text that is not empty, or the length. */
  function Find(s: string, needle: string): (n: nat)
    requires needle != []
    ensures n <= |s|
    ensures forall k: nat | k < n :: !At(s, k, needle)
    ensures n < |s| ==> At(s, n, needle)
  {
    if s == [] then 0
    else if At(s, 0, needle) then 0
    else
      var n := Find(s[1..], needle);
      assert forall k: nat | 0 < k :: At(s, k, needle) <==> At(s[1..], k - 1, needle) by {
        forall k: nat | 0 < k
          ensures At(s, k, needle) <==> At(s[1..], k - 1, needle)
        {
          AtTail(s, k, needle);
        }
      }
      1 + n
  }

  lemma AtTail(s: string, k: nat, needle: string)
    requires s != [] && k > 0
    ensures At(s, k, needle) <==> At(s[1..], k - 1, needle)
  {
    if k + |needle| <= |s| {
      assert s[1..][k - 1..k - 1 + |needle|] == s[k..k + |needle|];
    }
  }
}
