/** Substring containment, the test Go's `strings.Contains` answers. */
module Strings {

  /** `sub` occurs in `s` starting at position `i`. */
  predicate OccursAt(s: string, sub: string, i: int)
  {
    0 <= i && i + |sub| <= |s| && s[i..i + |sub|] == sub
  }

  /** `p` is a prefix of `s`. */
  predicate HasPrefix(s: string, p: string)
  {
    |p| <= |s| && s[..|p|] == p
  }

  /** Scans the start positions of `s` from left to right for an occurrence of `sub`;
      true exactly when `sub` occurs somewhere in `s` (the empty string occurs everywhere). */
  function Contains(s: string, sub: string): (b: bool)
    ensures b <==> exists i :: OccursAt(s, sub, i)
    decreases |s|
  {
    if HasPrefix(s, sub) then
      assert OccursAt(s, sub, 0);
      true
    else if |s| == 0 then
      false
    else
      var rest := Contains(s[1..], sub);
      ShiftOccurrence(s, sub);
      assert !OccursAt(s, sub, 0);
      assert forall i :: OccursAt(s, sub, i) ==> OccursAt(s[1..], sub, i - 1);
      rest
  }

  /** Occurrences in `s[1..]` are exactly the occurrences in `s` past position 0. */
  lemma ShiftOccurrence(s: string, sub: string)
    requires |s| > 0
    ensures forall i :: 0 <= i ==> (OccursAt(s[1..], sub, i) <==> OccursAt(s, sub, i + 1))
  {
  }

  /** A string placed between any two others is found. */
  lemma ContainsInfix(pre: string, sub: string, post: string)
    ensures Contains(pre + sub + post, sub)
  {
    var s := pre + sub + post;
    assert s[|pre|..|pre| + |sub|] == sub;
    assert OccursAt(s, sub, |pre|);
  }

  /** A string with a character that `s` lacks does not occur in `s`. */
  lemma MissingCharNotContained(s: string, sub: string, k: int)
    requires 0 <= k < |sub| && sub[k] !in s
    ensures !Contains(s, sub)
  {
  }
}
