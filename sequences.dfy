/** Order-preserving selection from a sequence, used to state that an
    outbound list keeps the order of the list it was filtered from, and a
    fact about removing one element. */
module Sequences {

  /** `sub` can be obtained from `s` by deleting elements. */
  ghost predicate IsSubsequence<X>(sub: seq<X>, s: seq<X>)
    decreases |s|
  {
    sub == [] ||
    (s != [] &&
     ((sub[0] == s[0] && IsSubsequence(sub[1..], s[1..])) || IsSubsequence(sub, s[1..])))
  }

  /** A subsequence is never longer than the sequence it is taken from. */
  lemma {:induction false} SubsequenceLength<X>(sub: seq<X>, s: seq<X>)
    requires IsSubsequence(sub, s)
    ensures |sub| <= |s|
    decreases |s|
  {
    if sub != [] {
      if sub[0] == s[0] && IsSubsequence(sub[1..], s[1..]) {
        SubsequenceLength(sub[1..], s[1..]);
      } else {
        SubsequenceLength(sub, s[1..]);
      }
    }
  }

  /** Removing the element at `i` removes one occurrence of it. */
  lemma MultisetRemove<X>(s: seq<X>, i: nat)
    requires i < |s|
    ensures multiset(s[..i] + s[i + 1..]) == multiset(s) - multiset{s[i]}
  {
    assert s == s[..i] + [s[i]] + s[i + 1..];
  }

  /** The same fact read forwards: a list's entries are those of the list
      without position `i`, plus the entry at `i`. */
  lemma MultisetPick<X>(s: seq<X>, i: nat)
    requires i < |s|
    ensures multiset(s) == multiset(s[..i] + s[i + 1..]) + multiset{s[i]}
  {
    assert s == s[..i] + [s[i]] + s[i + 1..];
  }
}
