// Order-preserving selections from sequences, shared by the list filters of the model.

module Sequences {
  /** `l` is `s` with some elements left out. */
  predicate IsSubsequence<T(==)>(l: seq<T>, s: seq<T>) {
    if l == [] then true
    else if s == [] then false
    else (l[0] == s[0] && IsSubsequence(l[1..], s[1..])) || IsSubsequence(l, s[1..])
  }

  /** A subsequence stays one when the sequence grows at its end. */
  lemma {:induction false} SubsequenceExtend<T>(l: seq<T>, s: seq<T>, x: T)
    requires IsSubsequence(l, s)
    ensures IsSubsequence(l, s + [x])
  {
    if l != [] && s != [] {
      assert (s + [x])[1..] == s[1..] + [x];
      if l[0] == s[0] && IsSubsequence(l[1..], s[1..]) {
        SubsequenceExtend(l[1..], s[1..], x);
      } else {
        SubsequenceExtend(l, s[1..], x);
      }
    }
  }

  /** Both growing by the same element keeps a subsequence. */
  lemma {:induction false} SubsequenceAppend<T>(l: seq<T>, s: seq<T>, x: T)
    requires IsSubsequence(l, s)
    ensures IsSubsequence(l + [x], s + [x])
  {
    if s != [] {
      assert (s + [x])[1..] == s[1..] + [x];
      if l == [] {
        SubsequenceAppend(l, s[1..], x);
      } else {
        assert (l + [x])[1..] == l[1..] + [x];
        if l[0] == s[0] && IsSubsequence(l[1..], s[1..]) {
          SubsequenceAppend(l[1..], s[1..], x);
        } else {
          SubsequenceAppend(l, s[1..], x);
        }
      }
    } else {
      assert l == [];
      assert ([] + [x])[1..] == [];
    }
  }
}
