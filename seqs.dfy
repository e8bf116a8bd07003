/** The order-preserving filter that the source writes as a loop appending to a list. */
module Seqs {

  /** The list a loop builds when it walks `s` in order and appends `f(x)` for
      every `x` that passes `keep`. Defined on the last element, as the loop
      extends its result one step at a time. */
  function FilterMap<A, B>(s: seq<A>, keep: A -> bool, f: A -> B): (r: seq<B>)
    ensures |r| <= |s|
  {
    if s == [] then []
    else FilterMap(s[..|s| - 1], keep, f) + (if keep(s[|s| - 1]) then [f(s[|s| - 1])] else [])
  }

  /** The positions of `s` whose element passes `keep`, in increasing order. */
  function Selected<A>(s: seq<A>, keep: A -> bool): seq<nat> {
    if s == [] then []
    else Selected(s[..|s| - 1], keep) + (if keep(s[|s| - 1]) then [|s| - 1] else [])
  }

  predicate StrictlyIncreasing(ix: seq<nat>) {
    forall k, l :: 0 <= k < l < |ix| ==> ix[k] < ix[l]
  }

  /** `FilterMap` is an order-preserving subsequence: its k-th element is `f` of
      the element at the k-th selected position, the positions increase, and
      the selected positions are exactly those whose element passes `keep`. */
  lemma {:induction false} FilterMapIsSubsequence<A, B>(s: seq<A>, keep: A -> bool, f: A -> B)
    ensures var ix := Selected(s, keep);
      && |FilterMap(s, keep, f)| == |ix|
      && StrictlyIncreasing(ix)
      && (forall k :: 0 <= k < |ix| ==> ix[k] < |s| && FilterMap(s, keep, f)[k] == f(s[ix[k]]))
      && (forall i :: 0 <= i < |s| ==> (i in ix <==> keep(s[i])))
  {
    if s != [] {
      var init := s[..|s| - 1];
      FilterMapIsSubsequence(init, keep, f);
      var ix0 := Selected(init, keep);
      var ix := Selected(s, keep);
      assert forall k :: 0 <= k < |ix0| ==> ix0[k] < |init| && init[ix0[k]] == s[ix0[k]];
      assert |s| - 1 !in ix0;
      forall i | 0 <= i < |s| - 1 ensures i in ix <==> keep(s[i]) {
        assert init[i] == s[i];
      }
    }
  }
}
