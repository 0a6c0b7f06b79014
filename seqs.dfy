/** Facts about sequences that do not depend on what they hold. */
module Seqs {
  /** No element occurs twice. */
  predicate NoDuplicates<T(==)>(s: seq<T>)
  {
    forall i, j :: 0 <= i < j < |s| ==> s[i] != s[j]
  }

  /** The concatenation of `f(x)` over `xs`, in order. */
  function FlatMap<T, U>(xs: seq<T>, f: T -> seq<U>): seq<U>
    decreases |xs|
  {
    if xs == [] then [] else FlatMap(xs[..|xs| - 1], f) + f(xs[|xs| - 1])
  }

  /** An element of the concatenation comes from the image of one of the elements. */
  lemma {:induction false} FlatMapMembers<T, U>(xs: seq<T>, f: T -> seq<U>, m: U)
    ensures m in FlatMap(xs, f) <==> exists k :: 0 <= k < |xs| && m in f(xs[k])
    decreases |xs|
  {
    if xs != [] {
      var front := xs[..|xs| - 1];
      FlatMapMembers(front, f, m);
      if m in FlatMap(front, f) {
        var k :| 0 <= k < |front| && m in f(front[k]);
        assert xs[k] == front[k];
      }
      if exists k :: 0 <= k < |xs| && m in f(xs[k]) {
        var k :| 0 <= k < |xs| && m in f(xs[k]);
        if k < |front| {
          assert front[k] == xs[k];
        }
      }
    }
  }
}
