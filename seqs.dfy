/** Generic facts about sequences, stated once so that proofs about
    sequences of names and rows need not redo them at their own types. */
module Seqs {
  lemma EmptyAppend<T>(a: seq<T>)
    ensures [] + a == a
  {
  }

  lemma AppendNil<T>(a: seq<T>)
    ensures a + [] == a
  {
  }

  /** The last element of a concatenation comes from its second part. */
  lemma AppendInit<T>(a: seq<T>, b: seq<T>)
    requires b != []
    ensures (a + b)[..|a + b| - 1] == a + b[..|b| - 1] && (a + b)[|a + b| - 1] == b[|b| - 1]
  {
  }

  lemma SnocSplit<T>(xs: seq<T>)
    requires xs != []
    ensures xs == xs[..|xs| - 1] + [xs[|xs| - 1]]
  {
  }

  lemma ConsSplit<T>(xs: seq<T>)
    requires xs != []
    ensures xs == [xs[0]] + xs[1..]
  {
  }

  lemma SnocMultiset<T>(xs: seq<T>)
    requires xs != []
    ensures multiset(xs) == multiset(xs[..|xs| - 1]) + multiset{xs[|xs| - 1]}
  {
    SnocSplit(xs);
  }

  /** Cutting out element `k` shifts the later elements down by one. */
  lemma CutIndex<T>(xs: seq<T>, k: nat)
    requires k < |xs|
    ensures var ys := xs[..k] + xs[k + 1..];
            |ys| == |xs| - 1
            && (forall i :: 0 <= i < k ==> ys[i] == xs[i])
            && (forall i :: k <= i < |ys| ==> ys[i] == xs[i + 1])
  {
  }
}
