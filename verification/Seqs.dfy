/** Sequences of indices without repetition, as lists of buffers, processes or pages are. */
module Seqs {

  predicate Distinct(q: seq<nat>) {
    forall i, j :: 0 <= i < j < |q| ==> q[i] != q[j]
  }

  /** What a sequence without repetition lists, it lists once. */
  lemma {:induction false} DistinctSize(q: seq<nat>, s: set<nat>)
    requires Distinct(q) && forall x :: x in s <==> x in q
    ensures |q| == |s|
  {
    if q == [] {
      assert s == {};
    } else {
      var n := |q| - 1;
      var r := q[..n];
      forall x: nat
        ensures x in s - {q[n]} <==> x in r
      {
        assert x in q <==> x in r || x == q[n];
      }
      DistinctSize(r, s - {q[n]});
    }
  }
}
