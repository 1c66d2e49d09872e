/** What all parts share. */
module Basics {
  datatype Option<+T> = None | Some(value: T)

  /** A word over the symbols `0..n`. */
  ghost predicate Over(w: seq<nat>, n: nat) {
    forall i :: 0 <= i < |w| ==> w[i] < n
  }

  type Matrix = seq<seq<int>>

  ghost predicate Rectangular(t: Matrix, ncols: nat) {
    forall r :: 0 <= r < |t| ==> |t[r]| == ncols
  }

  lemma {:induction false} SubsetSize<T>(a: set<T>, b: set<T>)
    requires a <= b
    ensures |a| <= |b|
  {
    if a != {} {
      var x :| x in a;
      SubsetSize(a - {x}, b - {x});
    }
  }
}
