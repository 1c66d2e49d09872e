/** Thompson fragments: pieces of a graph with one start and one end, and what
    concatenation, alternation and closure do to the words they recognise. */
module Fragments {
  import opened Basics
  import opened Nfa

  /** Nodes `lo..hi` form a fragment from `s` to `e`: no edge leaves it, none enters
      its start, its end has no edges, and nothing in it reads the pseudo-character `eof`. */
  ghost predicate Fragment(g: Graph, lo: nat, hi: nat, s: nat, e: nat, eof: nat) {
    && lo <= s < hi <= |g| && lo <= e < hi && s != e
    && g[e] == BLANK
    && forall p :: lo <= p < hi ==> Inner(g[p], lo, hi, s, eof)
  }

  ghost predicate Inner(x: Node, lo: nat, hi: nat, s: nat, eof: nat) {
    && StaysIn(x, lo, hi)
    && x.next != Some(s) && x.next2 != Some(s)
    && x.accept.None? && !x.edge.Fires(eof) && (x.edge.Symbol? ==> x.edge.c < eof)
  }

  lemma {:induction false} FragmentFrame(g: Graph, g': Graph, lo: nat, hi: nat, s: nat, e: nat, eof: nat)
    requires Fragment(g, lo, hi, s, e, eof) && hi <= |g'|
    requires forall i :: lo <= i < hi ==> g[i] == g'[i]
    ensures Fragment(g', lo, hi, s, e, eof)
    ensures forall w :: Reaches(g, s, w, e) == Reaches(g', s, w, e)
  {
    forall w {
      ReachesFrame(g, g', lo, hi, s, w, e);
    }
  }

  // Concatenation: the end of the first fragment becomes a copy of the start of the second.

  ghost predicate Splits(g: Graph, s: nat, e: nat, s2: nat, e2: nat, w: seq<nat>, k: nat) {
    k <= |w| && Reaches(g, s, w[..k], e) && Reaches(g, s2, w[k..], e2)
  }

  lemma {:induction false} CatFragment(g: Graph, lo: nat, mid: nat, hi: nat, s: nat, e: nat, s2: nat, e2: nat, eof: nat)
    requires Fragment(g, lo, mid, s, e, eof) && Fragment(g, mid, hi, s2, e2, eof)
    ensures Fragment(g[e := g[s2]], lo, hi, s, e2, eof)
  {
    var g' := g[e := g[s2]];
    forall p | lo <= p < hi ensures Inner(g'[p], lo, hi, s, eof) {
      assert p < mid ==> Inner(g[p], lo, mid, s, eof);
      assert p >= mid ==> Inner(g[p], mid, hi, s2, eof);
      assert Inner(g[s2], mid, hi, s2, eof);
    }
  }

  /** The copied end behaves exactly as the start it copies. */
  lemma {:induction false} MimicRun(g: Graph, mid: nat, hi: nat, e: nat, s2: nat, w: seq<nat>, q: nat, n: nat)
    requires hi <= |g| && ClosedOn(g, mid, hi) && mid <= s2 < hi && e < mid && n > 0
    ensures Run(g[e := g[s2]], e, w, q, n) == Run(g, s2, w, q, n)
  {
    var g' := g[e := g[s2]];
    assert StaysIn(g[s2], mid, hi);
    if g[s2].next.Some? {
      RunFrame(g, g', mid, hi, g[s2].next.value, w, q, n - 1);
      if w != [] {
        RunFrame(g, g', mid, hi, g[s2].next.value, w[1..], q, n - 1);
      }
    }
    if g[s2].next2.Some? {
      RunFrame(g, g', mid, hi, g[s2].next2.value, w, q, n - 1);
    }
  }

  lemma {:induction false} CatWords(g: Graph, lo: nat, mid: nat, hi: nat, s: nat, e: nat, s2: nat, e2: nat, eof: nat,
                                    w: seq<nat>)
    requires Fragment(g, lo, mid, s, e, eof) && Fragment(g, mid, hi, s2, e2, eof)
    ensures Reaches(g[e := g[s2]], s, w, e2) <==> exists k: nat :: Splits(g, s, e, s2, e2, w, k)
  {
    var g' := g[e := g[s2]];
    assert ClosedOn(g, lo, mid) && ClosedOn(g, mid, hi) by {
      FragmentClosed(g, lo, mid, s, e, eof);
      FragmentClosed(g, mid, hi, s2, e2, eof);
    }
    if Reaches(g', s, w, e2) {
      var n: nat :| Run(g', s, w, e2, n);
      var k, m := RunExits(g, g', lo, mid, e, s, w, e2, n);
      MimicRun(g, mid, hi, e, s2, w[k..], e2, m);
      assert Splits(g, s, e, s2, e2, w, k);
    }
    if k: nat :| Splits(g, s, e, s2, e2, w, k) {
      var m: nat :| Run(g, s, w[..k], e, m);
      var n: nat :| Run(g, s2, w[k..], e2, n);
      RunKept(g, g', lo, mid, e, s, w[..k], m);
      MimicRun(g, mid, hi, e, s2, w[k..], e2, n);
      RunConcat(g', s, w[..k], e, m, w[k..], e2, n);
      assert w[..k] + w[k..] == w;
    }
  }

  lemma {:induction false} FragmentClosed(g: Graph, lo: nat, hi: nat, s: nat, e: nat, eof: nat)
    requires Fragment(g, lo, hi, s, e, eof)
    ensures ClosedOn(g, lo, hi) && DeadEnd(g, e)
  {
    forall p | lo <= p < hi ensures StaysIn(g[p], lo, hi) {
      assert Inner(g[p], lo, hi, s, eof);
    }
  }

  // Alternation: a new start with an epsilon edge to each alternative, a new common end.

  function Alternate(g: Graph, s: nat, e: nat, s2: nat, e2: nat): (g': Graph)
    requires e < |g| && e2 < |g|
    ensures |g'| == |g| + 2
  {
    var h := g[e := g[e].(next := Some(|g| + 1))];
    h[e2 := h[e2].(next := Some(|g| + 1))] + [BLANK.(next := Some(s), next2 := Some(s2)), BLANK]
  }

  lemma {:induction false} AltFragment(g: Graph, lo: nat, mid: nat, s: nat, e: nat, s2: nat, e2: nat, eof: nat)
    requires Fragment(g, lo, mid, s, e, eof) && Fragment(g, mid, |g|, s2, e2, eof)
    ensures Fragment(Alternate(g, s, e, s2, e2), lo, |g| + 2, |g|, |g| + 1, eof)
  {
    var hi := |g|;
    var g' := Alternate(g, s, e, s2, e2);
    forall p | lo <= p < hi + 2 ensures Inner(g'[p], lo, hi + 2, hi, eof) {
      assert p < mid ==> Inner(g[p], lo, mid, s, eof);
      assert mid <= p < hi ==> Inner(g[p], mid, hi, s2, eof);
    }
  }

  /** One alternative inside the combined graph: it is left only through its end. */
  lemma {:induction false} AltBranch(g: Graph, g': Graph, lo: nat, hi: nat, s: nat, e: nat, eof: nat, q: nat,
                                     w: seq<nat>)
    requires Fragment(g, lo, hi, s, e, eof) && hi <= |g'|
    requires forall i :: lo <= i < hi && i != e ==> g[i] == g'[i]
    requires g'[e] == BLANK.(next := Some(q)) && DeadEnd(g', q) && q >= hi
    ensures Reaches(g', s, w, q) <==> Reaches(g, s, w, e)
  {
    FragmentClosed(g, lo, hi, s, e, eof);
    if Reaches(g', s, w, q) {
      var n: nat :| Run(g', s, w, q, n);
      var k, m := RunExits(g, g', lo, hi, e, s, w, q, n);
      assert Reaches(g', q, w[k..], q);
      DeadEndRuns(g', q, w[k..], q);
      assert w[..k] == w;
    }
    if Reaches(g, s, w, e) {
      var n: nat :| Run(g, s, w, e, n);
      RunKept(g, g', lo, hi, e, s, w, n);
      assert Run(g', q, [], q, 0);
      assert Run(g', e, [], q, 1);
      RunConcat(g', s, w, e, n, [], q, 1);
      assert w + [] == w;
    }
  }

  lemma {:induction false} AltWords(g: Graph, lo: nat, mid: nat, s: nat, e: nat, s2: nat, e2: nat, eof: nat,
                                    w: seq<nat>)
    requires Fragment(g, lo, mid, s, e, eof) && Fragment(g, mid, |g|, s2, e2, eof)
    ensures Reaches(Alternate(g, s, e, s2, e2), |g|, w, |g| + 1) <==> Reaches(g, s, w, e) || Reaches(g, s2, w, e2)
  {
    var hi := |g|;
    var g' := Alternate(g, s, e, s2, e2);
    AltBranch(g, g', lo, mid, s, e, eof, hi + 1, w);
    AltBranch(g, g', mid, hi, s2, e2, eof, hi + 1, w);
    EpsilonFork(g', hi, w, hi + 1);
  }

  /** Runs from a node that only has epsilon edges start with one of them. */
  lemma {:induction false} EpsilonFork(g: Graph, p: nat, w: seq<nat>, q: nat)
    requires p < |g| && p != q && g[p].edge.Epsilon?
    ensures Reaches(g, p, w, q) <==>
            || (g[p].next.Some? && Reaches(g, g[p].next.value, w, q))
            || (g[p].next2.Some? && Reaches(g, g[p].next2.value, w, q))
  {
    if Reaches(g, p, w, q) {
      var n: nat :| Run(g, p, w, q, n);
      assert n > 0;
      assert g[p].next.Some? && Run(g, g[p].next.value, w, q, n - 1) ==> Reaches(g, g[p].next.value, w, q);
      assert g[p].next2.Some? && Run(g, g[p].next2.value, w, q, n - 1) ==> Reaches(g, g[p].next2.value, w, q);
    }
    if g[p].next.Some? && Reaches(g, g[p].next.value, w, q) {
      var n: nat :| Run(g, g[p].next.value, w, q, n);
      assert Run(g, p, w, q, n + 1);
    }
    if g[p].next2.Some? && Reaches(g, g[p].next2.value, w, q) {
      var n: nat :| Run(g, g[p].next2.value, w, q, n);
      assert Run(g, p, w, q, n + 1);
    }
  }

  /** A run over a labelled edge consumes one character first. */
  lemma {:induction false} LabelledStep(g: Graph, p: nat, w: seq<nat>, q: nat)
    requires p < |g| && p != q && !g[p].edge.Epsilon? && g[p].next.Some?
    ensures Reaches(g, p, w, q) <==> w != [] && g[p].edge.Fires(w[0]) && Reaches(g, g[p].next.value, w[1..], q)
  {
    if Reaches(g, p, w, q) {
      var n: nat :| Run(g, p, w, q, n);
      assert Run(g, g[p].next.value, w[1..], q, n - 1);
    }
    if w != [] && g[p].edge.Fires(w[0]) && Reaches(g, g[p].next.value, w[1..], q) {
      var n: nat :| Run(g, g[p].next.value, w[1..], q, n);
      assert Run(g, p, w, q, n + 1);
    }
  }

  // Closure: a new start and end around the fragment, with a bypass and/or a way back.

  function Enclose(g: Graph, s: nat, e: nat, skip: bool, again: bool): (g': Graph)
    requires e < |g|
    ensures |g'| == |g| + 2
  {
    g[e := g[e].(next := Some(|g| + 1), next2 := if again then Some(s) else g[e].next2)]
    + [BLANK.(next := Some(s), next2 := if skip then Some(|g| + 1) else None), BLANK]
  }

  lemma {:induction false} EncloseFragment(g: Graph, lo: nat, s: nat, e: nat, eof: nat, skip: bool, again: bool)
    requires Fragment(g, lo, |g|, s, e, eof)
    ensures Fragment(Enclose(g, s, e, skip, again), lo, |g| + 2, |g|, |g| + 1, eof)
  {
    var g' := Enclose(g, s, e, skip, again);
    forall p | lo <= p < |g| + 2 ensures Inner(g'[p], lo, |g| + 2, |g|, eof) {
      assert p < |g| ==> Inner(g[p], lo, |g|, s, eof);
    }
  }

  /** `w` is one or, if `again`, several words of the enclosed fragment in a row. */
  ghost predicate Repeated(g: Graph, s: nat, e: nat, again: bool, w: seq<nat>)
    decreases |w|
  {
    || Reaches(g, s, w, e)
    || (again && exists k :: 0 < k < |w| && Reaches(g, s, w[..k], e) && Repeated(g, s, e, again, w[k..]))
  }

  /** From the enclosed start to the new end: repetitions of the fragment, nothing else. */
  lemma {:induction false} RepeatedSound(g: Graph, lo: nat, s: nat, e: nat, eof: nat, skip: bool, again: bool,
                                         w: seq<nat>, n: nat)
    requires Fragment(g, lo, |g|, s, e, eof)
    requires Run(Enclose(g, s, e, skip, again), s, w, |g| + 1, n)
    ensures Repeated(g, s, e, again, w)
    decreases n
  {
    var g' := Enclose(g, s, e, skip, again);
    FragmentClosed(g, lo, |g|, s, e, eof);
    var k, m := RunExits(g, g', lo, |g|, e, s, w, |g| + 1, n);
    assert Reaches(g, s, w[..k], e);
    if Run(g', |g| + 1, w[k..], |g| + 1, m - 1) {
      assert Reaches(g', |g| + 1, w[k..], |g| + 1);
      DeadEndRuns(g', |g| + 1, w[k..], |g| + 1);
      assert w[..k] == w;
    } else {
      RepeatedSound(g, lo, s, e, eof, skip, again, w[k..], m - 1);
      if k == 0 {
        assert w[k..] == w;
      } else if k == |w| {
        assert w[..k] == w;
      }
    }
  }

  lemma {:induction false} RepeatedComplete(g: Graph, lo: nat, s: nat, e: nat, eof: nat, skip: bool, again: bool,
                                            w: seq<nat>)
    requires Fragment(g, lo, |g|, s, e, eof) && Repeated(g, s, e, again, w)
    ensures Reaches(Enclose(g, s, e, skip, again), s, w, |g| + 1)
    decreases |w|
  {
    var g' := Enclose(g, s, e, skip, again);
    FragmentClosed(g, lo, |g|, s, e, eof);
    if Reaches(g, s, w, e) {
      var n: nat :| Run(g, s, w, e, n);
      RunKept(g, g', lo, |g|, e, s, w, n);
      assert Run(g', |g| + 1, [], |g| + 1, 0);
      assert Run(g', e, [], |g| + 1, 1);
      RunConcat(g', s, w, e, n, [], |g| + 1, 1);
      assert w + [] == w;
    } else {
      var k: nat :| 0 < k < |w| && Reaches(g, s, w[..k], e) && Repeated(g, s, e, again, w[k..]);
      var m: nat :| Run(g, s, w[..k], e, m);
      RunKept(g, g', lo, |g|, e, s, w[..k], m);
      RepeatedComplete(g, lo, s, e, eof, skip, again, w[k..]);
      var n: nat :| Run(g', s, w[k..], |g| + 1, n);
      assert Run(g', e, w[k..], |g| + 1, n + 1);
      RunConcat(g', s, w[..k], e, m, w[k..], |g| + 1, n + 1);
      assert w[..k] + w[k..] == w;
    }
  }

  lemma {:induction false} EncloseWords(g: Graph, lo: nat, s: nat, e: nat, eof: nat, skip: bool, again: bool,
                                        w: seq<nat>)
    requires Fragment(g, lo, |g|, s, e, eof)
    ensures Reaches(Enclose(g, s, e, skip, again), |g|, w, |g| + 1) <==>
            (skip && w == []) || Repeated(g, s, e, again, w)
  {
    var g' := Enclose(g, s, e, skip, again);
    EpsilonFork(g', |g|, w, |g| + 1);
    DeadEndRuns(g', |g| + 1, w, |g| + 1);
    if Reaches(g', s, w, |g| + 1) {
      var n: nat :| Run(g', s, w, |g| + 1, n);
      RepeatedSound(g, lo, s, e, eof, skip, again, w, n);
    }
    if Repeated(g, s, e, again, w) {
      RepeatedComplete(g, lo, s, e, eof, skip, again, w);
    }
  }
}
