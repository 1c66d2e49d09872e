/** Nondeterministic automata as JLex builds them: a node has either one edge
    labelled by a character or a character set, or up to two epsilon edges.
    Nodes are identified by their index in a sequence. */
module Nfa {
  import opened Basics

  /** A set of characters with a complement flag (class CSet). */
  datatype CharSet = CharSet(elems: set<nat>, complement: bool) {
    predicate Contains(c: nat) {
      (c in elems) != complement
    }
  }

  datatype Edge = Epsilon | Symbol(c: nat) | Class(chars: CharSet) {
    /** Does the edge consume character `c`? */
    predicate Fires(c: nat) {
      match this
      case Epsilon => false
      case Symbol(d) => c == d
      case Class(s) => s.Contains(c)
    }
  }

  /** Where a rule is anchored: at the beginning of a line, at its end. */
  datatype Anchor = Anchor(atStart: bool, atEnd: bool)

  const NO_ANCHOR := Anchor(false, false)

  /** Class CNfa. `accept` is the number of the rule whose action the node runs. */
  datatype Node = Node(edge: Edge, next: Option<nat>, next2: Option<nat>, accept: Option<nat>, anchor: Anchor)

  /** What CAlloc.newCNfa allocates. */
  const BLANK := Node(Epsilon, None, None, None, NO_ANCHOR)

  type Graph = seq<Node>

  ghost predicate Increasing(s: seq<nat>) {
    forall i, j :: 0 <= i < j < |s| ==> s[i] < s[j]
  }

  /** A run of `n` steps from `p` to `q` that consumes exactly `w`. */
  ghost predicate Run(g: Graph, p: nat, w: seq<nat>, q: nat, n: nat)
    decreases n
  {
    if n == 0 then p == q && w == []
    else
      && p < |g|
      && if g[p].edge.Epsilon? then
           || (g[p].next.Some? && Run(g, g[p].next.value, w, q, n - 1))
           || (g[p].next2.Some? && Run(g, g[p].next2.value, w, q, n - 1))
         else
           && w != [] && g[p].edge.Fires(w[0])
           && g[p].next.Some? && Run(g, g[p].next.value, w[1..], q, n - 1)
  }

  ghost predicate Reaches(g: Graph, p: nat, w: seq<nat>, q: nat) {
    exists n: nat :: Run(g, p, w, q, n)
  }

  /** Every edge leads to a node of the graph, and a labelled edge leads somewhere. */
  ghost predicate Closed(g: Graph) {
    ClosedOn(g, 0, |g|)
  }

  ghost predicate ClosedOn(g: Graph, lo: nat, hi: nat)
    requires hi <= |g|
  {
    forall p :: lo <= p < hi ==> StaysIn(g[p], lo, hi)
  }

  ghost predicate StaysIn(x: Node, lo: nat, hi: nat) {
    && (x.next.Some? ==> lo <= x.next.value < hi)
    && (x.next2.Some? ==> lo <= x.next2.value < hi)
    && (!x.edge.Epsilon? ==> x.next.Some?)
  }

  lemma {:induction false} RunConcat(g: Graph, p: nat, u: seq<nat>, q: nat, m: nat, v: seq<nat>, r: nat, n: nat)
    requires Run(g, p, u, q, m) && Run(g, q, v, r, n)
    ensures Run(g, p, u + v, r, m + n)
    decreases m
  {
    if m == 0 {
      assert u + v == v;
    } else if g[p].edge.Epsilon? {
      if g[p].next.Some? && Run(g, g[p].next.value, u, q, m - 1) {
        RunConcat(g, g[p].next.value, u, q, m - 1, v, r, n);
      } else {
        RunConcat(g, g[p].next2.value, u, q, m - 1, v, r, n);
      }
    } else {
      RunConcat(g, g[p].next.value, u[1..], q, m - 1, v, r, n);
      assert (u + v)[1..] == u[1..] + v;
    }
  }

  lemma {:induction false} ReachesConcat(g: Graph, p: nat, u: seq<nat>, q: nat, v: seq<nat>, r: nat)
    requires Reaches(g, p, u, q) && Reaches(g, q, v, r)
    ensures Reaches(g, p, u + v, r)
  {
    var m: nat :| Run(g, p, u, q, m);
    var n: nat :| Run(g, q, v, r, n);
    RunConcat(g, p, u, q, m, v, r, n);
  }

  /** A run splits at any point of the word. */
  lemma {:induction false} RunSplit(g: Graph, p: nat, u: seq<nat>, v: seq<nat>, r: nat, n: nat)
      returns (q: nat, m: nat)
    requires Run(g, p, u + v, r, n)
    ensures m <= n && Run(g, p, u, q, m) && Run(g, q, v, r, n - m)
    decreases n
  {
    if u == [] {
      assert u + v == v;
      q, m := p, 0;
    } else if g[p].edge.Epsilon? {
      if g[p].next.Some? && Run(g, g[p].next.value, u + v, r, n - 1) {
        q, m := RunSplit(g, g[p].next.value, u, v, r, n - 1);
      } else {
        q, m := RunSplit(g, g[p].next2.value, u, v, r, n - 1);
      }
      m := m + 1;
    } else {
      assert (u + v)[1..] == u[1..] + v;
      q, m := RunSplit(g, g[p].next.value, u[1..], v, r, n - 1);
      m := m + 1;
    }
  }

  /** Equal but for what the node accepts. */
  predicate SameEdges(x: Node, y: Node) {
    x.edge == y.edge && x.next == y.next && x.next2 == y.next2
  }

  /** Runs that start in a closed region see only that region. */
  lemma {:induction false} RunFrame(g: Graph, g': Graph, lo: nat, hi: nat, p: nat, w: seq<nat>, q: nat, n: nat)
    requires hi <= |g| && hi <= |g'| && ClosedOn(g, lo, hi)
    requires forall i :: lo <= i < hi ==> SameEdges(g[i], g'[i])
    requires lo <= p < hi
    ensures Run(g, p, w, q, n) == Run(g', p, w, q, n)
    ensures Run(g, p, w, q, n) ==> lo <= q < hi
    decreases n
  {
    if n > 0 {
      assert StaysIn(g[p], lo, hi);
      if g[p].next.Some? {
        RunFrame(g, g', lo, hi, g[p].next.value, w, q, n - 1);
        if w != [] {
          RunFrame(g, g', lo, hi, g[p].next.value, w[1..], q, n - 1);
        }
      }
      if g[p].next2.Some? {
        RunFrame(g, g', lo, hi, g[p].next2.value, w, q, n - 1);
      }
    }
  }

  lemma {:induction false} ReachesFrame(g: Graph, g': Graph, lo: nat, hi: nat, p: nat, w: seq<nat>, q: nat)
    requires hi <= |g| && hi <= |g'| && ClosedOn(g, lo, hi)
    requires forall i :: lo <= i < hi ==> SameEdges(g[i], g'[i])
    requires lo <= p < hi
    ensures Reaches(g, p, w, q) == Reaches(g', p, w, q)
    ensures Reaches(g, p, w, q) ==> lo <= q < hi
  {
    forall n: nat {
      RunFrame(g, g', lo, hi, p, w, q, n);
    }
  }

  /** A node without edges is only the end of a run. */
  ghost predicate DeadEnd(g: Graph, p: nat) {
    p < |g| && g[p].edge.Epsilon? && g[p].next.None? && g[p].next2.None?
  }

  lemma {:induction false} DeadEndRuns(g: Graph, p: nat, w: seq<nat>, q: nat)
    requires DeadEnd(g, p)
    ensures Reaches(g, p, w, q) <==> p == q && w == []
  {
    if p == q && w == [] {
      assert Run(g, p, w, q, 0);
    }
  }

  /** If node `x` had no edges in `g`, giving it some keeps every run that ends in it. */
  lemma {:induction false} RunKept(g: Graph, g': Graph, lo: nat, hi: nat, x: nat, p: nat, w: seq<nat>, n: nat)
    requires hi <= |g| && hi <= |g'| && ClosedOn(g, lo, hi) && DeadEnd(g, x)
    requires forall i :: lo <= i < hi && i != x ==> g[i] == g'[i]
    requires lo <= p < hi && Run(g, p, w, x, n)
    ensures Run(g', p, w, x, n)
    decreases n
  {
    if n > 0 {
      assert p != x && StaysIn(g[p], lo, hi);
      if !g[p].edge.Epsilon? {
        RunKept(g, g', lo, hi, x, g[p].next.value, w[1..], n - 1);
      } else if g[p].next.Some? && Run(g, g[p].next.value, w, x, n - 1) {
        RunKept(g, g', lo, hi, x, g[p].next.value, w, n - 1);
      } else {
        RunKept(g, g', lo, hi, x, g[p].next2.value, w, n - 1);
      }
    }
  }

  /** A run that leaves a region whose only exit is `x` passes through `x`;
      up to that point it is a run of the graph in which `x` has no edges. */
  lemma {:induction false} RunExits(g: Graph, g': Graph, lo: nat, hi: nat, x: nat, p: nat, w: seq<nat>, q: nat, n: nat)
      returns (k: nat, m: nat)
    requires hi <= |g| && hi <= |g'| && ClosedOn(g, lo, hi) && lo <= x < hi
    requires forall i :: lo <= i < hi && i != x ==> g[i] == g'[i]
    requires lo <= p < hi && !(lo <= q < hi) && Run(g', p, w, q, n)
    ensures k <= |w| && m <= n
    ensures Run(g, p, w[..k], x, n - m) && Run(g', x, w[k..], q, m)
    decreases n
  {
    if p == x {
      k, m := 0, n;
      assert w[..0] == [] && w[0..] == w;
    } else {
      assert StaysIn(g[p], lo, hi);
      if !g[p].edge.Epsilon? {
        k, m := RunExits(g, g', lo, hi, x, g[p].next.value, w[1..], q, n - 1);
        k := k + 1;
        assert w[..k][1..] == w[1..][..k - 1] && w[k..] == w[1..][k - 1..];
      } else if g[p].next.Some? && Run(g', g[p].next.value, w, q, n - 1) {
        k, m := RunExits(g, g', lo, hi, x, g[p].next.value, w, q, n - 1);
      } else {
        k, m := RunExits(g, g', lo, hi, x, g[p].next2.value, w, q, n - 1);
      }
    }
  }
}
