/** The state sets an NFA can be in, and finite-set counting. */
module Sets {
  import opened Basics
  import opened Nfa

  /** The nodes reached from `s` by reading `w`, epsilon edges included. */
  ghost function After(g: Graph, s: set<nat>, w: seq<nat>): set<nat> {
    set q: nat | q < |g| && FromSome(g, s, w, q)
  }

  ghost predicate FromSome(g: Graph, s: set<nat>, w: seq<nat>, q: nat) {
    exists p :: p in s && Reaches(g, p, w, q)
  }

  /** The nodes entered from `t` over an edge that reads `c`. */
  ghost function MoveSet(g: Graph, t: set<nat>, c: nat): set<nat> {
    set q: nat | q < |g| && EntersFrom(g, t, c, q)
  }

  ghost predicate EntersFrom(g: Graph, t: set<nat>, c: nat, q: nat) {
    exists p :: p in t && Enters(g, p, c, q)
  }

  ghost predicate Enters(g: Graph, p: nat, c: nat, q: nat) {
    p < |g| && g[p].edge.Fires(c) && g[p].next == Some(q)
  }

  ghost predicate Within(g: Graph, s: set<nat>) {
    forall p :: p in s ==> p < |g|
  }

  /** `t` contains the epsilon successors of `p`. */
  ghost predicate EpsilonIn(g: Graph, p: nat, t: set<nat>)
    requires p < |g|
  {
    g[p].edge.Epsilon? ==>
      && (g[p].next.Some? ==> g[p].next.value in t)
      && (g[p].next2.Some? ==> g[p].next2.value in t)
  }

  lemma {:induction false} EpsilonClosedRun(g: Graph, t: set<nat>, p: nat, q: nat, n: nat)
    requires Within(g, t) && (forall x :: x in t ==> EpsilonIn(g, x, t)) && p in t && Run(g, p, [], q, n)
    ensures q in t
    decreases n
  {
    if n > 0 {
      assert EpsilonIn(g, p, t);
      if g[p].next.Some? && Run(g, g[p].next.value, [], q, n - 1) {
        EpsilonClosedRun(g, t, g[p].next.value, q, n - 1);
      } else {
        EpsilonClosedRun(g, t, g[p].next2.value, q, n - 1);
      }
    }
  }

  /** A set that contains `s`, is epsilon-closed and holds only reachable nodes is the closure of `s`. */
  lemma {:induction false} ClosureUnique(g: Graph, s: set<nat>, t: set<nat>)
    requires s <= t && Within(g, t) && (forall x :: x in t ==> EpsilonIn(g, x, t))
    requires t <= After(g, s, [])
    ensures t == After(g, s, [])
  {
    forall q | q in After(g, s, []) ensures q in t {
      var p :| p in s && Reaches(g, p, [], q);
      var n: nat :| Run(g, p, [], q, n);
      EpsilonClosedRun(g, t, p, q, n);
    }
  }

  lemma {:induction false} AfterSelf(g: Graph, s: set<nat>, p: nat)
    requires p in s && p < |g|
    ensures p in After(g, s, [])
  {
    assert Run(g, p, [], p, 0);
    assert Reaches(g, p, [], p);
  }

  lemma {:induction false} AfterEpsilon(g: Graph, s: set<nat>, p: nat, q: nat)
    requires p in After(g, s, []) && g[p].edge.Epsilon? && (g[p].next == Some(q) || g[p].next2 == Some(q)) && q < |g|
    ensures q in After(g, s, [])
  {
    var x :| x in s && Reaches(g, x, [], p);
    assert Run(g, q, [], q, 0);
    assert Run(g, p, [], q, 1);
    var none: seq<nat> := [];
    ReachesConcat(g, x, none, p, none, q);
    assert none + none == none;
  }

  /** Reading one more character: move, then close. */
  lemma {:induction false} AfterSnoc(g: Graph, s: set<nat>, w: seq<nat>, c: nat)
    requires Closed(g)
    ensures After(g, s, w + [c]) == After(g, MoveSet(g, After(g, s, w), c), [])
  {
    forall q | q in After(g, s, w + [c]) ensures q in After(g, MoveSet(g, After(g, s, w), c), []) {
      var p :| p in s && Reaches(g, p, w + [c], q);
      AfterSnocSound(g, s, w, c, p, q);
    }
    forall q | q in After(g, MoveSet(g, After(g, s, w), c), []) ensures q in After(g, s, w + [c]) {
      AfterSnocComplete(g, s, w, c, q);
    }
  }

  lemma {:induction false} AfterSnocSound(g: Graph, s: set<nat>, w: seq<nat>, c: nat, p: nat, q: nat)
    requires Closed(g) && p in s && q < |g| && Reaches(g, p, w + [c], q)
    ensures q in After(g, MoveSet(g, After(g, s, w), c), [])
  {
    var n: nat :| Run(g, p, w + [c], q, n);
    var y, m := RunSplit(g, p, w, [c], q, n);
    var z, y' := FirstRead(g, y, c, q, n - m);
    assert Reaches(g, p, w, y);
    ReachesConcat(g, p, w, y, [], z);
    assert w + [] == w;
    assert StaysIn(g[z], 0, |g|);
    assert Reaches(g, p, w, z);
    assert z in After(g, s, w);
    assert Enters(g, z, c, y');
    assert y' in MoveSet(g, After(g, s, w), c);
  }

  lemma {:induction false} AfterSnocComplete(g: Graph, s: set<nat>, w: seq<nat>, c: nat, q: nat)
    requires Closed(g) && q in After(g, MoveSet(g, After(g, s, w), c), [])
    ensures q in After(g, s, w + [c])
  {
    var y' :| y' in MoveSet(g, After(g, s, w), c) && Reaches(g, y', [], q);
    var z: nat :| z in After(g, s, w) && Enters(g, z, c, y');
    var p :| p in s && Reaches(g, p, w, z);
    var n: nat :| Run(g, y', [], q, n);
    assert [c][1..] == [];
    assert Run(g, z, [c], q, n + 1);
    ReachesConcat(g, p, w, z, [c], q);
  }

  /** A run over one character: epsilon edges, the reading edge, epsilon edges. */
  lemma {:induction false} FirstRead(g: Graph, y: nat, c: nat, q: nat, n: nat) returns (z: nat, y': nat)
    requires Run(g, y, [c], q, n)
    ensures Reaches(g, y, [], z) && Enters(g, z, c, y') && Reaches(g, y', [], q)
    decreases n
  {
    if !g[y].edge.Epsilon? {
      z, y' := y, g[y].next.value;
      assert Run(g, y, [], y, 0);
      assert [c][1..] == [];
      assert Run(g, y', [], q, n - 1);
    } else {
      var x := if g[y].next.Some? && Run(g, g[y].next.value, [c], q, n - 1) then g[y].next.value else g[y].next2.value;
      z, y' := FirstRead(g, x, c, q, n - 1);
      assert Run(g, x, [], x, 0);
      assert Run(g, y, [], x, 1);
      var none: seq<nat> := [];
      ReachesConcat(g, y, none, x, none, z);
      assert none + none == none;
    }
  }

  /** The numbers below `n`. */
  ghost function Below(n: nat): (s: set<nat>)
    ensures forall x: nat :: x in s <==> x < n
  {
    if n == 0 then {} else Below(n - 1) + {n - 1}
  }

  // Counting: there are at most 2^n sets of numbers below n.

  function Pow2(n: nat): (p: nat)
    ensures p > 0
  {
    if n == 0 then 1 else 2 * Pow2(n - 1)
  }

  lemma {:induction false} AtMostPow2(n: nat, family: set<set<nat>>)
    requires forall s, x :: s in family && x in s ==> x < n
    ensures |family| <= Pow2(n)
  {
    if n == 0 {
      forall s | s in family ensures s == {} {}
      assert family <= {{}};
      SubsetSize(family, {{}});
    } else {
      var with := set s | s in family && n - 1 in s;
      var without := family - with;
      var trimmed := Trimmed(with, n - 1);
      AtMostPow2(n - 1, without);
      AtMostPow2(n - 1, trimmed);
      TrimSize(with, n - 1);
      assert |trimmed| == |with|;
      assert family == with + without && |family| == |with| + |without|;
    }
  }

  ghost function Trimmed(family: set<set<nat>>, x: nat): set<set<nat>> {
    set s | s in family :: s - {x}
  }

  lemma {:induction false} TrimSize(family: set<set<nat>>, x: nat)
    requires forall s :: s in family ==> x in s
    ensures |Trimmed(family, x)| == |family|
  {
    var image := Trimmed(family, x);
    if family != {} {
      var s :| s in family;
      var rest := family - {s};
      TrimSize(rest, x);
      var image' := Trimmed(rest, x);
      forall t | t in rest ensures t - {x} != s - {x} {
        assert t == (t - {x}) + {x} && s == (s - {x}) + {x};
      }
      assert image == image' + {s - {x}};
    } else {
      assert image == {};
    }
  }
}
