/** CSimplifyNfa: the partition of the symbols into character classes, and the
    NFA rewritten to read classes instead of symbols. */
module Classes {
  import opened Basics
  import opened Nfa

  /** No edge among the first `n` tells `c` from `d`. */
  ghost predicate Alike(g: Graph, n: nat, c: nat, d: nat)
    requires n <= |g|
  {
    forall p :: 0 <= p < n ==> g[p].edge.Fires(c) == g[p].edge.Fires(d)
  }

  /** Class numbers are exactly `0..n`. */
  ghost predicate Contiguous(ccls: seq<nat>, n: nat) {
    && (forall c :: 0 <= c < |ccls| ==> ccls[c] < n)
    && forall k :: 0 <= k < n ==> k in ccls
  }

  /** The partition of `0..ncols` into classes that no edge of `g` splits, and no finer. */
  ghost predicate Coarsest(g: Graph, ccls: seq<nat>, n: nat) {
    && Contiguous(ccls, n)
    && forall c, d :: 0 <= c < |ccls| && 0 <= d < |ccls| ==> (ccls[c] == ccls[d] <==> Alike(g, |g|, c, d))
  }

  /** `new` splits each class of `old` by whether `edge` fires. */
  ghost predicate Refined(older: seq<nat>, newer: seq<nat>, edge: Edge) {
    && |older| == |newer|
    && forall c, d :: 0 <= c < |older| && 0 <= d < |older| ==>
         (newer[c] == newer[d] <==> older[c] == older[d] && edge.Fires(c) == edge.Fires(d))
  }

  method ComputeClasses(ncols: nat, g: Graph) returns (classes: seq<nat>, n: nat)
    requires ncols > 0
    ensures |classes| == ncols && Coarsest(g, classes, n)
  {
    var ccls := new nat[ncols](_ => 0);
    n := 1;
    assert ccls[..][0] in ccls[..];
    for p := 0 to |g|
      invariant Contiguous(ccls[..], n)
      invariant forall c, d :: 0 <= c < ncols && 0 <= d < ncols ==> (ccls[c] == ccls[d] <==> Alike(g, p, c, d))
    {
      if !g[p].edge.Epsilon? {
        n := SplitBy(ccls, g[p].edge, n);
      }
    }
    classes := ccls[..];
  }

  /** The body of the loop over the edges: split every class that shows up on both sides. */
  method SplitBy(ccls: array<nat>, edge: Edge, n: nat) returns (n': nat)
    requires Contiguous(ccls[..], n)
    modifies ccls
    ensures Contiguous(ccls[..], n') && Refined(old(ccls[..]), ccls[..], edge)
  {
    var both := BothSides(ccls, edge);
    n' := n;
    if both == {} {
      NothingToSplit(ccls[..], edge, both);
      return;
    }
    ghost var older := ccls[..];
    var h: map<nat, nat> := map[];
    for i := 0 to ccls.Length
      invariant Renaming(older, ccls[..], edge, both, h, n, n', i)
    {
      if ccls[i] in both && edge.Fires(i) {
        h, n' := Split(ccls, edge, both, h, n, n', i, older);
      }
    }
    SplitDone(older, ccls[..], edge, both, h, n, n');
  }

  /** Symbol `i` leaves its class for the class that the firing symbols of its class get. */
  method Split(ccls: array<nat>, edge: Edge, ghost both: set<nat>, h: map<nat, nat>, ghost n: nat, m: nat, i: nat,
               ghost older: seq<nat>)
      returns (h': map<nat, nat>, m': nat)
    requires Contiguous(older, n) && i < ccls.Length && Renaming(older, ccls[..], edge, both, h, n, m, i)
    requires ccls[i] in both && edge.Fires(i)
    modifies ccls
    ensures ccls.Length == |older| && Renaming(older, ccls[..], edge, both, h', n, m', i + 1)
  {
    ghost var before := ccls[..];
    var split := ccls[i];
    h', m' := h, m;
    if split !in h {
      h' := h[split := m];
      m' := m + 1;
    }
    ccls[i] := h'[split];
    assert ccls[..] == before[i := h'[split]];
    RenamingStep(older, before, ccls[..], edge, both, h, h', n, m, m', i);
  }

  /** Class `k` has symbols on which the edge fires and symbols on which it does not. */
  ghost predicate OnBothSides(ccls: seq<nat>, edge: Edge, k: nat) {
    && (exists c :: 0 <= c < |ccls| && edge.Fires(c) && ccls[c] == k)
    && (exists c :: 0 <= c < |ccls| && !edge.Fires(c) && ccls[c] == k)
  }

  method BothSides(ccls: array<nat>, edge: Edge) returns (both: set<nat>)
    ensures forall k: nat :: k in both <==> OnBothSides(ccls[..], edge, k)
  {
    var clsA, clsB: set<nat> := {}, {};
    for i := 0 to ccls.Length
      invariant forall k :: k in clsA <==> exists c :: 0 <= c < i && edge.Fires(c) && ccls[c] == k
      invariant forall k :: k in clsB <==> exists c :: 0 <= c < i && !edge.Fires(c) && ccls[c] == k
    {
      if edge.Fires(i) {
        clsA := clsA + {ccls[i]};
      } else {
        clsB := clsB + {ccls[i]};
      }
    }
    both := clsA * clsB;
  }

  lemma {:induction false} NothingToSplit(ccls: seq<nat>, edge: Edge, both: set<nat>)
    requires forall k: nat :: k in both <==> OnBothSides(ccls, edge, k)
    requires both == {}
    ensures Refined(ccls, ccls, edge)
  {
    forall c, d | 0 <= c < |ccls| && 0 <= d < |ccls| && ccls[c] == ccls[d]
      ensures edge.Fires(c) == edge.Fires(d)
    {
      assert !OnBothSides(ccls, edge, ccls[c]);
    }
  }

  /** The second loop after `i` symbols: `h` names the new class of every split class met so far. */
  ghost predicate Renaming(older: seq<nat>, newer: seq<nat>, edge: Edge, both: set<nat>, h: map<nat, nat>, n: nat,
                           n': nat, i: nat) {
    && |older| == |newer| && i <= |older| && n <= n'
    && (forall k :: k in h ==> k in both && n <= h[k] < n')
    && (forall k, l :: k in h && l in h && h[k] == h[l] ==> k == l)
    && (forall v :: n <= v < n' ==> v in newer)
    && (forall c :: 0 <= c < i && edge.Fires(c) && older[c] in both ==> older[c] in h && newer[c] == h[older[c]])
    && (forall c :: 0 <= c < |older| && !(c < i && edge.Fires(c) && older[c] in both) ==> newer[c] == older[c])
  }

  lemma {:induction false} RenamingStep(older: seq<nat>, before: seq<nat>, after: seq<nat>, edge: Edge, both: set<nat>,
                     h0: map<nat, nat>, h: map<nat, nat>, n: nat, n0: nat, n': nat, i: nat)
    requires Renaming(older, before, edge, both, h0, n, n0, i) && Contiguous(older, n)
    requires i < |older| && edge.Fires(i) && older[i] in both
    requires if older[i] in h0 then h == h0 && n' == n0 else h == h0[older[i] := n0] && n' == n0 + 1
    requires after == before[i := h[older[i]]]
    ensures Renaming(older, after, edge, both, h, n, n', i + 1)
  {
    forall v | n <= v < n' ensures v in after {
      if v == h[older[i]] {
        assert after[i] == v;
      } else {
        assert v in before;
        var j :| 0 <= j < |before| && before[j] == v;
        assert after[j] == v;
      }
    }
  }

  lemma {:induction false} SplitDone(older: seq<nat>, newer: seq<nat>, edge: Edge, both: set<nat>, h: map<nat, nat>,
                                     n: nat, n': nat)
    requires Contiguous(older, n) && Renaming(older, newer, edge, both, h, n, n', |older|)
    requires forall k: nat :: k in both <==> OnBothSides(older, edge, k)
    ensures Contiguous(newer, n') && Refined(older, newer, edge)
  {
    forall k | 0 <= k < n' ensures k in newer {
      if k < n {
        if k in both {
          var c :| 0 <= c < |older| && !edge.Fires(c) && older[c] == k;
          assert newer[c] == k;
        } else {
          assert k in older;
          var c :| 0 <= c < |older| && older[c] == k;
          assert newer[c] == k;
        }
      }
    }
  }

  // Rewriting the edges.

  /** What the rewritten edge must do: read class `ccls[c]` exactly when the original read `c`. */
  ghost predicate ReadsClasses(edge: Edge, mapped: Edge, ccls: seq<nat>) {
    forall c :: 0 <= c < |ccls| ==> mapped.Fires(ccls[c]) == edge.Fires(c)
  }

  /** CSet.map. */
  method MapSet(s: CharSet, mapping: seq<nat>) returns (t: CharSet)
    ensures t.complement == s.complement
    ensures forall k :: k in t.elems <==> exists c :: c in s.elems && c < |mapping| && mapping[c] == k
  {
    t := CharSet({}, s.complement);
    var rest := s.elems;
    while rest != {}
      invariant rest <= s.elems && t.complement == s.complement
      invariant forall k :: k in t.elems <==> exists c :: c in s.elems - rest && c < |mapping| && mapping[c] == k
      decreases |rest|
    {
      var old_value :| old_value in rest;
      rest := rest - {old_value};
      if old_value < |mapping| {
        t := t.(elems := t.elems + {mapping[old_value]});
      }
    }
  }

  /** The rewritten NFA differs only in its labels, and those read classes. */
  ghost predicate Simplified(g: Graph, g': Graph, ccls: seq<nat>) {
    && |g| == |g'|
    && forall p :: 0 <= p < |g| ==>
         && g'[p] == g[p].(edge := g'[p].edge)
         && g'[p].edge.Epsilon? == g[p].edge.Epsilon?
         && ReadsClasses(g[p].edge, g'[p].edge, ccls)
  }

  /** CSimplifyNfa.simplify.  A single-character label outside the alphabet has no class. */
  method Simplify(ncols: nat, g: Graph) returns (g': Graph, ccls: seq<nat>, n: nat)
    requires ncols > 0
    requires forall p :: 0 <= p < |g| && g[p].edge.Symbol? ==> g[p].edge.c < ncols
    ensures |ccls| == ncols && Coarsest(g, ccls, n) && Simplified(g, g', ccls)
  {
    ccls, n := ComputeClasses(ncols, g);
    g' := [];
    for p := 0 to |g|
      invariant |g'| == p && Simplified(g[..p], g', ccls)
    {
      var x := g[p];
      match x.edge {
        case Epsilon =>
        case Class(s) =>
          var t := MapSet(s, ccls);
          x := x.(edge := Class(t));
          MappedSet(g, ccls, n, p, t);
        case Symbol(c) =>
          x := x.(edge := Symbol(ccls[c]));
          assert forall d :: 0 <= d < ncols && ccls[d] == ccls[c] ==> Alike(g, |g|, d, c);
      }
      g' := g' + [x];
    }
    assert g[..|g|] == g;
  }

  lemma {:induction false} MappedSet(g: Graph, ccls: seq<nat>, n: nat, p: nat, t: CharSet)
    requires Coarsest(g, ccls, n) && p < |g| && g[p].edge.Class?
    requires t.complement == g[p].edge.chars.complement
    requires forall k :: k in t.elems <==> exists c :: c in g[p].edge.chars.elems && c < |ccls| && ccls[c] == k
    ensures ReadsClasses(g[p].edge, Class(t), ccls)
  {
    forall c | 0 <= c < |ccls| ensures Class(t).Fires(ccls[c]) == g[p].edge.Fires(c) {
      if d :| d in g[p].edge.chars.elems && d < |ccls| && ccls[d] == ccls[c] {
        assert Alike(g, |g|, d, c);
        assert g[p].edge.Fires(d) == g[p].edge.Fires(c);
      }
    }
  }

  function MapWord(ccls: seq<nat>, w: seq<nat>): (v: seq<nat>)
    requires forall i :: 0 <= i < |w| ==> w[i] < |ccls|
    ensures |v| == |w| && forall i :: 0 <= i < |w| ==> v[i] == ccls[w[i]]
  {
    seq(|w|, i requires 0 <= i < |w| => ccls[w[i]])
  }

  lemma {:induction false} SimplifiedRun(g: Graph, g': Graph, ccls: seq<nat>, p: nat, w: seq<nat>, q: nat, n: nat)
    requires Simplified(g, g', ccls) && forall i :: 0 <= i < |w| ==> w[i] < |ccls|
    ensures Run(g, p, w, q, n) == Run(g', p, MapWord(ccls, w), q, n)
    decreases n
  {
    if n > 0 && p < |g| {
      if g[p].next.Some? {
        SimplifiedRun(g, g', ccls, g[p].next.value, w, q, n - 1);
        if w != [] {
          SimplifiedRun(g, g', ccls, g[p].next.value, w[1..], q, n - 1);
          assert MapWord(ccls, w)[1..] == MapWord(ccls, w[1..]);
        }
      }
      if g[p].next2.Some? {
        SimplifiedRun(g, g', ccls, g[p].next2.value, w, q, n - 1);
      }
    }
  }

  /** Reading classes with the rewritten NFA is reading symbols with the original. */
  lemma {:induction false} SimplifiedReaches(g: Graph, g': Graph, ccls: seq<nat>, p: nat, w: seq<nat>, q: nat)
    requires Simplified(g, g', ccls) && forall i :: 0 <= i < |w| ==> w[i] < |ccls|
    ensures Reaches(g, p, w, q) <==> Reaches(g', p, MapWord(ccls, w), q)
  {
    forall n: nat {
      SimplifiedRun(g, g', ccls, p, w, q, n);
    }
  }
}
