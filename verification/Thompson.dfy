/** CMakeNfa: the recursive-descent construction of one NFA for all rules.
    Nodes live on a heap in allocation order; `states` is the vector of nodes
    (m_nfa_states), from which concatenation discards the starts it has copied. */
module Thompson {
  import opened Basics
  import opened Nfa
  import opened Regex
  import opened Fragments
  import opened Rules

  // What each parser routine builds.

  ghost predicate BuildsTerm(nchars: nat, g: Graph, lo: nat, s: nat, e: nat, t: Term) {
    && Fragment(g, lo, |g|, s, e, Eof(nchars))
    && forall w :: Word(nchars, w) ==> (Reaches(g, s, w, e) <==> InTerm(nchars, t, w))
  }

  ghost predicate BuildsFactor(nchars: nat, g: Graph, lo: nat, s: nat, e: nat, f: Factor) {
    && Fragment(g, lo, |g|, s, e, Eof(nchars))
    && forall w :: Word(nchars, w) ==> (Reaches(g, s, w, e) <==> InFactor(nchars, f, w))
  }

  ghost predicate BuildsCat(nchars: nat, g: Graph, lo: nat, s: nat, e: nat, c: Cat, j: nat)
    requires j <= |c.factors|
  {
    && Fragment(g, lo, |g|, s, e, Eof(nchars))
    && forall w :: Word(nchars, w) ==> (Reaches(g, s, w, e) <==> InCat(nchars, c, j, w))
  }

  /** `w` is in one of the first `i` alternatives of `x`. */
  ghost predicate InFirst(nchars: nat, x: Expr, i: nat, w: seq<nat>)
    requires i <= |x.cats|
  {
    exists k :: 0 <= k < i && InCat(nchars, x.cats[k], |x.cats[k].factors|, w)
  }

  ghost predicate BuildsAlternatives(nchars: nat, g: Graph, lo: nat, s: nat, e: nat, x: Expr, i: nat)
    requires i <= |x.cats|
  {
    && Fragment(g, lo, |g|, s, e, Eof(nchars))
    && forall w :: Word(nchars, w) ==> (Reaches(g, s, w, e) <==> InFirst(nchars, x, i, w))
  }

  ghost predicate BuildsExpr(nchars: nat, g: Graph, lo: nat, s: nat, e: nat, x: Expr) {
    && Fragment(g, lo, |g|, s, e, Eof(nchars))
    && forall w :: Word(nchars, w) ==> (Reaches(g, s, w, e) <==> InExpr(nchars, x, w))
  }

  lemma {:induction false} SubWord(nchars: nat, w: seq<nat>, k: nat)
    requires Word(nchars, w) && k <= |w|
    ensures Word(nchars, w[..k]) && Word(nchars, w[k..])
  {}

  /** The label that `term` gives the edge of a single-character fragment. */
  function AtomEdge(nchars: nat, t: Term): Edge
    requires !t.Group?
  {
    match t
    case Literal(c) => Symbol(c)
    case Any => Class(CharSet({NEWLINE, RETURN, Bol(nchars), Eof(nchars)}, true))
    case Bracket(negated, chars) =>
      if negated then Class(CharSet(chars + {Bol(nchars), Eof(nchars)}, true)) else Class(CharSet(chars, false))
  }

  function Atom(nchars: nat, g: Graph, t: Term): Graph
    requires !t.Group?
  {
    g + [BLANK.(edge := AtomEdge(nchars, t), next := Some(|g| + 1)), BLANK]
  }

  lemma {:induction false} AtomBuilds(nchars: nat, g: Graph, t: Term)
    requires !t.Group? && TermOk(nchars, t)
    ensures BuildsTerm(nchars, Atom(nchars, g, t), |g|, |g|, |g| + 1, t)
  {
    var g' := Atom(nchars, g, t);
    forall w | Word(nchars, w) ensures Reaches(g', |g|, w, |g| + 1) <==> InTerm(nchars, t, w) {
      AtEnd(g', |g|, w, |g| + 1);
    }
  }

  lemma {:induction false} RepeatedIsPlus(nchars: nat, g: Graph, s: nat, e: nat, t: Term, w: seq<nat>)
    requires forall v :: Word(nchars, v) ==> (Reaches(g, s, v, e) <==> InTerm(nchars, t, v))
    requires Word(nchars, w)
    ensures Repeated(g, s, e, true, w) <==> InPlus(nchars, t, w)
  {
    if Repeated(g, s, e, true, w) {
      RepeatedInPlus(nchars, g, s, e, t, w);
    }
    if InPlus(nchars, t, w) {
      PlusRepeated(nchars, g, s, e, t, w);
    }
  }

  lemma {:induction false} RepeatedInPlus(nchars: nat, g: Graph, s: nat, e: nat, t: Term, w: seq<nat>)
    requires forall v :: Word(nchars, v) ==> (Reaches(g, s, v, e) <==> InTerm(nchars, t, v))
    requires Word(nchars, w) && Repeated(g, s, e, true, w)
    ensures InPlus(nchars, t, w)
    decreases |w|
  {
    if Reaches(g, s, w, e) {
      assert w[..|w|] == w && w[|w|..] == [];
      assert InTerm(nchars, t, w[..|w|]) && InStar(nchars, t, w[|w|..]);
    } else {
      var k: nat :| 0 < k < |w| && Reaches(g, s, w[..k], e) && Repeated(g, s, e, true, w[k..]);
      SubWord(nchars, w, k);
      RepeatedInPlus(nchars, g, s, e, t, w[k..]);
      PlusIsStar(nchars, t, w[k..]);
      assert InTerm(nchars, t, w[..k]) && InStar(nchars, t, w[k..]);
    }
  }

  lemma {:induction false} PlusRepeated(nchars: nat, g: Graph, s: nat, e: nat, t: Term, w: seq<nat>)
    requires forall v :: Word(nchars, v) ==> (Reaches(g, s, v, e) <==> InTerm(nchars, t, v))
    requires Word(nchars, w) && InPlus(nchars, t, w)
    ensures Repeated(g, s, e, true, w)
    decreases |w|
  {
    var k := PlusCut(nchars, t, w);
    SubWord(nchars, w, k);
    if k == |w| {
      assert w[..k] == w;
    } else {
      StarIsPlus(nchars, t, w[k..]);
      PlusRepeated(nchars, g, s, e, t, w[k..]);
    }
  }

  /** A repetition has a first part that is not empty, unless it is empty as a whole. */
  lemma {:induction false} PlusCut(nchars: nat, t: Term, w: seq<nat>) returns (k: nat)
    requires InPlus(nchars, t, w)
    ensures k <= |w| && (k == |w| || k > 0) && InTerm(nchars, t, w[..k]) && InStar(nchars, t, w[k..])
  {
    k :| 0 <= k <= |w| && InTerm(nchars, t, w[..k]) && InStar(nchars, t, w[k..]);
    if k == 0 && w != [] {
      assert w[k..] == w;
      k :| 0 < k <= |w| && InTerm(nchars, t, w[..k]) && InStar(nchars, t, w[k..]);
    }
  }

  lemma {:induction false} PlusIsStar(nchars: nat, t: Term, w: seq<nat>)
    requires InPlus(nchars, t, w)
    ensures InStar(nchars, t, w)
  {
    var k: nat :| 0 <= k <= |w| && InTerm(nchars, t, w[..k]) && InStar(nchars, t, w[k..]);
    if k == 0 {
      assert w[0..] == w;
    }
  }

  lemma {:induction false} StarIsPlus(nchars: nat, t: Term, w: seq<nat>)
    requires InStar(nchars, t, w) && w != []
    ensures InPlus(nchars, t, w)
  {
    var k: nat :| 0 < k <= |w| && InTerm(nchars, t, w[..k]) && InStar(nchars, t, w[k..]);
    assert 0 <= k <= |w|;
  }

  /** Enclosing a term's fragment gives the language of the factor. */
  lemma {:induction false} FactorWords(nchars: nat, g: Graph, lo: nat, s: nat, e: nat, f: Factor)
    requires BuildsTerm(nchars, g, lo, s, e, f.term) && !f.closure.Once?
    ensures BuildsFactor(nchars, Enclose(g, s, e, !f.closure.Plus?, !f.closure.Optional?), lo, |g|, |g| + 1, f)
  {
    var g' := Enclose(g, s, e, !f.closure.Plus?, !f.closure.Optional?);
    EncloseFragment(g, lo, s, e, Eof(nchars), !f.closure.Plus?, !f.closure.Optional?);
    forall w | Word(nchars, w) ensures Reaches(g', |g|, w, |g| + 1) <==> InFactor(nchars, f, w) {
      EncloseWords(g, lo, s, e, Eof(nchars), !f.closure.Plus?, !f.closure.Optional?, w);
      if !f.closure.Optional? {
        RepeatedIsPlus(nchars, g, s, e, f.term, w);
        if InPlus(nchars, f.term, w) {
          PlusIsStar(nchars, f.term, w);
        }
        if w != [] && InStar(nchars, f.term, w) {
          StarIsPlus(nchars, f.term, w);
        }
      }
    }
  }

  /** Copying the start of the next factor onto the end of the prefix concatenates the languages. */
  lemma {:induction false} CatStep(nchars: nat, g0: Graph, g: Graph, lo: nat, s: nat, e: nat, s2: nat, e2: nat, c: Cat,
                                   j: nat)
    requires j < |c.factors| && g0 <= g
    requires BuildsCat(nchars, g0, lo, s, e, c, j) && BuildsFactor(nchars, g, |g0|, s2, e2, c.factors[j])
    ensures BuildsCat(nchars, g[e := g[s2]], lo, s, e2, c, j + 1)
  {
    var eof := Eof(nchars);
    FragmentFrame(g0, g, lo, |g0|, s, e, eof);
    CatFragment(g, lo, |g0|, |g|, s, e, s2, e2, eof);
    forall w | Word(nchars, w) ensures Reaches(g[e := g[s2]], s, w, e2) <==> InCat(nchars, c, j + 1, w) {
      CatWords(g, lo, |g0|, |g|, s, e, s2, e2, eof, w);
      CatSplit(nchars, g, s, e, s2, e2, c, j, w);
    }
  }

  /** A word of the first factors and one more splits as the two fragments split it. */
  lemma {:induction false} CatSplit(nchars: nat, g: Graph, s: nat, e: nat, s2: nat, e2: nat, c: Cat, j: nat,
                                    w: seq<nat>)
    requires j < |c.factors| && Word(nchars, w)
    requires forall v :: Word(nchars, v) ==> (Reaches(g, s, v, e) <==> InCat(nchars, c, j, v))
    requires forall v :: Word(nchars, v) ==> (Reaches(g, s2, v, e2) <==> InFactor(nchars, c.factors[j], v))
    ensures (exists k: nat :: Splits(g, s, e, s2, e2, w, k)) <==> InCat(nchars, c, j + 1, w)
  {
    if k: nat :| Splits(g, s, e, s2, e2, w, k) {
      SubWord(nchars, w, k);
      assert InCat(nchars, c, j, w[..k]) && InFactor(nchars, c.factors[j], w[k..]);
    } else if InCat(nchars, c, j + 1, w) {
      var k: nat :| 0 <= k <= |w| && InCat(nchars, c, j, w[..k]) && InFactor(nchars, c.factors[j], w[k..]);
      SubWord(nchars, w, k);
      assert Splits(g, s, e, s2, e2, w, k);
    }
  }

  lemma {:induction false} FirstFactor(nchars: nat, g: Graph, lo: nat, s: nat, e: nat, c: Cat)
    requires |c.factors| > 0 && BuildsFactor(nchars, g, lo, s, e, c.factors[0])
    ensures BuildsCat(nchars, g, lo, s, e, c, 1)
  {
    forall w | Word(nchars, w) ensures Reaches(g, s, w, e) <==> InCat(nchars, c, 1, w) {
      assert w[..0] == [] && w[0..] == w;
      assert InCat(nchars, c, 0, w[..0]);
    }
  }

  /** A new fork and a new join unite the languages of the alternatives. */
  lemma {:induction false} AltStep(nchars: nat, g0: Graph, g: Graph, lo: nat, s: nat, e: nat, s2: nat, e2: nat, x: Expr,
                                   i: nat)
    requires i < |x.cats| && g0 <= g
    requires BuildsAlternatives(nchars, g0, lo, s, e, x, i)
    requires BuildsCat(nchars, g, |g0|, s2, e2, x.cats[i], |x.cats[i].factors|)
    ensures BuildsAlternatives(nchars, Alternate(g, s, e, s2, e2), lo, |g|, |g| + 1, x, i + 1)
  {
    var eof := Eof(nchars);
    FragmentFrame(g0, g, lo, |g0|, s, e, eof);
    AltFragment(g, lo, |g0|, s, e, s2, e2, eof);
    forall w | Word(nchars, w)
      ensures Reaches(Alternate(g, s, e, s2, e2), |g|, w, |g| + 1) <==> InFirst(nchars, x, i + 1, w)
    {
      AltWords(g, lo, |g0|, s, e, s2, e2, eof, w);
    }
  }

  // The node vector.

  ghost predicate Live(x: Node, states: seq<nat>) {
    && (x.next.Some? ==> x.next.value in states)
    && (x.next2.Some? ==> x.next2.value in states)
  }

  ghost predicate ValidVector(heap: Graph, states: seq<nat>) {
    && Increasing(states)
    && (forall i :: 0 <= i < |states| ==> states[i] < |heap|)
    && forall p :: 0 <= p < |heap| ==> Live(heap[p], states)
  }

  /** The node's edges lead into the vector or among the nodes `lo..hi`. */
  ghost predicate LinksTo(x: Node, states: seq<nat>, lo: nat, hi: nat) {
    && (x.next.Some? ==> x.next.value in states || lo <= x.next.value < hi)
    && (x.next2.Some? ==> x.next2.value in states || lo <= x.next2.value < hi)
  }

  lemma {:induction false} ExtendedVector(heap: Graph, states: seq<nat>, xs: seq<Node>, ids: seq<nat>)
    requires ValidVector(heap, states)
    requires |ids| == |xs| && forall j :: 0 <= j < |xs| ==> ids[j] == |heap| + j
    requires forall i :: 0 <= i < |xs| ==> LinksTo(xs[i], states, |heap|, |heap| + |xs|)
    ensures ValidVector(heap + xs, states + ids)
    ensures forall x :: x in states + ids <==> x in states || |heap| <= x < |heap| + |xs|
  {
    forall x ensures x in ids <==> |heap| <= x < |heap| + |xs| {
      if |heap| <= x < |heap| + |xs| {
        assert ids[x - |heap|] == x;
      }
    }
    forall p | 0 <= p < |heap + xs| ensures Live((heap + xs)[p], states + ids) {
      if p < |heap| {
        assert Live(heap[p], states);
      } else {
        assert LinksTo(xs[p - |heap|], states, |heap|, |heap| + |xs|);
      }
    }
  }

  /** Vector.removeElement. */
  method RemoveElement(states: seq<nat>, x: nat) returns (r: seq<nat>)
    requires x in states && Increasing(states)
    ensures Increasing(r)
    ensures forall y :: y in r <==> y in states && y != x
    ensures forall k :: 0 <= k <= |states| && x !in states[..k] ==> states[..k] <= r
  {
    var i := 0;
    while states[i] != x
      invariant 0 <= i < |states|
      invariant x !in states[..i]
      decreases |states| - i
    {
      i := i + 1;
    }
    r := states[..i] + states[i + 1..];
  }

  class MakeNfa {
    const nchars: nat
    var heap: Graph
    var states: seq<nat>
    var stateRules: seq<seq<nat>>

    ghost predicate Valid()
      reads this
    {
      ValidVector(heap, states)
    }

    constructor (nchars: nat)
      ensures Valid() && this.nchars == nchars && heap == [] && states == []
    {
      this.nchars := nchars;
      heap, states, stateRules := [], [], [];
    }

    /** CAlloc.newCNfa. */
    method NewNode() returns (p: nat)
      requires Valid()
      modifies this`heap, this`states
      ensures Valid()
      ensures p == |old(heap)| && heap == old(heap) + [BLANK] && states == old(states) + [p]
      ensures p in states && forall x :: x in old(states) ==> x in states
    {
      p := |heap|;
      heap := heap + [BLANK];
      states := states + [p];
    }

    /** Allocates several nodes in a row, with their fields. */
    method Extend(xs: seq<Node>)
      requires Valid() && forall i :: 0 <= i < |xs| ==> LinksTo(xs[i], states, |heap|, |heap| + |xs|)
      modifies this`heap, this`states
      ensures Valid() && heap == old(heap) + xs && old(states) <= states
      ensures forall x :: x in states <==> x in old(states) || |old(heap)| <= x < |heap|
    {
      var n := |heap|;
      var ids: seq<nat> := [];
      for i := 0 to |xs|
        invariant |ids| == i && forall j :: 0 <= j < i ==> ids[j] == n + j
      {
        ids := ids + [n + i];
      }
      heap := heap + xs;
      states := states + ids;
      ExtendedVector(old(heap), old(states), xs, ids);
    }

    method TermNfa(t: Term) returns (s: nat, e: nat)
      requires Valid() && TermOk(nchars, t)
      modifies this`heap, this`states
      ensures Valid() && old(heap) <= heap && old(states) <= states
      ensures s in states && e in states
      ensures BuildsTerm(nchars, heap, |old(heap)|, s, e, t)
      decreases t, 0
    {
      match t
      case Group(x) =>
        s, e := ExprNfa(x);
      case _ =>
        s, e := AtomNfa(t);
    }

    /** The branch of `term` for a single character, `.` or a bracket expression. */
    method AtomNfa(t: Term) returns (s: nat, e: nat)
      requires Valid() && TermOk(nchars, t) && !t.Group?
      modifies this`heap, this`states
      ensures Valid() && old(heap) <= heap && old(states) <= states
      ensures s in states && e in states
      ensures BuildsTerm(nchars, heap, |old(heap)|, s, e, t)
    {
      ghost var g := heap;
      s, e := |heap|, |heap| + 1;
      Extend([BLANK.(edge := AtomEdge(nchars, t), next := Some(e)), BLANK]);
      AtomBuilds(nchars, g, t);
    }

    method FactorNfa(f: Factor) returns (s: nat, e: nat)
      requires Valid() && TermOk(nchars, f.term)
      modifies this`heap, this`states
      ensures Valid() && old(heap) <= heap && old(states) <= states
      ensures s in states && e in states
      ensures BuildsFactor(nchars, heap, |old(heap)|, s, e, f)
      decreases f, 1
    {
      s, e := TermNfa(f.term);
      if !f.closure.Once? {
        ghost var g := heap;
        ghost var s0, e0 := s, e;
        s, e := Wrap(s, e, f.closure);
        FactorWords(nchars, g, |old(heap)|, s0, e0, f);
      }
    }

    /** What `factor` puts around a term with a closure operator. */
    method Wrap(s: nat, e: nat, closure: Closure) returns (start: nat, end: nat)
      requires Valid() && s in states && e in states && heap[e] == BLANK && !closure.Once?
      modifies this`heap, this`states
      ensures Valid() && old(states) <= states
      ensures start == |old(heap)| && end == start + 1 && start in states && end in states
      ensures heap == Enclose(old(heap), s, e, !closure.Plus?, !closure.Optional?)
    {
      start, end := |heap|, |heap| + 1;
      Extend([BLANK.(next := Some(s), next2 := if closure.Star? || closure.Optional? then Some(end) else None), BLANK]);
      SetNode(e, BLANK.(next := Some(end), next2 := if closure.Star? || closure.Plus? then Some(s) else None));
    }

    method CatNfa(c: Cat) returns (s: nat, e: nat)
      requires Valid() && CatOk(nchars, c)
      modifies this`heap, this`states
      ensures Valid() && old(heap) <= heap && old(states) <= states
      ensures s in states && e in states
      ensures BuildsCat(nchars, heap, |old(heap)|, s, e, c, |c.factors|)
      decreases c, 2
    {
      ghost var lo := |heap|;
      s, e := FactorNfa(c.factors[0]);
      FirstFactor(nchars, heap, lo, s, e, c);
      var j := 1;
      while j < |c.factors|
        invariant 1 <= j <= |c.factors|
        invariant Valid() && old(heap) <= heap && old(states) <= states
        invariant s in states && e in states
        invariant BuildsCat(nchars, heap, lo, s, e, c, j)
      {
        s, e := Append(c, j, s, e, lo);
        j := j + 1;
      }
    }

    /** One round of the concatenation loop: the end mimics the start of the next
        factor's fragment, which is then discarded. */
    method Append(c: Cat, j: nat, s: nat, e: nat, ghost lo: nat) returns (s': nat, e': nat)
      requires Valid() && CatOk(nchars, c) && j < |c.factors|
      requires s in states && e in states && BuildsCat(nchars, heap, lo, s, e, c, j)
      modifies this`heap, this`states
      ensures Valid() && s' == s
      ensures |old(heap)| <= |heap| && forall p :: 0 <= p < lo ==> heap[p] == old(heap)[p]
      ensures old(states) <= states
      ensures s' in states && e' in states
      ensures BuildsCat(nchars, heap, lo, s', e', c, j + 1)
      decreases c, 1, j
    {
      ghost var g0 := heap;
      var s2, e2 := FactorNfa(c.factors[j]);
      ghost var g := heap;
      Discard(e, s2, e2, g0, old(states));
      CatStep(nchars, g0, g, lo, s, e, s2, e2, c, j);
      s', e' := s, e2;
    }

    /** Node `e` takes over the content of `s2`, the start of the newest fragment, which is discarded. */
    method Discard(e: nat, s2: nat, ghost e2: nat, ghost g0: Graph, ghost states0: seq<nat>)
      requires Valid() && ValidVector(g0, states0) && g0 <= heap && states0 <= states
      requires Fragment(heap, |g0|, |heap|, s2, e2, Eof(nchars)) && e in states0 && s2 in states && e2 in states
      modifies this`heap, this`states
      ensures Valid() && heap == old(heap)[e := old(heap)[s2]] && states0 <= states && e in states && e2 in states
    {
      DiscardSafe(g0, states0, heap, states, |g0|, e, s2, e2, Eof(nchars));
      heap := heap[e := heap[s2]];
      assert states[..|states0|] == states0;
      states := RemoveElement(states, s2);
      assert forall i :: 0 <= i < |states| ==> states[i] in states;
    }

    /** A new start that forks to `s` and `s2`, and a new end behind `e` and `e2`. */
    method Fork(s: nat, e: nat, s2: nat, e2: nat) returns (s': nat, e': nat)
      requires Valid() && {s, e, s2, e2} <= set x | x in states
      modifies this`heap, this`states
      ensures Valid() && heap == Alternate(old(heap), s, e, s2, e2) && s' == |old(heap)| && e' == |old(heap)| + 1
      ensures old(states) <= states && s' in states && e' in states
    {
      s', e' := |heap|, |heap| + 1;
      Extend([BLANK.(next := Some(s), next2 := Some(s2)), BLANK]);
      SetNode(e, heap[e].(next := Some(e')));
      SetNode(e2, heap[e2].(next := Some(e')));
    }

    /** One round of the alternation loop: a fork before both fragments, a join after them. */
    method Join(x: Expr, i: nat, s: nat, e: nat, ghost lo: nat) returns (s': nat, e': nat)
      requires Valid() && ExprOk(nchars, x) && i < |x.cats|
      requires s in states && e in states && BuildsAlternatives(nchars, heap, lo, s, e, x, i)
      modifies this`heap, this`states
      ensures Valid()
      ensures |old(heap)| <= |heap| && forall p :: 0 <= p < lo ==> heap[p] == old(heap)[p]
      ensures old(states) <= states
      ensures s' in states && e' in states
      ensures BuildsAlternatives(nchars, heap, lo, s', e', x, i + 1)
      decreases x, 2, i
    {
      ghost var g0 := heap;
      var s2, e2 := CatNfa(x.cats[i]);
      ghost var g := heap;
      FragmentFrame(g0, g, lo, |g0|, s, e, Eof(nchars));
      s', e' := Fork(s, e, s2, e2);
      AltStep(nchars, g0, g, lo, s, e, s2, e2, x, i);
    }

    method ExprNfa(x: Expr) returns (s: nat, e: nat)
      requires Valid() && ExprOk(nchars, x)
      modifies this`heap, this`states
      ensures Valid() && old(heap) <= heap && old(states) <= states
      ensures s in states && e in states
      ensures BuildsExpr(nchars, heap, |old(heap)|, s, e, x)
      decreases x, 3
    {
      ghost var lo := |heap|;
      s, e := CatNfa(x.cats[0]);
      var i := 1;
      while i < |x.cats|
        invariant 1 <= i <= |x.cats|
        invariant Valid() && old(heap) <= heap && old(states) <= states
        invariant s in states && e in states
        invariant BuildsAlternatives(nchars, heap, lo, s, e, x, i)
      {
        s, e := Join(x, i, s, e, lo);
        i := i + 1;
      }
    }

    /** Assigns the fields of a node. */
    method SetNode(p: nat, x: Node)
      requires Valid() && p < |heap| && Live(x, states)
      modifies this`heap, this`states
      ensures Valid() && heap == old(heap)[p := x] && states == old(states)
    {
      heap := heap[p := x];
    }

    /** The routine `rule`, for rule number `k`. */
    method RuleNfa(spec: Spec, k: nat) returns (start: nat, end: nat)
      requires Valid() && SpecOk(spec) && spec.nchars == nchars && k < |spec.rules|
      modifies this`heap, this`states
      ensures Valid() && old(heap) <= heap && old(states) <= states
      ensures start in states && end in states
      ensures BuildsRule(spec, heap, |old(heap)|, |heap|, start, end, k)
    {
      var r := spec.rules[k];
      var s, e := ExprNfa(r.expr);
      ghost var g0 := heap;
      start, end := s, e;
      if r.bol {
        start := NewNode();
        SetNode(start, BLANK.(edge := Symbol(Bol(nchars)), next := Some(s)));
      }
      assert heap == if r.bol then WithBol(g0, s, Bol(nchars)) else g0;
      if r.eol {
        end := EolTail(e);
      }
      SetNode(end, heap[end].(accept := Some(k), anchor := Anchor(r.bol, r.eol)));
      assert heap == RuleGraph(spec, g0, s, e, k);
      RuleWords(spec, g0, |old(heap)|, s, e, k);
      RulePrefix(spec, old(heap), g0, s, e, k);
    }

    /** What `rule` puts behind an expression for `$`: the nodes of newNLPair, its end
        first, then the fork and the node that reads EOF. */
    method EolTail(e: nat) returns (end: nat)
      requires Valid() && e in states
      modifies this`heap, this`states
      ensures Valid() && heap == WithTail(nchars, old(heap), e)
      ensures old(states) <= states && end == |old(heap)| && end in states
      ensures forall x :: x in old(states) ==> x in states
    {
      end := |heap|;
      Extend(Tail(nchars, end));
      SetNode(e, heap[e].(next := Some(end + 6)));
    }

    /** processStates: registers a rule's start in the lexical states it is active in. */
    method ProcessStates(nstates: nat, active: set<nat>, start: nat)
      requires |stateRules| == nstates
      modifies this`stateRules
      ensures |stateRules| == nstates
      ensures forall i :: 0 <= i < nstates ==>
                stateRules[i] == old(stateRules)[i] + (if i in active then [start] else [])
    {
      for i := 0 to nstates
        invariant |stateRules| == nstates
        invariant forall j :: 0 <= j < i ==> stateRules[j] == old(stateRules)[j] + (if j in active then [start] else [])
        invariant forall j :: i <= j < nstates ==> stateRules[j] == old(stateRules)[j]
      {
        if i in active {
          stateRules := stateRules[i := stateRules[i] + [start]];
        }
      }
    }

    /** Rule `k`, which starts at node `s`, is recorded for the states it is active in. */
    method Register(spec: Spec, k: nat, active: set<nat>, s: nat, ghost starts: seq<nat>)
      requires |starts| == k <= |spec.rules| && |stateRules| == spec.nstates
      requires forall i: nat :: i < spec.nstates ==> (i in active <==> ActiveIn(spec, k, i))
      requires forall i :: 0 <= i < spec.nstates ==> stateRules[i] == StartsIn(spec, i, starts, k)
      modifies this`stateRules
      ensures |stateRules| == spec.nstates
      ensures forall i :: 0 <= i < spec.nstates ==> stateRules[i] == StartsIn(spec, i, starts + [s], k + 1)
    {
      StartsGrow(spec, starts, k, s);
      ProcessStates(spec.nstates, active, s);
    }

    /** The state of the loop of `machine` after `k` rules; `p` is the current chain node. */
    ghost predicate Assembled(spec: Spec, l: Layout, k: nat, p: nat)
      requires k <= |spec.rules| + 1
      reads this
    {
      && Valid() && Parts(spec, heap, l, k)
      && p in states && p < |heap| && Glue(heap[p]) && !l.InPart(p)
      && (forall j :: 0 <= j < k ==> l.starts[j] in states && l.ends[j] in states)
      && |stateRules| == spec.nstates
      && forall i :: 0 <= i < spec.nstates ==> stateRules[i] == StartsIn(spec, i, l.starts, k)
    }

    /** Links the chain node `p` to the part just built behind `g`, and records the part. */
    method Attach(spec: Spec, k: nat, p: nat, s: nat, e: nat, ghost g: Graph,
                  ghost l: Layout) returns (ghost l': Layout)
      requires k <= |spec.rules| && Valid() && g <= heap && Parts(spec, g, l, k)
      requires p in states && p < |g| && Glue(g[p]) && !l.InPart(p) && s in states && e in states
      requires BuildsRule(spec, heap, |g|, |heap|, s, e, k)
      modifies this`heap, this`states
      ensures Valid() && states == old(states) && l' == l.Add(|g|, |heap|, s, e) && Parts(spec, heap, l', k + 1)
      ensures p < |heap| && Glue(heap[p]) && !l'.InPart(p)
    {
      ghost var h := heap;
      SetNode(p, heap[p].(next := Some(s)));
      l' := l.Add(|g|, |heap|, s, e);
      RuleFrame(spec, h, heap, |g|, |h|, s, e, k);
      PartsExtend(spec, g, heap, l, k, |g|, s, e);
    }

    method AddPart(spec: Spec, k: nat, p: nat, s: nat, e: nat, active: set<nat>, ghost g: Graph,
                   ghost l: Layout) returns (ghost l': Layout)
      requires k <= |spec.rules| && Valid() && g <= heap && Parts(spec, g, l, k)
      requires p in states && p < |g| && Glue(g[p]) && !l.InPart(p) && s in states && e in states
      requires BuildsRule(spec, heap, |g|, |heap|, s, e, k)
      requires forall j :: 0 <= j < k ==> l.starts[j] in states && l.ends[j] in states
      requires |stateRules| == spec.nstates
      requires forall i: nat :: i < spec.nstates ==> (i in active <==> ActiveIn(spec, k, i))
      requires forall i :: 0 <= i < spec.nstates ==> stateRules[i] == StartsIn(spec, i, l.starts, k)
      modifies this
      ensures Assembled(spec, l', k + 1, p)
    {
      l' := Attach(spec, k, p, s, e, g, l);
      Register(spec, k, active, s, l.starts);
    }

    /** One rule of `machine`: build it behind the chain node and register it. */
    method AddRule(spec: Spec, k: nat, p: nat, ghost l: Layout) returns (ghost l': Layout)
      requires SpecOk(spec) && spec.nchars == nchars && k < |spec.rules| && Assembled(spec, l, k, p)
      modifies this
      ensures Assembled(spec, l', k + 1, p)
    {
      ghost var g := heap;
      var s, e := RuleNfa(spec, k);
      l' := AddPart(spec, k, p, s, e, spec.rules[k].states, g, l);
    }

    /** The routine `machine`: every rule, then the silent rule for BOL and EOF. */
    method Machinery(spec: Spec) returns (ghost l: Layout)
      requires SpecOk(spec) && spec.nchars == nchars && heap == [] && states == []
      modifies this
      ensures Valid() && Machine(spec, heap, l.starts, l.ends)
      ensures forall j :: 0 <= j <= |spec.rules| ==> l.starts[j] in states && l.ends[j] in states
      ensures |stateRules| == spec.nstates
      ensures forall i :: 0 <= i < spec.nstates ==> stateRules[i] == StartsIn(spec, i, l.starts, |spec.rules| + 1)
    {
      stateRules := seq(spec.nstates, _ => []);
      l := Layout([], [], [], []);
      var p := NewNode();
      var k := 0;
      while k < |spec.rules|
        invariant 0 <= k <= |spec.rules|
        invariant Assembled(spec, l, k, p)
      {
        if k > 0 {
          p := Chain(spec, k, p, l);
        }
        l := AddRule(spec, k, p, l);
        k := k + 1;
      }
      p := Chain(spec, k, p, l);
      l := AddSilent(spec, p, l);
      PartsMachine(spec, heap, l);
    }

    /** A new chain node behind `p`. */
    method Chain(spec: Spec, k: nat, p: nat, ghost l: Layout) returns (p': nat)
      requires k <= |spec.rules| && Assembled(spec, l, k, p)
      modifies this`heap, this`states
      ensures Assembled(spec, l, k, p')
    {
      ghost var g := heap;
      p' := NewNode();
      SetNode(p, heap[p].(next2 := Some(p')));
      PartsGlue(spec, g, heap, l, k);
    }

    method AddSilent(spec: Spec, p: nat, ghost l: Layout) returns (ghost l': Layout)
      requires spec.nchars == nchars && Assembled(spec, l, |spec.rules|, p)
      modifies this
      ensures Assembled(spec, l', |spec.rules| + 1, p)
    {
      ghost var g := heap;
      var s, e := SilentRule(spec);
      var all := AllStates(spec.nstates);
      l' := AddPart(spec, |spec.rules|, p, s, e, all, g, l);
    }

    static method AllStates(n: nat) returns (all: set<nat>)
      ensures forall j: nat :: j in all <==> j < n
    {
      all := {};
      for i := 0 to n
        invariant forall j: nat :: j in all <==> j < i
      {
        all := all + {i};
      }
    }

    method SilentRule(spec: Spec) returns (s: nat, e: nat)
      requires Valid() && spec.nchars == nchars
      modifies this`heap, this`states
      ensures Valid() && old(heap) <= heap && old(states) <= states
      ensures s in states && e in states
      ensures BuildsRule(spec, heap, |old(heap)|, |heap|, s, e, |spec.rules|)
    {
      ghost var g := heap;
      s, e := |heap|, |heap| + 1;
      Extend([BLANK.(edge := Class(CharSet({Bol(nchars), Eof(nchars)}, false)), next := Some(e)),
              BLANK.(accept := Some(|spec.rules|))]);
      SilentWords(spec, g);
    }

    /** The labelling loop of `thompson`, and the nodes seen through their labels. */
    method LabelNodes() returns (g: Graph, labelOf: map<nat, nat>)
      requires Valid()
      ensures Labels(heap, states, g) && Labelling(states, labelOf)
    {
      labelOf := MakeLabels(states);
      g := [];
      for i := 0 to |states|
        invariant |g| == i
        invariant forall j :: 0 <= j < i ==> SameNode(states, heap[states[j]], g[j])
      {
        var x := heap[states[i]];
        assert Live(x, states);
        g := g + [x.(next := Relabelled(states, labelOf, x.next), next2 := Relabelled(states, labelOf, x.next2))];
      }
    }
  }

  method MakeLabels(states: seq<nat>) returns (labelOf: map<nat, nat>)
    ensures Labelling(states, labelOf)
  {
    labelOf := map[];
    for i := 0 to |states|
      invariant Labelling(states[..i], labelOf)
    {
      ghost var before := labelOf;
      labelOf := labelOf[states[i] := i];
      LabellingStep(states, i, before, labelOf);
    }
    assert states[..|states|] == states;
  }

  lemma {:induction false} LabellingStep(states: seq<nat>, i: nat, before: map<nat, nat>, after: map<nat, nat>)
    requires i < |states| && Labelling(states[..i], before) && after == before[states[i] := i]
    ensures Labelling(states[..i + 1], after)
  {
    assert states[..i + 1] == states[..i] + [states[i]];
    forall x | x in after ensures LabelOk(states[..i + 1], after, x) {
      if x != states[i] {
        assert LabelOk(states[..i], before, x);
      }
    }
  }

  /** A pointer seen through the labels. */
  function Relabelled(ghost states: seq<nat>, labelOf: map<nat, nat>, p: Option<nat>): (r: Option<nat>)
    requires Labelling(states, labelOf) && (p.Some? ==> p.value in states)
    ensures SamePointer(states, p, r)
  {
    if p.Some? then
      assert LabelOk(states, labelOf, p.value);
      Some(labelOf[p.value])
    else None
  }

  /** The routine `thompson`: the labelled machine of a specification, with the labels
      of the rule starts to try in each lexical state. */
  method MakeMachine(spec: Spec)
      returns (g: Graph, stateRules: seq<seq<nat>>, ghost starts: seq<nat>, ghost ends: seq<nat>)
    requires SpecOk(spec)
    ensures Machine(spec, g, starts, ends)
    ensures |stateRules| == spec.nstates
    ensures forall i :: 0 <= i < spec.nstates ==> StartsFor(spec, i, starts, stateRules[i])
  {
    var maker := new MakeNfa(spec.nchars);
    ghost var l := maker.Machinery(spec);
    var labelOf;
    g, labelOf := maker.LabelNodes();
    starts, ends := Positions(maker.states, l.starts), Positions(maker.states, l.ends);
    LabelledMachine(spec, maker.heap, maker.states, g, l.starts, l.ends, starts, ends);
    stateRules := LabelRules(spec, maker.states, labelOf, maker.stateRules, l.starts, starts);
  }

  /** The rule starts of every lexical state, by label. */
  method LabelRules(spec: Spec, ghost states: seq<nat>, labelOf: map<nat, nat>, rules: seq<seq<nat>>,
                    ghost starts: seq<nat>, ghost starts': seq<nat>)
      returns (stateRules: seq<seq<nat>>)
    requires |rules| == spec.nstates && Labelling(states, labelOf) && Increasing(states)
    requires |starts| == |starts'| == |spec.rules| + 1
    requires forall k :: 0 <= k < |starts| ==> starts[k] in states
    requires forall k :: 0 <= k < |starts| ==> starts'[k] < |states| && states[starts'[k]] == starts[k]
    requires forall i :: 0 <= i < spec.nstates ==> rules[i] == StartsIn(spec, i, starts, |spec.rules| + 1)
    ensures |stateRules| == spec.nstates
    ensures forall i :: 0 <= i < spec.nstates ==> StartsFor(spec, i, starts', stateRules[i])
  {
    stateRules := [];
    for i := 0 to spec.nstates
      invariant |stateRules| == i
      invariant forall j :: 0 <= j < i ==> StartsFor(spec, j, starts', stateRules[j])
    {
      StartsInLive(spec, i, starts, |spec.rules| + 1, states);
      var labels := LabelAll(states, labelOf, rules[i]);
      StartsRelabelled(spec, i, starts, starts', states, rules[i], labels);
      stateRules := stateRules + [labels];
    }
  }

  /** `labels` names exactly the starts of the rules active in lexical state `i`. */
  ghost predicate StartsFor(spec: Spec, i: nat, starts: seq<nat>, labels: seq<nat>)
    requires |starts| == |spec.rules| + 1
  {
    forall x :: x in labels <==> exists k :: 0 <= k <= |spec.rules| && ActiveIn(spec, k, i) && starts[k] == x
  }

  ghost function Position(s: seq<nat>, x: nat): (i: nat)
    requires x in s
    ensures i < |s| && s[i] == x
  {
    var i :| 0 <= i < |s| && s[i] == x; i
  }

  ghost function Positions(s: seq<nat>, xs: seq<nat>): (r: seq<nat>)
    requires forall i :: 0 <= i < |xs| ==> xs[i] in s
    ensures |r| == |xs| && forall i :: 0 <= i < |xs| ==> r[i] < |s| && s[r[i]] == xs[i]
  {
    seq(|xs|, i requires 0 <= i < |xs| => Position(s, xs[i]))
  }

  /** Every node of the vector has its position as its label. */
  ghost predicate Labelling(states: seq<nat>, labelOf: map<nat, nat>) {
    && (forall x :: x in states <==> x in labelOf)
    && forall x :: x in labelOf ==> LabelOk(states, labelOf, x)
  }

  ghost predicate LabelOk(states: seq<nat>, labelOf: map<nat, nat>, x: nat)
    requires x in labelOf
  {
    labelOf[x] < |states| && states[labelOf[x]] == x
  }

  method LabelAll(ghost states: seq<nat>, labelOf: map<nat, nat>, xs: seq<nat>) returns (labels: seq<nat>)
    requires Labelling(states, labelOf) && forall i :: 0 <= i < |xs| ==> xs[i] in states
    ensures |labels| == |xs| && forall i :: 0 <= i < |xs| ==> labels[i] < |states| && states[labels[i]] == xs[i]
  {
    labels := [];
    for i := 0 to |xs|
      invariant |labels| == i
      invariant forall j :: 0 <= j < i ==> labels[j] < |states| && states[labels[j]] == xs[j]
    {
      labels := labels + [labelOf[xs[i]]];
    }
  }

  lemma {:induction false} StartsInLive(spec: Spec, i: nat, starts: seq<nat>, n: nat, states: seq<nat>)
    requires n <= |starts| && n <= |spec.rules| + 1
    requires forall k :: 0 <= k < n ==> starts[k] in states
    ensures forall j :: 0 <= j < |StartsIn(spec, i, starts, n)| ==> StartsIn(spec, i, starts, n)[j] in states
  {
    if n > 0 {
      StartsInLive(spec, i, starts, n - 1, states);
    }
  }

  lemma {:induction false} StartsRelabelled(spec: Spec, i: nat, starts: seq<nat>, starts': seq<nat>, states: seq<nat>,
                                            xs: seq<nat>, labels: seq<nat>)
    requires |starts| == |starts'| == |spec.rules| + 1 && Increasing(states)
    requires forall k :: 0 <= k < |starts| ==> starts'[k] < |states| && states[starts'[k]] == starts[k]
    requires xs == StartsIn(spec, i, starts, |spec.rules| + 1)
    requires |labels| == |xs| && forall j :: 0 <= j < |xs| ==> labels[j] < |states| && states[labels[j]] == xs[j]
    ensures StartsFor(spec, i, starts', labels)
  {
    forall x: nat
      ensures x in labels <==> exists k :: 0 <= k <= |spec.rules| && ActiveIn(spec, k, i) && starts'[k] == x
    {
      if x < |states| {
        StartsInMembers(spec, i, starts, |spec.rules| + 1, states[x]);
        if x in labels {
          var j :| 0 <= j < |labels| && labels[j] == x;
          assert xs[j] in xs;
          var k :| 0 <= k < |spec.rules| + 1 && ActiveIn(spec, k, i) && starts[k] == states[x];
          assert starts'[k] == x;
        }
        if k :| 0 <= k <= |spec.rules| && ActiveIn(spec, k, i) && starts'[k] == x {
          assert states[x] in xs;
          var j :| 0 <= j < |xs| && xs[j] == states[x];
          assert labels[j] == x;
        }
      }
    }
  }

  lemma {:induction false} StartsGrow(spec: Spec, starts: seq<nat>, k: nat, s: nat)
    requires |starts| == k <= |spec.rules|
    ensures forall i: nat :: StartsIn(spec, i, starts + [s], k + 1) ==
                        StartsIn(spec, i, starts, k) + (if ActiveIn(spec, k, i) then [s] else [])
  {
    forall i: nat {
      StartsPrefix(spec, i, starts, starts + [s], k);
    }
  }

  lemma {:induction false} StartsPrefix(spec: Spec, i: nat, starts: seq<nat>, starts': seq<nat>, n: nat)
    requires n <= |starts| && starts <= starts' && n <= |spec.rules| + 1
    ensures StartsIn(spec, i, starts, n) == StartsIn(spec, i, starts', n)
  {
    if n > 0 {
      StartsPrefix(spec, i, starts, starts', n - 1);
    }
  }

  /** Linking and adding chain nodes leaves the parts alone. */
  lemma {:induction false} PartsGlue(spec: Spec, g: Graph, g': Graph, l: Layout, n: nat)
    requires n <= |spec.rules| + 1 && Parts(spec, g, l, n) && |g| <= |g'|
    requires forall q: nat :: q < |g| && l.InPart(q) ==> g'[q] == g[q]
    requires forall q: nat :: q < |g'| && !l.InPart(q) ==> Glue(g'[q])
    ensures Parts(spec, g', l, n)
  {
    forall k | 0 <= k < n ensures BuildsRule(spec, g', l.los[k], l.his[k], l.starts[k], l.ends[k], k) {
      PartKept(spec, g, g', l, n, k);
    }
  }

  /** A rule's part is built behind everything that was there before. */
  lemma {:induction false} RulePrefix(spec: Spec, h: Graph, g0: Graph, s: nat, e: nat, k: nat)
    requires k < |spec.rules| && h <= g0 && |h| <= e < |g0|
    ensures h <= RuleGraph(spec, g0, s, e, k)
  {}

  /** Nothing points at the start of a fragment, so it can leave the vector once it is copied. */
  lemma {:induction false} DiscardSafe(g0: Graph, states0: seq<nat>, g: Graph, states: seq<nat>, mid: nat, e: nat,
                                       s2: nat, e2: nat, eof: nat)
    requires ValidVector(g0, states0) && mid == |g0| && g0 <= g
    requires ValidVector(g, states) && states0 <= states
    requires e < mid && Fragment(g, mid, |g|, s2, e2, eof)
    ensures forall p :: 0 <= p < |g| ==> g[p].next != Some(s2) && g[p].next2 != Some(s2)
    ensures s2 !in states0
  {
    forall p | 0 <= p < |g| ensures g[p].next != Some(s2) && g[p].next2 != Some(s2) {
      if p < mid {
        assert Live(g0[p], states0);
      } else {
        assert Inner(g[p], mid, |g|, s2, eof);
      }
    }
  }
}
