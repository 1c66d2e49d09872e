/** The words recognised by a whole rule: `^` in front, `$` behind, the accepting
    end; and what it means for a graph to be the machine of a specification. */
module Rules {
  import opened Basics
  import opened Nfa
  import opened Regex
  import opened Fragments

  /** Nodes `lo..hi` are rule number `k`: closed, one accepting dead end, and the
      pseudo-character `eof` is read only on the way into that end. */
  ghost predicate RulePart(g: Graph, lo: nat, hi: nat, s: nat, e: nat, k: nat, eof: nat) {
    && lo <= s < hi <= |g| && lo <= e < hi
    && DeadEnd(g, e) && g[e].accept == Some(k)
    && forall p :: lo <= p < hi ==> RuleNode(g[p], lo, hi, p == e, e, eof)
  }

  /** What RulePart asks of one node. */
  ghost predicate RuleNode(x: Node, lo: nat, hi: nat, isEnd: bool, e: nat, eof: nat) {
    && StaysIn(x, lo, hi)
    && (!isEnd ==> x.accept.None?)
    && (x.edge.Fires(eof) ==> x.next == Some(e))
    && (x.edge.Symbol? ==> x.edge.c <= eof)
  }

  /** The part recognises exactly the words rule `k` of the specification matches. */
  ghost predicate BuildsRule(spec: Spec, g: Graph, lo: nat, hi: nat, s: nat, e: nat, k: nat)
    requires k <= |spec.rules|
  {
    && RulePart(g, lo, hi, s, e, k, Eof(spec.nchars))
    && g[e].anchor == AnchorOf(spec, k)
    && forall w :: Word(spec.nchars, w) ==> (Reaches(g, s, w, e) <==> Matches(spec, k, w))
  }

  function AnchorOf(spec: Spec, k: nat): Anchor
    requires k <= |spec.rules|
  {
    if k < |spec.rules| then Anchor(spec.rules[k].bol, spec.rules[k].eol) else NO_ANCHOR
  }

  lemma {:induction false} RuleFrame(spec: Spec, g: Graph, g': Graph, lo: nat, hi: nat, s: nat, e: nat, k: nat)
    requires k <= |spec.rules| && BuildsRule(spec, g, lo, hi, s, e, k) && hi <= |g'|
    requires forall i :: lo <= i < hi ==> g[i] == g'[i]
    ensures BuildsRule(spec, g', lo, hi, s, e, k)
  {
    forall p | lo <= p < hi ensures StaysIn(g'[p], lo, hi) {
      assert StaysIn(g[p], lo, hi);
    }
    forall w {
      ReachesFrame(g, g', lo, hi, s, w, e);
    }
  }

  // `^`: a node that reads BOL in front of the fragment.

  function WithBol(g: Graph, s: nat, bol: nat): Graph {
    g + [BLANK.(edge := Symbol(bol), next := Some(s))]
  }

  // `$`: eight nodes behind the fragment that read a line terminator or EOF.
  // Node n is the new end; n+1..n+5 read a line terminator, n+7 reads EOF.

  function NewlineSet(nchars: nat): CharSet {
    if nchars > PARAGRAPH_SEPARATOR then CharSet({NEWLINE, LINE_SEPARATOR, PARAGRAPH_SEPARATOR}, false)
    else CharSet({NEWLINE}, false)
  }

  function Tail(nchars: nat, n: nat): (t: Graph)
    ensures |t| == 8
  {
    [ BLANK,
      BLANK.(next := Some(n + 2), next2 := Some(n + 3)),
      BLANK.(edge := Class(NewlineSet(nchars)), next := Some(n)),
      BLANK.(edge := Symbol(RETURN), next := Some(n + 4)),
      BLANK.(next := Some(n), next2 := Some(n + 5)),
      BLANK.(edge := Symbol(NEWLINE), next := Some(n)),
      BLANK.(next := Some(n + 1), next2 := Some(n + 7)),
      BLANK.(edge := Symbol(Eof(nchars)), next := Some(n)) ]
  }

  function WithTail(nchars: nat, g: Graph, e: nat): Graph
    requires e < |g|
  {
    g[e := g[e].(next := Some(|g| + 6))] + Tail(nchars, |g|)
  }

  ghost predicate HasTail(nchars: nat, g: Graph, n: nat) {
    n + 8 <= |g| && g[n..n + 8] == Tail(nchars, n)
  }

  lemma {:induction false} TailNode(nchars: nat, g: Graph, n: nat, i: nat)
    requires HasTail(nchars, g, n) && i < 8
    ensures g[n + i] == Tail(nchars, n)[i]
  {
    assert g[n..n + 8][i] == g[n + i];
  }

  /** From the fork behind the fragment to the new end: what `$` matches. */
  lemma {:induction false} TailWords(nchars: nat, g: Graph, n: nat, w: seq<nat>)
    requires HasTail(nchars, g, n) && nchars >= 128 && Word(nchars, w)
    ensures Reaches(g, n + 6, w, n) <==> LineEnd(nchars, w)
  {
    ReadsNewline(nchars, g, n, w);
    TailNode(nchars, g, n, 6);
    TailNode(nchars, g, n, 7);
    TailNode(nchars, g, n, 0);
    EpsilonFork(g, n + 6, w, n);
    AtEnd(g, n + 7, w, n);
  }

  /** A labelled edge straight into a dead end reads one character. */
  lemma {:induction false} AtEnd(g: Graph, p: nat, w: seq<nat>, e: nat)
    requires p < |g| && p != e && DeadEnd(g, e) && !g[p].edge.Epsilon? && g[p].next == Some(e)
    ensures Reaches(g, p, w, e) <==> |w| == 1 && g[p].edge.Fires(w[0])
  {
    LabelledStep(g, p, w, e);
    if w != [] {
      DeadEndRuns(g, e, w[1..], e);
    }
  }

  /** The fragment of newNLPair: a line terminator, CR LF counting as one. */
  lemma {:induction false} ReadsNewline(nchars: nat, g: Graph, n: nat, w: seq<nat>)
    requires HasTail(nchars, g, n) && nchars >= 128 && Word(nchars, w)
    ensures Reaches(g, n + 1, w, n) <==> LineEnd(nchars, w) && w != [Eof(nchars)]
  {
    TailNode(nchars, g, n, 0);
    TailNode(nchars, g, n, 1);
    TailNode(nchars, g, n, 2);
    TailNode(nchars, g, n, 3);
    EpsilonFork(g, n + 1, w, n);
    AtEnd(g, n + 2, w, n);
    LabelledStep(g, n + 3, w, n);
    if w != [] {
      AfterReturn(nchars, g, n, w[1..]);
    }
  }

  /** After CR: nothing, or LF. */
  lemma {:induction false} AfterReturn(nchars: nat, g: Graph, n: nat, w: seq<nat>)
    requires HasTail(nchars, g, n)
    ensures Reaches(g, n + 4, w, n) <==> w == [] || w == [NEWLINE]
  {
    TailNode(nchars, g, n, 0);
    TailNode(nchars, g, n, 4);
    TailNode(nchars, g, n, 5);
    EpsilonFork(g, n + 4, w, n);
    DeadEndRuns(g, n, w, n);
    AtEnd(g, n + 5, w, n);
  }

  /** A region left through `e` only, with `$` behind it. */
  lemma {:induction false} EolWords(nchars: nat, g: Graph, g': Graph, lo: nat, hi: nat, s: nat, e: nat, n: nat,
                                    w: seq<nat>)
    requires Fragment(g, lo, hi, s, e, Eof(nchars)) && hi <= n && HasTail(nchars, g', n)
    requires nchars >= 128 && Word(nchars, w)
    requires forall i :: lo <= i < hi && i != e ==> g[i] == g'[i]
    requires g'[e] == BLANK.(next := Some(n + 6))
    ensures Reaches(g', s, w, n) <==> exists k :: 0 <= k <= |w| && Reaches(g, s, w[..k], e) && LineEnd(nchars, w[k..])
  {
    FragmentClosed(g, lo, hi, s, e, Eof(nchars));
    if Reaches(g', s, w, n) {
      var m: nat :| Run(g', s, w, n, m);
      var k, m' := RunExits(g, g', lo, hi, e, s, w, n, m);
      assert Reaches(g', n + 6, w[k..], n);
      TailWords(nchars, g', n, w[k..]);
      assert Reaches(g, s, w[..k], e);
    }
    if k: nat :| k <= |w| && Reaches(g, s, w[..k], e) && LineEnd(nchars, w[k..]) {
      TailWords(nchars, g', n, w[k..]);
      var m: nat :| Run(g, s, w[..k], e, m);
      var m': nat :| Run(g', n + 6, w[k..], n, m');
      RunKept(g, g', lo, hi, e, s, w[..k], m);
      assert Run(g', e, w[k..], n, m' + 1);
      RunConcat(g', s, w[..k], e, m, w[k..], n, m' + 1);
      assert w[..k] + w[k..] == w;
    }
  }

  // A whole rule.  `g0` ends with the fragment of the rule's expression.

  function RuleGraph(spec: Spec, g0: Graph, s: nat, e: nat, k: nat): Graph
    requires k < |spec.rules| && e < |g0|
  {
    var r := spec.rules[k];
    var g1 := if r.bol then WithBol(g0, s, Bol(spec.nchars)) else g0;
    var g2 := if r.eol then WithTail(spec.nchars, g1, e) else g1;
    var end := if r.eol then |g1| else e;
    g2[end := g2[end].(accept := Some(k), anchor := Anchor(r.bol, r.eol))]
  }

  function RuleStart(spec: Spec, g0: Graph, s: nat, k: nat): nat
    requires k < |spec.rules|
  {
    if spec.rules[k].bol then |g0| else s
  }

  function RuleEnd(spec: Spec, g0: Graph, e: nat, k: nat): nat
    requires k < |spec.rules|
  {
    if spec.rules[k].eol then |g0| + (if spec.rules[k].bol then 1 else 0) else e
  }

  ghost predicate BuildsRuleExpr(spec: Spec, g0: Graph, lo: nat, s: nat, e: nat, k: nat)
    requires k < |spec.rules|
  {
    && Fragment(g0, lo, |g0|, s, e, Eof(spec.nchars))
    && forall w :: Word(spec.nchars, w) ==> (Reaches(g0, s, w, e) <==> InExpr(spec.nchars, spec.rules[k].expr, w))
  }

  lemma {:induction false} RuleShape(spec: Spec, g0: Graph, lo: nat, s: nat, e: nat, k: nat)
    requires k < |spec.rules| && BuildsRuleExpr(spec, g0, lo, s, e, k) && spec.nchars >= 128
    ensures var g := RuleGraph(spec, g0, s, e, k);
            RulePart(g, lo, |g|, RuleStart(spec, g0, s, k), RuleEnd(spec, g0, e, k), k, Eof(spec.nchars))
  {
    var g := RuleGraph(spec, g0, s, e, k);
    var end := RuleEnd(spec, g0, e, k);
    forall p | lo <= p < |g| ensures RuleNode(g[p], lo, |g|, p == end, end, Eof(spec.nchars)) {
      if p < |g0| {
        OldRuleNode(spec, g0, lo, s, e, k, p);
      } else {
        NewRuleNode(spec, g0, lo, s, e, k, p);
      }
    }
  }

  lemma {:induction false} OldRuleNode(spec: Spec, g0: Graph, lo: nat, s: nat, e: nat, k: nat, p: nat)
    requires k < |spec.rules| && BuildsRuleExpr(spec, g0, lo, s, e, k)
    requires lo <= p < |g0|
    ensures var g, end := RuleGraph(spec, g0, s, e, k), RuleEnd(spec, g0, e, k);
            p < |g| && RuleNode(g[p], lo, |g|, p == end, end, Eof(spec.nchars))
  {
    assert Inner(g0[p], lo, |g0|, s, Eof(spec.nchars));
  }

  lemma {:induction false} NewRuleNode(spec: Spec, g0: Graph, lo: nat, s: nat, e: nat, k: nat, p: nat)
    requires k < |spec.rules| && BuildsRuleExpr(spec, g0, lo, s, e, k) && spec.nchars >= 128
    requires |g0| <= p < |RuleGraph(spec, g0, s, e, k)|
    ensures var g, end := RuleGraph(spec, g0, s, e, k), RuleEnd(spec, g0, e, k);
            p < |g| && RuleNode(g[p], lo, |g|, p == end, end, Eof(spec.nchars))
  {
    var g1 := if spec.rules[k].bol then WithBol(g0, s, Bol(spec.nchars)) else g0;
    var t := Tail(spec.nchars, |g1|);
    assert !NewlineSet(spec.nchars).Contains(Eof(spec.nchars));
    if spec.rules[k].eol && p >= |g1| {
      assert WithTail(spec.nchars, g1, e)[p] == t[p - |g1|];
    }
  }

  /** The expression with `$`, seen from the expression's start. */
  lemma {:induction false} BodyWords(spec: Spec, g0: Graph, lo: nat, s: nat, e: nat, k: nat, w: seq<nat>)
    requires k < |spec.rules| && BuildsRuleExpr(spec, g0, lo, s, e, k)
    requires spec.nchars >= 128 && Word(spec.nchars, w)
    ensures Reaches(RuleGraph(spec, g0, s, e, k), s, w, RuleEnd(spec, g0, e, k)) <==>
            InRuleBody(spec.nchars, spec.rules[k], w)
  {
    var g := RuleGraph(spec, g0, s, e, k);
    if spec.rules[k].eol {
      EolBodyWords(spec, g0, lo, s, e, k, w);
    } else {
      FragmentClosed(g0, lo, |g0|, s, e, Eof(spec.nchars));
      ReachesFrame(g0, g, lo, |g0|, s, w, e);
    }
  }

  lemma {:induction false} EolBodyWords(spec: Spec, g0: Graph, lo: nat, s: nat, e: nat, k: nat, w: seq<nat>)
    requires k < |spec.rules| && BuildsRuleExpr(spec, g0, lo, s, e, k) && spec.rules[k].eol
    requires spec.nchars >= 128 && Word(spec.nchars, w)
    ensures Reaches(RuleGraph(spec, g0, s, e, k), s, w, RuleEnd(spec, g0, e, k)) <==>
            InRuleBody(spec.nchars, spec.rules[k], w)
  {
    var r := spec.rules[k];
    var g1 := if r.bol then WithBol(g0, s, Bol(spec.nchars)) else g0;
    var g2 := WithTail(spec.nchars, g1, e);
    assert g2[|g1|..|g1| + 8] == Tail(spec.nchars, |g1|);
    EolWords(spec.nchars, g0, g2, lo, |g0|, s, e, |g1|, w);
    RuleShape(spec, g0, lo, s, e, k);
    AcceptIgnored(RuleGraph(spec, g0, s, e, k), g2, lo, s, w, |g1|);
  }

  lemma {:induction false} AcceptIgnored(g: Graph, g': Graph, lo: nat, s: nat, w: seq<nat>, e: nat)
    requires |g| == |g'| && ClosedOn(g, lo, |g|) && lo <= s < |g|
    requires forall i :: lo <= i < |g| ==> SameEdges(g[i], g'[i])
    ensures Reaches(g, s, w, e) == Reaches(g', s, w, e)
  {
    ReachesFrame(g, g', lo, |g|, s, w, e);
  }

  /** The routine `rule`: the finished part recognises the rule. */
  lemma {:induction false} RuleWords(spec: Spec, g0: Graph, lo: nat, s: nat, e: nat, k: nat)
    requires k < |spec.rules| && BuildsRuleExpr(spec, g0, lo, s, e, k) && spec.nchars >= 128
    ensures var g := RuleGraph(spec, g0, s, e, k);
            BuildsRule(spec, g, lo, |g|, RuleStart(spec, g0, s, k), RuleEnd(spec, g0, e, k), k)
  {
    var g := RuleGraph(spec, g0, s, e, k);
    var start, end := RuleStart(spec, g0, s, k), RuleEnd(spec, g0, e, k);
    RuleShape(spec, g0, lo, s, e, k);
    forall w | Word(spec.nchars, w) ensures Reaches(g, start, w, end) <==> Matches(spec, k, w) {
      if spec.rules[k].bol {
        LabelledStep(g, start, w, end);
        if w != [] {
          BodyWords(spec, g0, lo, s, e, k, w[1..]);
        }
      } else {
        BodyWords(spec, g0, lo, s, e, k, w);
      }
    }
  }

  /** The silent rule: one BOL or EOF. */
  function SilentPart(g: Graph, nchars: nat, k: nat): Graph {
    g + [BLANK.(edge := Class(CharSet({Bol(nchars), Eof(nchars)}, false)), next := Some(|g| + 1)),
         BLANK.(accept := Some(k))]
  }

  lemma {:induction false} SilentWords(spec: Spec, g: Graph)
    ensures BuildsRule(spec, SilentPart(g, spec.nchars, |spec.rules|), |g|, |g| + 2, |g|, |g| + 1, |spec.rules|)
  {
    var g' := SilentPart(g, spec.nchars, |spec.rules|);
    forall w ensures Reaches(g', |g|, w, |g| + 1) <==> Matches(spec, |spec.rules|, w) {
      AtEnd(g', |g|, w, |g| + 1);
    }
  }

  // The whole machine.

  /** Reading `eof` leads to an accepting node without edges. */
  ghost predicate EofFinal(g: Graph, p: nat, eof: nat)
    requires p < |g|
  {
    g[p].edge.Fires(eof) ==> g[p].next.Some? && DeadEnd(g, g[p].next.value) && g[g[p].next.value].accept.Some?
  }

  /** Rule `k` starts at `s`, ends at `e`, and matches what the specification says. */
  ghost predicate Recognizes(spec: Spec, g: Graph, s: nat, e: nat, k: nat)
    requires k <= |spec.rules|
  {
    && s < |g| && e < |g|
    && g[e].accept == Some(k) && g[e].anchor == AnchorOf(spec, k)
    && (forall w, q: nat :: q < |g| && Reaches(g, s, w, q) && g[q].accept.Some? ==> q == e)
    && (forall w :: Word(spec.nchars, w) ==> (Reaches(g, s, w, e) <==> Matches(spec, k, w)))
  }

  /** `g` holds every rule, accepting nodes come in rule order and there are no others. */
  ghost predicate Machine(spec: Spec, g: Graph, starts: seq<nat>, ends: seq<nat>) {
    && |starts| == |ends| == |spec.rules| + 1
    && Closed(g)
    && Increasing(ends)
    && (forall k :: 0 <= k <= |spec.rules| ==> Recognizes(spec, g, starts[k], ends[k], k))
    && (forall p :: 0 <= p < |g| && g[p].accept.Some? ==>
          g[p].accept.value <= |spec.rules| && p == ends[g[p].accept.value])
    && (forall p :: 0 <= p < |g| ==> EofFinal(g, p, Eof(spec.nchars)))
    && (forall p :: 0 <= p < |g| && g[p].edge.Symbol? ==> g[p].edge.c < Symbols(spec.nchars))
  }

  /** Rule starts that are tried in a lexical state, in rule order. */
  ghost function StartsIn(spec: Spec, state: nat, starts: seq<nat>, n: nat): seq<nat>
    requires n <= |starts| && n <= |spec.rules| + 1
  {
    if n == 0 then []
    else StartsIn(spec, state, starts, n - 1) + (if ActiveIn(spec, n - 1, state) then [starts[n - 1]] else [])
  }

  lemma {:induction false} StartsInMembers(spec: Spec, state: nat, starts: seq<nat>, n: nat, x: nat)
    requires n <= |starts| && n <= |spec.rules| + 1
    ensures x in StartsIn(spec, state, starts, n) <==>
            exists k :: 0 <= k < n && ActiveIn(spec, k, state) && starts[k] == x
  {
    if n > 0 {
      StartsInMembers(spec, state, starts, n - 1, x);
    }
  }

  lemma {:induction false} PartRecognizes(spec: Spec, g: Graph, lo: nat, hi: nat, s: nat, e: nat, k: nat)
    requires k <= |spec.rules| && BuildsRule(spec, g, lo, hi, s, e, k)
    ensures Recognizes(spec, g, s, e, k)
  {
    forall w, q: nat | q < |g| && Reaches(g, s, w, q) && g[q].accept.Some? ensures q == e {
      ReachesFrame(g, g, lo, hi, s, w, q);
    }
  }

  // Assembling the machine from the parts of its rules and the nodes that chain them.

  /** Where each rule's part lies, and its start and end. */
  datatype Layout = Layout(los: seq<nat>, his: seq<nat>, starts: seq<nat>, ends: seq<nat>) {
    ghost predicate Sized(n: nat) {
      |los| == |his| == |starts| == |ends| == n
    }
    ghost predicate InPart(q: nat) {
      |los| == |his| && exists k :: 0 <= k < |los| && los[k] <= q < his[k]
    }
    function Add(lo: nat, hi: nat, s: nat, e: nat): Layout {
      Layout(los + [lo], his + [hi], starts + [s], ends + [e])
    }
  }

  /** A node of the chain that links the rules: epsilon edges only, not accepting. */
  predicate Glue(x: Node) {
    x.edge.Epsilon? && x.accept.None?
  }

  ghost predicate Parts(spec: Spec, g: Graph, l: Layout, n: nat)
    requires n <= |spec.rules| + 1
  {
    && l.Sized(n)
    && (forall k :: 0 <= k < n ==> BuildsRule(spec, g, l.los[k], l.his[k], l.starts[k], l.ends[k], k))
    && (forall j, k :: 0 <= j < k < n ==> l.his[j] <= l.los[k])
    && (forall q :: 0 <= q < |g| ==> Glue(g[q]) || l.InPart(q))
  }

  lemma {:induction false} PartKept(spec: Spec, g: Graph, g': Graph, l: Layout, n: nat, k: nat)
    requires k < n <= |spec.rules| + 1 && Parts(spec, g, l, n) && |g| <= |g'|
    requires forall q: nat :: q < |g| && l.InPart(q) ==> g'[q] == g[q]
    ensures BuildsRule(spec, g', l.los[k], l.his[k], l.starts[k], l.ends[k], k)
  {
    assert BuildsRule(spec, g, l.los[k], l.his[k], l.starts[k], l.ends[k], k);
    forall i | l.los[k] <= i < l.his[k] ensures g[i] == g'[i] {
      assert l.InPart(i);
    }
    RuleFrame(spec, g, g', l.los[k], l.his[k], l.starts[k], l.ends[k], k);
  }

  /** Chain nodes may be linked and a new part added; the old parts keep their languages. */
  lemma {:induction false} PartsExtend(spec: Spec, g: Graph, g': Graph, l: Layout, n: nat, lo: nat, s: nat, e: nat)
    requires n <= |spec.rules| && Parts(spec, g, l, n) && |g| <= lo <= |g'|
    requires forall q: nat :: q < |g| && l.InPart(q) ==> g'[q] == g[q]
    requires forall q: nat :: q < lo && !l.InPart(q) ==> Glue(g'[q])
    requires BuildsRule(spec, g', lo, |g'|, s, e, n)
    ensures Parts(spec, g', l.Add(lo, |g'|, s, e), n + 1)
  {
    var l' := l.Add(lo, |g'|, s, e);
    forall k | 0 <= k < n ensures BuildsRule(spec, g', l.los[k], l.his[k], l.starts[k], l.ends[k], k) {
      PartKept(spec, g, g', l, n, k);
    }
    forall q | 0 <= q < |g'| ensures Glue(g'[q]) || l'.InPart(q) {
      if l.InPart(q) || q >= lo {
        PartCovers(l, lo, |g'|, s, e, q);
      }
    }
    forall j, k | 0 <= j < k < n + 1 ensures l'.his[j] <= l'.los[k] {
      if k == n {
        assert BuildsRule(spec, g, l.los[j], l.his[j], l.starts[j], l.ends[j], j);
      }
    }
  }

  lemma {:induction false} PartCovers(l: Layout, lo: nat, hi: nat, s: nat, e: nat, q: nat)
    requires |l.los| == |l.his| && (l.InPart(q) || lo <= q < hi)
    ensures l.Add(lo, hi, s, e).InPart(q)
  {
    var l' := l.Add(lo, hi, s, e);
    if l.InPart(q) {
      var k :| 0 <= k < |l.los| && l.los[k] <= q < l.his[k];
      assert l'.los[k] <= q < l'.his[k];
    } else {
      assert l'.los[|l.los|] <= q < l'.his[|l.los|];
    }
  }

  /** All parts together are the machine. */
  lemma {:induction false} PartsMachine(spec: Spec, g: Graph, l: Layout)
    requires Parts(spec, g, l, |spec.rules| + 1)
    requires forall p :: 0 <= p < |g| ==>
               (g[p].next.Some? ==> g[p].next.value < |g|) && (g[p].next2.Some? ==> g[p].next2.value < |g|)
    ensures Machine(spec, g, l.starts, l.ends)
  {
    forall k | 0 <= k <= |spec.rules| ensures Recognizes(spec, g, l.starts[k], l.ends[k], k) {
      PartRecognizes(spec, g, l.los[k], l.his[k], l.starts[k], l.ends[k], k);
    }
    forall p | 0 <= p < |g|
      ensures StaysIn(g[p], 0, |g|) && EofFinal(g, p, Eof(spec.nchars))
      ensures g[p].edge.Symbol? ==> g[p].edge.c < Symbols(spec.nchars)
      ensures g[p].accept.Some? ==> g[p].accept.value <= |spec.rules| && p == l.ends[g[p].accept.value]
    {
      if !Glue(g[p]) {
        var k :| 0 <= k < |l.los| && l.los[k] <= p < l.his[k];
        assert BuildsRule(spec, g, l.los[k], l.his[k], l.starts[k], l.ends[k], k);
        assert StaysIn(g[p], l.los[k], l.his[k]);
      }
    }
    forall i, j | 0 <= i < j < |l.ends| ensures l.ends[i] < l.ends[j] {
      assert BuildsRule(spec, g, l.los[i], l.his[i], l.starts[i], l.ends[i], i);
      assert BuildsRule(spec, g, l.los[j], l.his[j], l.starts[j], l.ends[j], j);
    }
  }

  // Labels: a node's label is its position in the node vector.

  ghost predicate SamePointer(states: seq<nat>, x: Option<nat>, y: Option<nat>) {
    match x
    case None => y.None?
    case Some(p) => y.Some? && y.value < |states| && states[y.value] == p
  }

  /** `g` is the heap seen through labels. */
  ghost predicate Labels(heap: Graph, states: seq<nat>, g: Graph) {
    && |g| == |states|
    && forall i :: 0 <= i < |g| ==> LabelledAt(heap, states, g, i)
  }

  ghost predicate LabelledAt(heap: Graph, states: seq<nat>, g: Graph, i: nat)
    requires i < |g| <= |states|
  {
    states[i] < |heap| && SameNode(states, heap[states[i]], g[i])
  }

  ghost predicate SameNode(states: seq<nat>, x: Node, y: Node) {
    && x.edge == y.edge && x.accept == y.accept && x.anchor == y.anchor
    && SamePointer(states, x.next, y.next)
    && SamePointer(states, x.next2, y.next2)
  }

  lemma {:induction false} LabelledRun(heap: Graph, states: seq<nat>, g: Graph, i: nat, w: seq<nat>, q: nat, n: nat)
    requires Labels(heap, states, g) && i < |states| && q < |states|
    requires forall j :: 0 <= j < |states| && states[j] == states[q] ==> j == q
    ensures Run(heap, states[i], w, states[q], n) == Run(g, i, w, q, n)
    decreases n
  {
    if n > 0 {
      assert LabelledAt(heap, states, g, i);
      if g[i].edge.Epsilon? {
        if g[i].next.Some? {
          LabelledRun(heap, states, g, g[i].next.value, w, q, n - 1);
        }
        if g[i].next2.Some? {
          LabelledRun(heap, states, g, g[i].next2.value, w, q, n - 1);
        }
      } else if w != [] && g[i].next.Some? {
        LabelledRun(heap, states, g, g[i].next.value, w[1..], q, n - 1);
      }
    }
  }

  lemma {:induction false} LabelledReaches(heap: Graph, states: seq<nat>, g: Graph, i: nat, w: seq<nat>, q: nat)
    requires Labels(heap, states, g) && Increasing(states) && i < |states| && q < |states|
    ensures Reaches(heap, states[i], w, states[q]) <==> Reaches(g, i, w, q)
  {
    forall n: nat {
      LabelledRun(heap, states, g, i, w, q, n);
    }
  }

  lemma {:induction false} LabelledRule(spec: Spec, heap: Graph, states: seq<nat>, g: Graph, s: nat, e: nat, k: nat)
    requires Labels(heap, states, g) && Increasing(states) && s < |states| && e < |states|
    requires k <= |spec.rules| && Recognizes(spec, heap, states[s], states[e], k)
    ensures Recognizes(spec, g, s, e, k)
  {
    assert LabelledAt(heap, states, g, e);
    forall w, q: nat | q < |g| && Reaches(g, s, w, q) && g[q].accept.Some? ensures q == e {
      assert LabelledAt(heap, states, g, q);
      LabelledReaches(heap, states, g, s, w, q);
    }
    forall w | Word(spec.nchars, w) ensures Reaches(g, s, w, e) <==> Matches(spec, k, w) {
      LabelledReaches(heap, states, g, s, w, e);
    }
  }

  /** Labelling turns the machine on the heap into the same machine on labels. */
  lemma {:induction false} LabelledMachine(spec: Spec, heap: Graph, states: seq<nat>, g: Graph, starts: seq<nat>,
                                           ends: seq<nat>,
                        starts': seq<nat>, ends': seq<nat>)
    requires Machine(spec, heap, starts, ends) && Labels(heap, states, g) && Increasing(states)
    requires |starts'| == |ends'| == |spec.rules| + 1
    requires forall k :: 0 <= k <= |spec.rules| ==> starts'[k] < |states| && starts[k] == states[starts'[k]]
    requires forall k :: 0 <= k <= |spec.rules| ==> ends'[k] < |states| && ends[k] == states[ends'[k]]
    ensures Machine(spec, g, starts', ends')
  {
    forall k | 0 <= k <= |spec.rules| ensures Recognizes(spec, g, starts'[k], ends'[k], k) {
      LabelledRule(spec, heap, states, g, starts'[k], ends'[k], k);
    }
    forall p | 0 <= p < |g|
      ensures StaysIn(g[p], 0, |g|) && EofFinal(g, p, Eof(spec.nchars))
      ensures g[p].edge.Symbol? ==> g[p].edge.c < Symbols(spec.nchars)
      ensures g[p].accept.Some? ==> g[p].accept.value <= |spec.rules| && p == ends'[g[p].accept.value]
    {
      assert LabelledAt(heap, states, g, p);
      assert g[p].next.Some? ==> LabelledAt(heap, states, g, g[p].next.value);
      assert StaysIn(heap[states[p]], 0, |heap|) && EofFinal(heap, states[p], Eof(spec.nchars));
    }
    forall i, j | 0 <= i < j < |ends'| ensures ends'[i] < ends'[j] {
      assert ends[i] < ends[j];
    }
  }
}
