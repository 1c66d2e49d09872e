/** The whole generator: from a specification to the tables the scanner unpacks. */
module Generator {
  import opened Basics
  import opened Nfa
  import opened Regex
  import opened Rules
  import opened Dfa
  import opened Sets
  import Thompson
  import Classes
  import Subset
  import Minimize
  import Compress
  import RoundTrip
  import TableString

  /** The arrays of a generated scanner.  `accepts[s]` is the rule whose action state `s`
      runs; with `anchors` it makes up yy_acpt and the action switch. */
  datatype Tables = Tables(accepts: seq<Option<nat>>, anchors: seq<Anchor>,
                           cmap: seq<int>, rmap: seq<int>, nxt: seq<seq<int>>, starts: seq<nat>)
  {
    function States(): nat { |rmap| }

    /** Every look-up the scanner does stays inside the arrays. */
    ghost predicate Ok(ncols: nat) {
      && |accepts| == |anchors| == |rmap| && |cmap| == ncols
      && (forall i :: 0 <= i < |starts| ==> starts[i] < |rmap|)
      && (forall s :: 0 <= s < |rmap| ==> 0 <= rmap[s] < |nxt|)
      && (forall c :: 0 <= c < ncols ==> 0 <= cmap[c])
      && (forall s, c :: 0 <= s < |rmap| && 0 <= c < ncols ==> NextOk(s, c))
    }

    ghost predicate NextOk(s: nat, c: nat)
      requires s < |rmap| && c < |cmap| && 0 <= rmap[s] < |nxt| && 0 <= cmap[c]
    {
      cmap[c] < |nxt[rmap[s]]| && F <= nxt[rmap[s]][cmap[c]] < |rmap|
    }

    /** yy_nxt[yy_rmap[s]][yy_cmap[c]] */
    function Next(ncols: nat, s: nat, c: nat): (t: int)
      requires Ok(ncols) && s < |rmap| && c < ncols
      ensures F <= t < |rmap|
    {
      assert NextOk(s, c);
      nxt[rmap[s]][cmap[c]]
    }

    /** The state after reading `w`. */
    ghost function Walk(ncols: nat, s: int, w: seq<nat>): (t: int)
      requires Ok(ncols) && F <= s < |rmap| && Over(w, ncols)
      ensures F <= t < |rmap|
    {
      if w == [] then s
      else
        var t := Walk(ncols, s, w[..|w| - 1]);
        if t == F then F else Next(ncols, t, w[|w| - 1])
    }
  }

  /** Of the rules active in lexical state `i` that match `w`, the first is `accept`. */
  ghost predicate FirstMatch(spec: Spec, i: nat, w: seq<nat>, accept: Option<nat>, anchor: Anchor) {
    match accept
    case None => forall k :: 0 <= k <= |spec.rules| && ActiveIn(spec, k, i) ==> !Matches(spec, k, w)
    case Some(k) =>
      && k <= |spec.rules| && ActiveIn(spec, k, i) && Matches(spec, k, w) && anchor == AnchorOf(spec, k)
      && forall j :: 0 <= j < k && ActiveIn(spec, j, i) ==> !Matches(spec, j, w)
  }

  /** No rule active in lexical state `i` matches `w` or anything that starts with `w`. */
  ghost predicate Hopeless(spec: Spec, i: nat, w: seq<nat>) {
    forall k, v :: 0 <= k <= |spec.rules| && ActiveIn(spec, k, i) && Word(spec.nchars, w + v) ==>
        !Matches(spec, k, w + v)
  }

  /** What the tables promise for lexical state `i` after reading `w`. */
  ghost predicate Decides(spec: Spec, t: Tables, i: nat, w: seq<nat>)
    requires t.Ok(Symbols(spec.nchars)) && i < |t.starts| && Over(w, Symbols(spec.nchars))
  {
    var s := t.Walk(Symbols(spec.nchars), t.starts[i], w);
    && (s == F ==> Hopeless(spec, i, w))
    && (s != F ==> FirstMatch(spec, i, w, t.accepts[s], t.anchors[s]))
  }

  /** The tables implement the specification. */
  ghost predicate Implements(spec: Spec, t: Tables) {
    && SpecOk(spec) && t.Ok(Symbols(spec.nchars)) && |t.starts| == spec.nstates
    && forall i, w :: 0 <= i < spec.nstates && Over(w, Symbols(spec.nchars)) ==> Decides(spec, t, i, w)
  }

  /** Whatever follows EOF, nothing is left. */
  ghost predicate StopsAfterEof(spec: Spec, t: Tables)
    requires t.Ok(Symbols(spec.nchars))
  {
    forall i, w, c :: 0 <= i < |t.starts| && Over(w + [Eof(spec.nchars)] + [c], Symbols(spec.nchars)) ==>
      t.Walk(Symbols(spec.nchars), t.starts[i], w + [Eof(spec.nchars)] + [c]) == F
  }

  // From the machine to the specification.

  lemma {:induction false} StepBack(g: Graph, s: set<nat>, u: seq<nat>, v: seq<nat>, p: nat, q: nat)
    requires Closed(g) && p in s && p < |g| && Reaches(g, p, u + v, q)
    ensures After(g, s, u) != {}
  {
    var n: nat :| Run(g, p, u + v, q, n);
    var r, m := RunSplit(g, p, u, v, q, n);
    assert Reaches(g, p, u, r);
    ReachesFrame(g, g, 0, |g|, p, u, r);
    assert FromSome(g, s, u, r);
    assert r in After(g, s, u);
  }

  /** The accepting nodes the machine is in after `w` are the ends of the rules that match `w`. */
  lemma {:induction false} AcceptingAfter(spec: Spec, g: Graph, starts: seq<nat>, ends: seq<nat>, i: nat,
                                          labels: seq<nat>, w: seq<nat>, q: nat)
    requires Machine(spec, g, starts, ends) && Thompson.StartsFor(spec, i, starts, labels) && Word(spec.nchars, w)
    requires q < |g| && g[q].accept.Some?
    ensures q in After(g, Subset.Elements(labels), w) <==>
            var k := g[q].accept.value; k <= |spec.rules| && ActiveIn(spec, k, i) && Matches(spec, k, w)
  {
    var k := g[q].accept.value;
    assert q == ends[k] && Recognizes(spec, g, starts[k], ends[k], k);
    if q in After(g, Subset.Elements(labels), w) {
      var x :| x in Subset.Elements(labels) && Reaches(g, x, w, q);
      var j :| 0 <= j <= |spec.rules| && ActiveIn(spec, j, i) && starts[j] == x;
      assert Recognizes(spec, g, starts[j], ends[j], j);
    }
    if ActiveIn(spec, k, i) && Matches(spec, k, w) {
      assert starts[k] in labels;
      assert FromSome(g, Subset.Elements(labels), w, q);
    }
  }

  lemma {:induction false} BestIsFirst(spec: Spec, g: Graph, starts: seq<nat>, ends: seq<nat>, i: nat, labels: seq<nat>,
                                       w: seq<nat>,
                    accept: Option<nat>, anchor: Anchor)
    requires Machine(spec, g, starts, ends) && Thompson.StartsFor(spec, i, starts, labels) && Word(spec.nchars, w)
    requires Subset.BestAccept(g, After(g, Subset.Elements(labels), w), accept, anchor)
    ensures FirstMatch(spec, i, w, accept, anchor)
  {
    var t := After(g, Subset.Elements(labels), w);
    forall k | 0 <= k <= |spec.rules| && ActiveIn(spec, k, i) && Matches(spec, k, w) ensures ends[k] in t {
      assert Recognizes(spec, g, starts[k], ends[k], k);
      AcceptingAfter(spec, g, starts, ends, i, labels, w, ends[k]);
    }
    forall k | 0 <= k <= |spec.rules| ensures ends[k] < |g| && g[ends[k]].accept == Some(k) {
      assert Recognizes(spec, g, starts[k], ends[k], k);
    }
    if accept.Some? {
      var m :| m in t && Subset.IsBest(g, t, m) && g[m].accept == accept && g[m].anchor == anchor;
      AcceptingAfter(spec, g, starts, ends, i, labels, w, m);
      assert Recognizes(spec, g, starts[accept.value], ends[accept.value], accept.value);
      forall j | 0 <= j < accept.value && ActiveIn(spec, j, i) ensures !Matches(spec, j, w) {
        assert ends[j] < ends[accept.value];
      }
    }
  }

  lemma {:induction false} EmptyIsHopeless(spec: Spec, g: Graph, starts: seq<nat>, ends: seq<nat>, i: nat,
                                           labels: seq<nat>, w: seq<nat>)
    requires Machine(spec, g, starts, ends) && Thompson.StartsFor(spec, i, starts, labels)
    requires After(g, Subset.Elements(labels), w) == {}
    ensures Hopeless(spec, i, w)
  {
    forall k, v | 0 <= k <= |spec.rules| && ActiveIn(spec, k, i) && Word(spec.nchars, w + v)
      ensures !Matches(spec, k, w + v)
    {
      assert Recognizes(spec, g, starts[k], ends[k], k);
      if Matches(spec, k, w + v) {
        assert starts[k] in labels;
        StepBack(g, Subset.Elements(labels), w, v, starts[k], ends[k]);
      }
    }
  }

  /** EOF leads to nodes without edges, so nothing can be read after it. */
  lemma {:induction false} AfterEof(g: Graph, s: set<nat>, w: seq<nat>, eof: nat, c: nat)
    requires Closed(g) && forall p :: 0 <= p < |g| ==> EofFinal(g, p, eof)
    ensures After(g, s, w + [eof] + [c]) == {}
  {
    var dead := MoveSet(g, After(g, s, w), eof);
    forall q | q in dead ensures DeadEnd(g, q) {
      var p :| p in After(g, s, w) && Enters(g, p, eof, q);
      assert EofFinal(g, p, eof);
    }
    AfterSnoc(g, s, w, eof);
    AfterSnoc(g, s, w + [eof], c);
    forall q | q in After(g, dead, []) ensures q in dead {
      var p :| p in dead && Reaches(g, p, [], q);
      DeadEndRuns(g, p, [], q);
    }
    assert forall q: nat :: !EntersFrom(g, After(g, dead, []), c, q);
    assert MoveSet(g, After(g, dead, []), c) == {};
    Subset.AfterEmpty(g, []);
  }

  // From one stage to the next.

  lemma {:induction false} SimplifiedAfter(g: Graph, g': Graph, ccls: seq<nat>, s: set<nat>, w: seq<nat>)
    requires Classes.Simplified(g, g', ccls) && Over(w, |ccls|)
    ensures After(g', s, Classes.MapWord(ccls, w)) == After(g, s, w)
  {
    var v := Classes.MapWord(ccls, w);
    forall q: nat ensures FromSome(g', s, v, q) == FromSome(g, s, w, q) {
      forall p: nat {
        Classes.SimplifiedReaches(g, g', ccls, p, w, q);
      }
    }
  }

  lemma {:induction false} SimplifiedBest(g: Graph, g': Graph, ccls: seq<nat>, t: set<nat>, accept: Option<nat>,
                                          anchor: Anchor)
    requires Classes.Simplified(g, g', ccls) && Subset.BestAccept(g', t, accept, anchor)
    ensures Subset.BestAccept(g, t, accept, anchor)
  {
    if m :| m in t && Subset.IsBest(g', t, m) && g'[m].accept == accept && g'[m].anchor == anchor {
      assert Subset.IsBest(g, t, m);
    }
  }

  lemma {:induction false} SimplifiedClosed(g: Graph, g': Graph, ccls: seq<nat>)
    requires Classes.Simplified(g, g', ccls) && Closed(g)
    ensures Closed(g')
  {
    forall p | 0 <= p < |g'| ensures StaysIn(g'[p], 0, |g'|) {
      assert StaysIn(g[p], 0, |g|);
    }
  }

  lemma {:induction false} AnchorsUnique(spec: Spec, g: Graph, starts: seq<nat>, ends: seq<nat>, g': Graph,
                                         ccls: seq<nat>, rows: seq<Row>)
    requires Machine(spec, g, starts, ends) && Classes.Simplified(g, g', ccls)
    requires forall s :: 0 <= s < |rows| ==> Subset.AcceptFrom(g', rows[s])
    ensures Minimize.AnchorsFollow(rows)
  {
    forall s, t | 0 <= s < |rows| && 0 <= t < |rows| && rows[s].accept == rows[t].accept
      ensures rows[s].anchor == rows[t].anchor
    {
      assert Subset.AcceptFrom(g', rows[s]) && Subset.AcceptFrom(g', rows[t]);
      if rows[s].accept.Some? {
        var k := rows[s].accept.value;
        var m :| 0 <= m < |g'| && g'[m].accept == rows[s].accept && g'[m].anchor == rows[s].anchor;
        var n :| 0 <= n < |g'| && g'[n].accept == rows[t].accept && g'[n].anchor == rows[t].anchor;
        assert m == ends[k] && n == ends[k];
      }
    }
  }

  /** The tables read a symbol as the merged rows read its class. */
  ghost predicate Tabulates(merged: seq<Row>, n: nat, ccls: seq<nat>, t: Tables) {
    && Table(merged, n) && t.Ok(|ccls|) && |t.rmap| == |merged|
    && (forall c :: 0 <= c < |ccls| ==> ccls[c] < n)
    && (forall s :: 0 <= s < |merged| ==> t.accepts[s] == merged[s].accept && t.anchors[s] == merged[s].anchor)
    && forall s, c :: 0 <= s < |merged| && 0 <= c < |ccls| ==> ReadsAs(merged, n, ccls, t, s, c)
  }

  ghost predicate ReadsAs(merged: seq<Row>, n: nat, ccls: seq<nat>, t: Tables, s: nat, c: nat)
    requires t.Ok(|ccls|) && s < |t.rmap| && c < |ccls| && s < |merged| && ccls[c] < n && Table(merged, n)
  {
    assert RowOk(merged[s], n, |merged|);
    t.Next(|ccls|, s, c) == merged[s].trans[ccls[c]]
  }

  lemma {:induction false} TabulatedWalk(merged: seq<Row>, n: nat, ccls: seq<nat>, t: Tables, s: nat, w: seq<nat>)
    requires Tabulates(merged, n, ccls, t) && s < |merged| && Over(w, |ccls|)
    ensures Over(Classes.MapWord(ccls, w), n)
    ensures t.Walk(|ccls|, s, w) == Walk(merged, n, s, Classes.MapWord(ccls, w))
    decreases |w|
  {
    var v := Classes.MapWord(ccls, w);
    if w != [] {
      var w0, c := w[..|w| - 1], w[|w| - 1];
      TabulatedWalk(merged, n, ccls, t, s, w0);
      assert v[..|v| - 1] == Classes.MapWord(ccls, w0) && v[|v| - 1] == ccls[c];
      var r := t.Walk(|ccls|, s, w0);
      if r != F {
        assert ReadsAs(merged, n, ccls, t, r, c);
      }
    }
  }

  /** The labelled NFA of a specification: its nodes, the start and end of every rule, and the starts
      to try in every lexical state. */
  datatype Automaton = Automaton(g: Graph, starts: seq<nat>, ends: seq<nat>, labels: seq<seq<nat>>)

  /** In lexical state `i`, after reading `w`, the tables are where the NFA is: in F exactly when no
      node is left, otherwise with the accept and anchor of the lowest accepting node. */
  ghost predicate EndsAs(spec: Spec, t: Tables, nfa: Automaton, i: nat, w: seq<nat>)
    requires t.Ok(Symbols(spec.nchars)) && i < |t.starts| && i < |nfa.labels| && Over(w, Symbols(spec.nchars))
  {
    var r, nodes := t.Walk(Symbols(spec.nchars), t.starts[i], w), After(nfa.g, Subset.Elements(nfa.labels[i]), w);
    && (r == F <==> nodes == {})
    && (r != F ==> Subset.BestAccept(nfa.g, nodes, t.accepts[r], t.anchors[r]))
  }

  /** The tables follow the NFA of the specification. */
  ghost predicate Follows(spec: Spec, t: Tables, nfa: Automaton) {
    && t.Ok(Symbols(spec.nchars)) && |t.starts| == |nfa.labels| == spec.nstates
    && Machine(spec, nfa.g, nfa.starts, nfa.ends)
    && (forall i :: 0 <= i < spec.nstates ==> Thompson.StartsFor(spec, i, nfa.starts, nfa.labels[i]))
    && forall i, w :: 0 <= i < spec.nstates && Over(w, Symbols(spec.nchars)) ==> EndsAs(spec, t, nfa, i, w)
  }

  /** What the stages between the NFA and the tables establish. */
  ghost predicate Stages(spec: Spec, g: Graph, starts: seq<nat>, ends: seq<nat>, g': Graph, ccls: seq<nat>, n: nat,
                         merged: seq<Row>, t: Tables)
  {
    && Machine(spec, g, starts, ends)
    && |ccls| == Symbols(spec.nchars) && Classes.Simplified(g, g', ccls)
    && Tabulates(merged, n, ccls, t)
  }

  ghost predicate StageOf(spec: Spec, starts: seq<nat>, i: nat, labels: seq<nat>, g': Graph, n: nat,
                          rows: seq<Row>, s: nat, merged: seq<Row>, s': nat)
    requires |starts| == |spec.rules| + 1
  {
    && Thompson.StartsFor(spec, i, starts, labels)
    && Subset.Determinizes(g', n, rows, Subset.Elements(labels), s)
    && Minimize.SameOutcome(rows, s, merged, s', n)
  }

  /** The tables end in F exactly when the NFA of the specification has no node left. */
  lemma {:induction false} EndsWithNfa(spec: Spec, g: Graph, starts: seq<nat>, ends: seq<nat>, g': Graph,
                                       ccls: seq<nat>, n: nat,
                    rows: seq<Row>, merged: seq<Row>, t: Tables, i: nat, labels: seq<nat>, s: nat, s': nat, w: seq<nat>)
    requires Stages(spec, g, starts, ends, g', ccls, n, merged, t)
    requires StageOf(spec, starts, i, labels, g', n, rows, s, merged, s')
    requires s' < |t.rmap| && Over(w, |ccls|)
    ensures var r := t.Walk(|ccls|, s', w);
            && (r == F <==> After(g, Subset.Elements(labels), w) == {})
            && (r != F ==> Subset.BestAccept(g, After(g, Subset.Elements(labels), w), t.accepts[r], t.anchors[r]))
  {
    var v := Classes.MapWord(ccls, w);
    var from := Subset.Elements(labels);
    TabulatedWalk(merged, n, ccls, t, s', w);
    SimplifiedAfter(g, g', ccls, from, w);
    var r, r' := Walk(rows, n, s, v), Walk(merged, n, s', v);
    assert Minimize.SameEnd(rows, r, merged, r');
    if r != F {
      SimplifiedBest(g, g', ccls, After(g, from, w), rows[r].accept, rows[r].anchor);
    }
    if w == [] {
      SilentStart(spec, g, starts, ends, i, labels);
    } else {
      assert v != [];
    }
    assert r' != F ==> t.accepts[r'] == merged[r'].accept && t.anchors[r'] == merged[r'].anchor;
    assert r == F <==> After(g, from, w) == {} by {
      assert (v == []) == (w == []);
    }
  }

  /** The silent rule keeps every start set from being empty. */
  lemma {:induction false} SilentStart(spec: Spec, g: Graph, starts: seq<nat>, ends: seq<nat>, i: nat, labels: seq<nat>)
    requires Machine(spec, g, starts, ends) && Thompson.StartsFor(spec, i, starts, labels)
    ensures After(g, Subset.Elements(labels), []) != {}
  {
    var k := |spec.rules|;
    assert Recognizes(spec, g, starts[k], ends[k], k);
    assert ActiveIn(spec, k, i) && starts[k] in labels;
    AfterSelf(g, Subset.Elements(labels), starts[k]);
  }

  /** Tables that follow the NFA implement the specification. */
  lemma {:induction false} FollowsDecides(spec: Spec, t: Tables, nfa: Automaton, i: nat, w: seq<nat>)
    requires Follows(spec, t, nfa) && i < spec.nstates && Over(w, Symbols(spec.nchars))
    ensures Decides(spec, t, i, w)
  {
    assert EndsAs(spec, t, nfa, i, w);
    var r := t.Walk(Symbols(spec.nchars), t.starts[i], w);
    if r == F {
      EmptyIsHopeless(spec, nfa.g, nfa.starts, nfa.ends, i, nfa.labels[i], w);
    } else {
      BestIsFirst(spec, nfa.g, nfa.starts, nfa.ends, i, nfa.labels[i], w, t.accepts[r], t.anchors[r]);
    }
  }

  lemma {:induction false} FollowsImplements(spec: Spec, t: Tables, nfa: Automaton)
    requires SpecOk(spec) && Follows(spec, t, nfa)
    ensures Implements(spec, t) && StopsAfterEof(spec, t)
  {
    var ncols, eof := Symbols(spec.nchars), Eof(spec.nchars);
    forall i, w | 0 <= i < spec.nstates && Over(w, ncols) ensures Decides(spec, t, i, w) {
      FollowsDecides(spec, t, nfa, i, w);
    }
    forall i, w, c | 0 <= i < |t.starts| && Over(w + [eof] + [c], ncols)
      ensures t.Walk(ncols, t.starts[i], w + [eof] + [c]) == F
    {
      AfterEof(nfa.g, Subset.Elements(nfa.labels[i]), w, eof, c);
      assert EndsAs(spec, t, nfa, i, w + [eof] + [c]);
    }
  }

  /** One table of a single row through the generated source. */
  method PackRow(row: seq<nat>) returns (r: seq<int>)
    ensures |r| == |row| && forall i :: 0 <= i < |row| ==> r[i] == row[i]
  {
    var ia: seq<int> := seq(|row|, i requires 0 <= i < |row| => row[i] as int);
    RoundTrip.NoBogusSurvives([ia]);
    var res := RoundTrip.PackAndUnpack([ia], |row|);
    assert res == [ia];
    r := res[0];
  }

  /** emit_table, as the scanner unpacks it. */
  method EmitTables(merged: seq<Row>, n: nat, ccls: seq<nat>, stateDtrans: seq<nat>) returns (t: Tables)
    requires Table(merged, n) && (forall c :: 0 <= c < |ccls| ==> ccls[c] < n)
    requires forall i :: 0 <= i < |stateDtrans| ==> stateDtrans[i] < |merged|
    ensures Tabulates(merged, n, ccls, t) && t.starts == stateDtrans
  {
    var accepts, anchors, table, ncols, rowMap, colMap := Compress.Reduce(merged, n);
    var cmap := seq(|ccls|, c requires 0 <= c < |ccls| => colMap[ccls[c]]);
    var yyCmap := PackRow(cmap);
    var yyRmap := PackRow(rowMap);
    var nxt := PackTable(merged, n, table, ncols, rowMap, colMap);
    t := Tables(accepts, anchors, yyCmap, yyRmap, nxt, stateDtrans);
    forall s, c | 0 <= s < |merged| && 0 <= c < |ccls| ensures t.NextOk(s, c) {
      LookUp(merged, n, table, ncols, rowMap, colMap, s, ccls[c]);
    }
    assert t.Ok(|ccls|);
    forall s, c | 0 <= s < |merged| && 0 <= c < |ccls| ensures ReadsAs(merged, n, ccls, t, s, c) {
      LookUp(merged, n, table, ncols, rowMap, colMap, s, ccls[c]);
    }
  }

  lemma {:induction false} LookUp(merged: seq<Row>, n: nat, table: Matrix, ncols: nat, rowMap: seq<nat>,
                                  colMap: seq<nat>, s: nat, c: nat)
    requires Table(merged, n) && Compress.LooksUp(Compress.Transitions(merged), n, table, ncols, rowMap, colMap)
    requires s < |merged| && c < n
    ensures rowMap[s] < |table| && colMap[c] < |table[rowMap[s]]|
    ensures |merged[s].trans| == n && F <= merged[s].trans[c] < |merged|
    ensures table[rowMap[s]][colMap[c]] == merged[s].trans[c]
  {
    assert RowOk(merged[s], n, |merged|);
    assert Compress.Transitions(merged)[s][c] == merged[s].trans[c];
  }

  /** yy_nxt through the generated source; its entries are states or F. */
  method PackTable(ghost merged: seq<Row>, ghost n: nat, table: Matrix, ncols: nat, ghost rowMap: seq<nat>,
                   ghost colMap: seq<nat>)
      returns (nxt: seq<seq<int>>)
    requires Table(merged, n) && Compress.LooksUp(Compress.Transitions(merged), n, table, ncols, rowMap, colMap)
    ensures nxt == table
  {
    forall i, j | 0 <= i < |table| && 0 <= j < |table[i]| ensures table[i][j] != TableString.BOGUS {
      assert i in rowMap && j in colMap;
      var s :| 0 <= s < |rowMap| && rowMap[s] == i;
      var c :| 0 <= c < |colMap| && colMap[c] == j;
      LookUp(merged, n, table, ncols, rowMap, colMap, s, c);
    }
    RoundTrip.NoBogusSurvives(table);
    nxt := RoundTrip.PackAndUnpack(table, ncols);
  }

  /** userRules and emit: the tables of a specification, and the NFA they follow. */
  method Generate(spec: Spec) returns (t: Tables, ghost nfa: Automaton)
    requires SpecOk(spec)
    ensures Implements(spec, t) && StopsAfterEof(spec, t) && Follows(spec, t, nfa)
  {
    var g, stateRules;
    ghost var starts, ends;
    g, stateRules, starts, ends := Thompson.MakeMachine(spec);
    var g', ccls, n := Classes.Simplify(Symbols(spec.nchars), g);
    SimplifiedClosed(g, g', ccls);
    LabelsInRange(spec, g, starts, ends, stateRules);
    var rows, stateDtrans := Subset.MakeDfa(g', n, stateRules);
    AnchorsUnique(spec, g, starts, ends, g', ccls, rows);
    var merged, stateDtrans', groups, run := Minimize.MergeStates(rows, n, stateDtrans);
    t := EmitTables(merged, n, ccls, stateDtrans');
    nfa := Automaton(g, starts, ends, stateRules);
    AllEnds(spec, nfa, g', ccls, n, rows, stateDtrans, merged, t);
    FollowsImplements(spec, t, nfa);
  }

  /** All stages together. */
  lemma {:induction false} AllEnds(spec: Spec, nfa: Automaton, g': Graph, ccls: seq<nat>, n: nat,
                                   rows: seq<Row>, stateDtrans: seq<nat>, merged: seq<Row>, t: Tables)
    requires Stages(spec, nfa.g, nfa.starts, nfa.ends, g', ccls, n, merged, t)
    requires |t.starts| == |stateDtrans| == |nfa.labels| == spec.nstates && t.Ok(Symbols(spec.nchars))
    requires forall i :: 0 <= i < spec.nstates ==> Thompson.StartsFor(spec, i, nfa.starts, nfa.labels[i])
    requires forall i :: 0 <= i < spec.nstates ==> Subset.Determinizes(g', n, rows, Subset.Elements(nfa.labels[i]),
               stateDtrans[i])
    requires forall i :: 0 <= i < spec.nstates ==> Minimize.SameOutcome(rows, stateDtrans[i], merged, t.starts[i], n)
    ensures Follows(spec, t, nfa)
  {
    forall i, w | 0 <= i < spec.nstates && Over(w, Symbols(spec.nchars)) ensures EndsAs(spec, t, nfa, i, w) {
      EndsWithNfa(spec, nfa.g, nfa.starts, nfa.ends, g', ccls, n, rows, merged, t, i, nfa.labels[i], stateDtrans[i],
          t.starts[i], w);
    }
  }

  lemma {:induction false} LabelsInRange(spec: Spec, g: Graph, starts: seq<nat>, ends: seq<nat>,
                                         stateRules: seq<seq<nat>>)
    requires Machine(spec, g, starts, ends)
    requires forall i :: 0 <= i < |stateRules| ==> Thompson.StartsFor(spec, i, starts, stateRules[i])
    ensures forall i, x :: 0 <= i < |stateRules| && x in stateRules[i] ==> x < |g|
  {
    forall i, x | 0 <= i < |stateRules| && x in stateRules[i] ensures x < |g| {
      assert Thompson.StartsFor(spec, i, starts, stateRules[i]);
      var k :| 0 <= k <= |spec.rules| && ActiveIn(spec, k, i) && starts[k] == x;
      assert Recognizes(spec, g, starts[k], ends[k], k);
    }
  }
}
