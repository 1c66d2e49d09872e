/** CNfa2Dfa: the subset construction. */
module Subset {
  import opened Basics
  import opened Nfa
  import opened Dfa
  import opened Sets

  /** What the lowest-numbered accepting node of `t` accepts; nothing if there is none. */
  ghost predicate BestAccept(g: Graph, t: set<nat>, accept: Option<nat>, anchor: Anchor) {
    || (accept.None? && anchor == NO_ANCHOR && forall q :: q in t && q < |g| ==> g[q].accept.None?)
    || exists m :: m in t && IsBest(g, t, m) && g[m].accept == accept && g[m].anchor == anchor
  }

  ghost predicate IsBest(g: Graph, t: set<nat>, m: nat) {
    && m < |g| && g[m].accept.Some?
    && forall q :: q in t && q < |g| && g[q].accept.Some? ==> m <= q
  }

  ghost predicate SameElements(v: seq<nat>, s: set<nat>) {
    forall x :: x in v <==> x in s
  }

  ghost predicate Sorted(v: seq<nat>) {
    forall i, j :: 0 <= i < j < |v| ==> v[i] <= v[j]
  }

  /** Class CBunch. */
  datatype Bunch = Bunch(nfaSet: seq<nat>, nfaBit: set<nat>, accept: Option<nat>, anchor: Anchor,
                         acceptIndex: Option<nat>)

  /** sortStates: selection sort by label. */
  method SortStates(v: seq<nat>) returns (r: seq<nat>)
    ensures Sorted(r) && multiset(r) == multiset(v)
  {
    r := v;
    for begin := 0 to |v|
      invariant |r| == |v| && multiset(r) == multiset(v)
      invariant forall i, j :: 0 <= i < begin && i < j < |r| ==> r[i] <= r[j]
    {
      var smallest := begin;
      for index := begin + 1 to |r|
        invariant begin <= smallest < |r|
        invariant forall j :: begin <= j < index ==> r[smallest] <= r[j]
      {
        if r[index] < r[smallest] {
          smallest := index;
        }
      }
      SwapKeeps(r, begin, smallest);
      r := r[begin := r[smallest]][smallest := r[begin]];
    }
  }

  lemma {:induction false} SwapKeeps(r: seq<nat>, i: nat, j: nat)
    requires i <= j < |r|
    ensures multiset(r[i := r[j]][j := r[i]]) == multiset(r)
  {}

  lemma {:induction false} SameMembers(u: seq<nat>, v: seq<nat>)
    requires multiset(u) == multiset(v)
    ensures forall x :: x in u <==> x in v
  {
    forall x ensures x in u <==> x in v {
      assert x in u <==> x in multiset(u);
      assert x in v <==> x in multiset(v);
    }
  }

  /** The main loop of e_closure with `done` already popped from the stack. */
  ghost predicate Closing(g: Graph, start: set<nat>, b: Bunch, stack: seq<nat>, done: set<nat>) {
    && SameElements(b.nfaSet, b.nfaBit) && start <= b.nfaBit <= After(g, start, [])
    && done <= b.nfaBit
    && (forall x :: x in stack ==> x in b.nfaBit)
    && (forall x :: x in b.nfaBit ==> x in done || x in stack)
    && Within(g, done) && (forall x :: x in done ==> EpsilonIn(g, x, b.nfaBit))
    && BestIndex(g, done, b)
  }

  /** The bunch remembers the lowest-numbered accepting node of `t`. */
  ghost predicate BestIndex(g: Graph, t: set<nat>, b: Bunch) {
    match b.acceptIndex
    case None => b.accept.None? && b.anchor == NO_ANCHOR && forall q :: q in t && q < |g| ==> g[q].accept.None?
    case Some(m) => m in t && IsBest(g, t, m) && g[m].accept == b.accept && g[m].anchor == b.anchor
  }

  /** e_closure. */
  method EClosure(g: Graph, nfaSet: seq<nat>, nfaBit: set<nat>) returns (b: Bunch)
    requires Closed(g) && Within(g, nfaBit) && SameElements(nfaSet, nfaBit)
    ensures b.nfaBit == After(g, nfaBit, []) && SameElements(b.nfaSet, b.nfaBit) && Sorted(b.nfaSet)
    ensures BestAccept(g, b.nfaBit, b.accept, b.anchor)
  {
    b := Bunch(nfaSet, nfaBit, None, NO_ANCHOR, None);
    var stack := nfaSet;
    ghost var done: set<nat> := {};
    ClosingStarts(g, nfaSet, nfaBit);
    while stack != []
      invariant Closing(g, nfaBit, b, stack, done)
      decreases |Below(|g|) - b.nfaBit|, |stack|
    {
      ghost var state := stack[|stack| - 1];
      b, stack := Pop(g, nfaBit, b, stack, done);
      done := done + {state};
    }
    ClosingEnds(g, nfaBit, b, done);
    var sorted := SortStates(b.nfaSet);
    SameMembers(sorted, b.nfaSet);
    b := b.(nfaSet := sorted);
  }

  lemma {:induction false} ClosingStarts(g: Graph, nfaSet: seq<nat>, nfaBit: set<nat>)
    requires Within(g, nfaBit) && SameElements(nfaSet, nfaBit)
    ensures Closing(g, nfaBit, Bunch(nfaSet, nfaBit, None, NO_ANCHOR, None), nfaSet, {})
  {
    forall p | p in nfaBit ensures p in After(g, nfaBit, []) {
      AfterSelf(g, nfaBit, p);
    }
  }

  lemma {:induction false} ClosingEnds(g: Graph, start: set<nat>, b: Bunch, done: set<nat>)
    requires Closing(g, start, b, [], done)
    ensures b.nfaBit == After(g, start, []) && SameElements(b.nfaSet, b.nfaBit)
    ensures BestAccept(g, b.nfaBit, b.accept, b.anchor)
  {
    assert done == b.nfaBit;
    ClosureUnique(g, start, b.nfaBit);
  }

  /** One round of the main loop. */
  method Pop(g: Graph, ghost start: set<nat>, b: Bunch, stack: seq<nat>, ghost done: set<nat>)
      returns (b': Bunch, stack': seq<nat>)
    requires Closed(g) && Closing(g, start, b, stack, done) && stack != []
    ensures Closing(g, start, b', stack', done + {stack[|stack| - 1]})
    ensures |Below(|g|) - b'.nfaBit| < |Below(|g|) - b.nfaBit| ||
            (|Below(|g|) - b'.nfaBit| == |Below(|g|) - b.nfaBit| && |stack'| < |stack|)
  {
    var state := stack[|stack| - 1];
    assert state in stack;
    b' := b;
    if g[state].accept.Some? && (b.acceptIndex.None? || state < b.acceptIndex.value) {
      b' := b.(accept := g[state].accept, anchor := g[state].anchor, acceptIndex := Some(state));
    }
    b', stack' := Push(g, state, b', stack[..|stack| - 1]);
    Popped(g, start, b, b', stack, stack', done, state);
    Progress(Below(|g|), b.nfaBit, b'.nfaBit, stack, stack');
  }

  /** Pushes the epsilon successors that are not in the set yet. */
  method Push(g: Graph, state: nat, b: Bunch, stack: seq<nat>) returns (b': Bunch, stack': seq<nat>)
    requires Closed(g) && state < |g| && SameElements(b.nfaSet, b.nfaBit)
    ensures SameElements(b'.nfaSet, b'.nfaBit) && b.nfaBit <= b'.nfaBit && EpsilonIn(g, state, b'.nfaBit)
    ensures b'.accept == b.accept && b'.anchor == b.anchor && b'.acceptIndex == b.acceptIndex
    ensures stack <= stack' && (b'.nfaBit == b.nfaBit ==> stack' == stack)
    ensures forall x :: x in stack' <==> x in stack || (x in b'.nfaBit && x !in b.nfaBit)
    ensures forall x :: x in b'.nfaBit && x !in b.nfaBit ==>
              g[state].edge.Epsilon? && (g[state].next == Some(x) || g[state].next2 == Some(x)) && x < |g|
  {
    b', stack' := b, stack;
    assert StaysIn(g[state], 0, |g|);
    if g[state].edge.Epsilon? {
      if g[state].next.Some? && g[state].next.value !in b'.nfaSet {
        var x := g[state].next.value;
        b' := b'.(nfaBit := b'.nfaBit + {x}, nfaSet := b'.nfaSet + [x]);
        stack' := stack' + [x];
      }
      if g[state].next2.Some? && g[state].next2.value !in b'.nfaSet {
        var x := g[state].next2.value;
        b' := b'.(nfaBit := b'.nfaBit + {x}, nfaSet := b'.nfaSet + [x]);
        stack' := stack' + [x];
      }
    }
  }

  lemma {:induction false} Popped(g: Graph, start: set<nat>, b0: Bunch, b: Bunch, stack0: seq<nat>, stack: seq<nat>,
                                  done: set<nat>, state: nat)
    requires Closing(g, start, b0, stack0, done) && stack0 != [] && state == stack0[|stack0| - 1] && state < |g|
    requires SameElements(b.nfaSet, b.nfaBit) && b0.nfaBit <= b.nfaBit && EpsilonIn(g, state, b.nfaBit)
    requires forall x :: x in stack <==> x in stack0[..|stack0| - 1] || (x in b.nfaBit && x !in b0.nfaBit)
    requires forall x :: x in b.nfaBit && x !in b0.nfaBit ==>
               g[state].edge.Epsilon? && (g[state].next == Some(x) || g[state].next2 == Some(x)) && x < |g|
    requires BestIndex(g, done + {state}, b)
    ensures Closing(g, start, b, stack, done + {state})
  {
    assert state in stack0;
    forall x | x in b.nfaBit ensures x in After(g, start, []) {
      if x !in b0.nfaBit {
        AfterEpsilon(g, start, state, x);
      }
    }
    forall x | x in b.nfaBit ensures x in done + {state} || x in stack {
      if x in b0.nfaBit && x !in done {
        AllButLast(stack0, x);
      }
    }
    forall x | x in stack ensures x in b.nfaBit {
      if x in stack0[..|stack0| - 1] {
        assert x in stack0;
      }
    }
    forall x | x in done + {state} ensures EpsilonIn(g, x, b.nfaBit) {
      if x in done {
        assert EpsilonIn(g, x, b0.nfaBit);
      }
    }
  }

  lemma {:induction false} AllButLast(s: seq<nat>, x: nat)
    requires x in s
    ensures x == s[|s| - 1] || x in s[..|s| - 1]
  {
    var i :| 0 <= i < |s| && s[i] == x;
    if i < |s| - 1 {
      assert s[..|s| - 1][i] == x;
    }
  }

  lemma {:induction false} Progress(all: set<nat>, bit0: set<nat>, bit: set<nat>, stack0: seq<nat>, stack: seq<nat>)
    requires bit0 <= bit <= all
    requires stack0 != [] && (bit == bit0 ==> stack == stack0[..|stack0| - 1])
    ensures |all - bit| < |all - bit0| || (|all - bit| == |all - bit0| && |stack| < |stack0|)
  {
    SubsetSize(all - bit, all - bit0);
    if bit != bit0 {
      var x :| x in bit && x !in bit0;
      SubsetSize(all - bit, all - bit0 - {x});
    }
  }

  /** move: the nodes entered on `c`, or None if there are none. */
  method Move(g: Graph, nfaSet: seq<nat>, ghost nfaBit: set<nat>, c: nat) returns (r: Option<(seq<nat>, set<nat>)>)
    requires Closed(g) && Within(g, nfaBit) && SameElements(nfaSet, nfaBit)
    ensures r.None? <==> MoveSet(g, nfaBit, c) == {}
    ensures r.Some? ==> r.value.1 == MoveSet(g, nfaBit, c) && SameElements(r.value.0, r.value.1) && Sorted(r.value.0)
  {
    var found: seq<nat>, bit: set<nat> := [], {};
    for i := 0 to |nfaSet|
      invariant SameElements(found, bit)
      invariant forall q :: q in bit <==> exists j :: 0 <= j < i && Enters(g, nfaSet[j], c, q)
    {
      var state := nfaSet[i];
      assert state in nfaBit;
      assert StaysIn(g[state], 0, |g|);
      if g[state].edge.Fires(c) {
        found := found + [g[state].next.value];
        bit := bit + {g[state].next.value};
      }
    }
    MoveFound(g, nfaSet, nfaBit, c, bit);
    if found == [] {
      assert bit == {};
      return None;
    }
    assert found[0] in found;
    var sorted := SortStates(found);
    SameMembers(sorted, found);
    r := Some((sorted, bit));
  }

  lemma {:induction false} MoveFound(g: Graph, nfaSet: seq<nat>, nfaBit: set<nat>, c: nat, bit: set<nat>)
    requires Closed(g) && Within(g, nfaBit) && SameElements(nfaSet, nfaBit)
    requires forall q :: q in bit <==> exists j :: 0 <= j < |nfaSet| && Enters(g, nfaSet[j], c, q)
    ensures bit == MoveSet(g, nfaBit, c)
  {
    forall q | q in bit ensures q in MoveSet(g, nfaBit, c) {
      var j :| 0 <= j < |nfaSet| && Enters(g, nfaSet[j], c, q);
      assert nfaSet[j] in nfaBit;
      assert StaysIn(g[nfaSet[j]], 0, |g|);
    }
    forall q | q in MoveSet(g, nfaBit, c) ensures q in bit {
      var p :| p in nfaBit && Enters(g, p, c, q);
      var j :| 0 <= j < |nfaSet| && nfaSet[j] == p;
    }
  }

  /** Class CDfa. */
  datatype DfaState = DfaState(nfaSet: seq<nat>, nfaBit: set<nat>, accept: Option<nat>, anchor: Anchor, mark: bool)

  ghost predicate StateOk(g: Graph, d: DfaState) {
    Within(g, d.nfaBit) && SameElements(d.nfaSet, d.nfaBit) && BestAccept(g, d.nfaBit, d.accept, d.anchor)
  }

  ghost predicate StateAt(g: Graph, states: seq<DfaState>, k: nat)
    requires k < |states|
  {
    StateOk(g, states[k])
  }

  /** On `c`, the set `from` goes to state `t`, or nowhere if `t` is F. */
  ghost predicate GoesTo(g: Graph, states: seq<DfaState>, from: set<nat>, c: nat, t: int) {
    && F <= t < |states|
    && (t == F <==> MoveSet(g, from, c) == {})
    && (t != F ==> states[t].nfaBit == After(g, MoveSet(g, from, c), []))
  }

  /** `row` describes state `d`. */
  ghost predicate RowFor(g: Graph, ncols: nat, states: seq<DfaState>, d: DfaState, row: Row) {
    && |row.trans| == ncols && row.accept == d.accept && row.anchor == d.anchor
    && forall c :: 0 <= c < ncols ==> GoesTo(g, states, d.nfaBit, c, row.trans[c])
  }

  ghost predicate RowAt(g: Graph, ncols: nat, states: seq<DfaState>, dtrans: seq<Row>, k: nat)
    requires k < |dtrans| <= |states|
  {
    RowFor(g, ncols, states, states[k], dtrans[k])
  }

  ghost predicate Registered(states: seq<DfaState>, sets: map<set<nat>, nat>) {
    forall s :: s in sets ==> sets[s] < |states| && states[sets[s]].nfaBit == s
  }

  /** Later states may be added and marked; sets and what they accept stay. */
  ghost predicate Grows(states: seq<DfaState>, states': seq<DfaState>) {
    && |states| <= |states'|
    && forall k :: 0 <= k < |states| ==> states'[k] == states[k].(mark := states'[k].mark)
  }

  lemma {:induction false} RowKept(g: Graph, ncols: nat, states: seq<DfaState>, states': seq<DfaState>, k: nat,
                                   row: Row)
    requires Grows(states, states') && k < |states| && RowFor(g, ncols, states, states[k], row)
    ensures RowFor(g, ncols, states', states'[k], row)
  {
    forall c | 0 <= c < ncols ensures GoesTo(g, states', states'[k].nfaBit, c, row.trans[c]) {
      assert GoesTo(g, states, states[k].nfaBit, c, row.trans[c]);
    }
  }

  lemma {:induction false} SetsBounded(g: Graph, states: seq<DfaState>, sets: map<set<nat>, nat>)
    requires Registered(states, sets) && forall k :: 0 <= k < |states| ==> StateAt(g, states, k)
    ensures |sets| <= Pow2(|g|)
  {
    forall s, x | s in sets.Keys && x in s ensures x < |g| {
      assert StateAt(g, states, sets[s]);
    }
    AtMostPow2(|g|, sets.Keys);
    assert |sets| == |sets.Keys|;
  }

  lemma {:induction false} MarkKeeps(g: Graph, ncols: nat, states: seq<DfaState>, k: nat, dtrans: seq<Row>, row: Row)
    requires k == |dtrans| < |states| && RowFor(g, ncols, states, states[k], row)
    requires forall j :: 0 <= j < |states| ==> StateAt(g, states, j)
    requires forall j :: 0 <= j < k ==> RowAt(g, ncols, states, dtrans, j)
    ensures var states' := states[k := states[k].(mark := true)];
            && (forall j :: 0 <= j < |states'| ==> StateAt(g, states', j))
            && (forall j :: 0 <= j <= k ==> RowAt(g, ncols, states', dtrans + [row], j))
  {
    var states' := states[k := states[k].(mark := true)];
    forall j | 0 <= j <= k ensures RowAt(g, ncols, states', dtrans + [row], j) {
      assert j < k ==> RowAt(g, ncols, states, dtrans, j);
      RowKept(g, ncols, states, states', j, (dtrans + [row])[j]);
    }
    forall j | 0 <= j < |states'| ensures StateAt(g, states', j) {
      assert StateAt(g, states, j);
    }
  }

  class Nfa2Dfa {
    const g: Graph
    const ncols: nat
    var dfaStates: seq<DfaState>
    var dfaSets: map<set<nat>, nat>
    var dtrans: seq<Row>
    var unmarked: nat
    /** How many states were added without a look at the registered sets. */
    ghost var unchecked: nat

    ghost predicate Valid()
      reads this
    {
      && Closed(g)
      && (forall k :: 0 <= k < |dfaStates| ==> StateAt(g, dfaStates, k))
      && (forall k :: 0 <= k < |dfaStates| ==> (dfaStates[k].mark <==> k < |dtrans|))
      && unmarked <= |dtrans| <= |dfaStates|
      && Registered(dfaStates, dfaSets)
      && (forall k :: 0 <= k < |dtrans| ==> RowAt(g, ncols, dfaStates, dtrans, k))
      && |dfaStates| <= |dfaSets| + unchecked
    }

    constructor (g: Graph, ncols: nat)
      requires Closed(g)
      ensures Valid() && this.g == g && this.ncols == ncols && dfaStates == [] && dtrans == [] && unchecked == 0
    {
      this.g, this.ncols := g, ncols;
      dfaStates, dfaSets, dtrans, unmarked, unchecked := [], map[], [], 0, 0;
    }

    /** get_unmarked: the next state without a row. */
    method GetUnmarked() returns (r: Option<nat>)
      requires Valid()
      modifies this`unmarked
      ensures Valid()
      ensures r == if |dtrans| < |dfaStates| then Some(|dtrans|) else None
    {
      while unmarked < |dfaStates|
        invariant Valid()
      {
        if !dfaStates[unmarked].mark {
          return Some(unmarked);
        }
        unmarked := unmarked + 1;
      }
      return None;
    }

    /** add_to_dstates. */
    method AddToDstates(b: Bunch) returns (k: nat)
      requires Valid() && Within(g, b.nfaBit) && SameElements(b.nfaSet, b.nfaBit)
      requires BestAccept(g, b.nfaBit, b.accept, b.anchor)
      modifies this`dfaStates, this`dfaSets, this`unchecked
      ensures Valid() && k == |old(dfaStates)| && dfaSets == old(dfaSets)[b.nfaBit := k]
      ensures dfaStates == old(dfaStates) + [DfaState(b.nfaSet, b.nfaBit, b.accept, b.anchor, false)]
      ensures unchecked == old(unchecked) + (if b.nfaBit in old(dfaSets) then 1 else 0)
    {
      k := |dfaStates|;
      if b.nfaBit in dfaSets {
        unchecked := unchecked + 1;
      }
      dfaStates := dfaStates + [DfaState(b.nfaSet, b.nfaBit, b.accept, b.anchor, false)];
      MapSize(dfaSets, b.nfaBit, k);
      dfaSets := dfaSets[b.nfaBit := k];
      forall j | 0 <= j < |dfaStates| ensures StateAt(g, dfaStates, j) {
        assert j < k ==> StateAt(g, old(dfaStates), j);
      }
      forall j | 0 <= j < |dtrans| ensures RowAt(g, ncols, dfaStates, dtrans, j) {
        assert RowAt(g, ncols, old(dfaStates), dtrans, j);
        RowKept(g, ncols, old(dfaStates), dfaStates, j, dtrans[j]);
      }
    }

    /** in_dstates: the state registered for this set of nodes, if any. */
    method InDstates(b: Bunch) returns (r: Option<nat>)
      requires Valid()
      ensures r.None? <==> b.nfaBit !in dfaSets
      ensures r.Some? ==> r.value < |dfaStates| && dfaStates[r.value].nfaBit == b.nfaBit
    {
      r := if b.nfaBit in dfaSets then Some(dfaSets[b.nfaBit]) else None;
    }

    /** One column of a row: move, close, and find or add the state. */
    method Column(k: nat, c: nat) returns (t: int)
      requires Valid() && k < |dfaStates|
      modifies this`dfaStates, this`dfaSets, this`unchecked
      ensures Valid() && unchecked == old(unchecked)
      ensures old(dfaStates) <= dfaStates && GoesTo(g, dfaStates, dfaStates[k].nfaBit, c, t)
      ensures (dfaStates == old(dfaStates) && dfaSets == old(dfaSets)) || |dfaSets| > |old(dfaSets)|
    {
      assert StateAt(g, dfaStates, k);
      var m := Move(g, dfaStates[k].nfaSet, dfaStates[k].nfaBit, c);
      if m.None? {
        return F;
      }
      var b := EClosure(g, m.value.0, m.value.1);
      var found := InDstates(b);
      if found.Some? {
        return found.value;
      }
      MapSize(dfaSets, b.nfaBit, |dfaStates|);
      t := AddToDstates(b);
    }

    /** One row: all columns of state `k`. */
    method MakeRow(k: nat) returns (row: Row)
      requires Valid() && k < |dfaStates|
      modifies this`dfaStates, this`dfaSets, this`unchecked
      ensures Valid() && unchecked == old(unchecked)
      ensures old(dfaStates) <= dfaStates && RowFor(g, ncols, dfaStates, dfaStates[k], row)
      ensures (dfaStates == old(dfaStates) && dfaSets == old(dfaSets)) || |dfaSets| > |old(dfaSets)|
    {
      var trans: seq<int> := [];
      for c := 0 to ncols
        invariant Valid() && unchecked == old(unchecked)
        invariant old(dfaStates) <= dfaStates && |trans| == c
        invariant forall j :: 0 <= j < c ==> GoesTo(g, dfaStates, dfaStates[k].nfaBit, j, trans[j])
        invariant (dfaStates == old(dfaStates) && dfaSets == old(dfaSets)) || |dfaSets| > |old(dfaSets)|
      {
        ghost var states := dfaStates;
        var t := Column(k, c);
        forall j | 0 <= j < c ensures GoesTo(g, dfaStates, dfaStates[k].nfaBit, j, trans[j]) {
          assert GoesTo(g, states, states[k].nfaBit, j, trans[j]);
        }
        trans := trans + [t];
      }
      row := Row(trans, dfaStates[k].accept, dfaStates[k].anchor);
    }

    /** Gives every state without a row its row. */
    method Saturate()
      requires Valid()
      modifies this
      ensures Valid() && unchecked == old(unchecked) && |dtrans| == |dfaStates|
      ensures Grows(old(dfaStates), dfaStates)
    {
      SetsBounded(g, dfaStates, dfaSets);
      var next := GetUnmarked();
      while next.Some?
        invariant Valid() && unchecked == old(unchecked)
        invariant next == if |dtrans| < |dfaStates| then Some(|dtrans|) else None
        invariant Grows(old(dfaStates), dfaStates)
        invariant |dfaSets| <= Pow2(|g|)
        decreases Pow2(|g|) - |dfaSets|, |dfaStates| - |dtrans|
      {
        AddRow(next.value);
        SetsBounded(g, dfaStates, dfaSets);
        next := GetUnmarked();
      }
    }

    /** The body of the main loop: mark the state and append its row. */
    method AddRow(k: nat)
      requires Valid() && k == |dtrans| < |dfaStates|
      modifies this
      ensures Valid() && unchecked == old(unchecked) && Grows(old(dfaStates), dfaStates)
      ensures |dtrans| == |old(dtrans)| + 1
      ensures |dfaSets| > |old(dfaSets)| || (|dfaSets| == |old(dfaSets)| && |dfaStates| == |old(dfaStates)|)
    {
      var row := MakeRow(k);
      ghost var states := dfaStates;
      dfaStates := dfaStates[k := dfaStates[k].(mark := true)];
      MarkKeeps(g, ncols, states, k, dtrans, row);
      dtrans := dtrans + [row];
    }

    /** The start state of a lexical state; its label is also the number of its row. */
    method StartState(stateRules: seq<nat>) returns (k: nat)
      requires Valid() && |dtrans| == |dfaStates| && forall x :: x in stateRules ==> x < |g|
      modifies this`dfaStates, this`dfaSets, this`unchecked
      ensures Valid() && k == |dtrans| && unchecked <= old(unchecked) + 1
      ensures old(dfaStates) <= dfaStates && StartOf(stateRules, k)
    {
      var rules := SortStates(stateRules);
      SameMembers(rules, stateRules);
      var bit := Elements(rules);
      assert bit == Elements(stateRules);
      var b := EClosure(g, rules, bit);
      k := AddToDstates(b);
    }

    /** make_dtrans: a start state for every lexical state, and all rows. */
    method MakeDtrans(stateRules: seq<seq<nat>>) returns (stateDtrans: seq<nat>)
      requires Valid() && dfaStates == [] && unchecked == 0
      requires forall i, x :: 0 <= i < |stateRules| && x in stateRules[i] ==> x < |g|
      modifies this
      ensures Valid() && |dtrans| == |dfaStates| && |stateDtrans| == |stateRules|
      ensures forall i :: 0 <= i < |stateRules| ==> StartOf(stateRules[i], stateDtrans[i])
      ensures |dtrans| <= Pow2(|g|) + |stateRules|
    {
      stateDtrans := [];
      for i := 0 to |stateRules|
        invariant Valid() && |dtrans| == |dfaStates| && |stateDtrans| == i && unchecked <= i
        invariant forall j :: 0 <= j < i ==> StartOf(stateRules[j], stateDtrans[j])
      {
        var k := StartState(stateRules[i]);
        ghost var states := dfaStates;
        stateDtrans := stateDtrans + [k];
        Saturate();
        forall j | 0 <= j <= i ensures StartOf(stateRules[j], stateDtrans[j]) {
          assert stateDtrans[j] < |states| && states[stateDtrans[j]].nfaBit == After(g, Elements(stateRules[j]), []);
        }
      }
      SetsBounded(g, dfaStates, dfaSets);
    }

    /** State `k` is the closure of the given rule starts. */
    ghost predicate StartOf(rules: seq<nat>, k: nat)
      reads this
    {
      k < |dfaStates| && dfaStates[k].nfaBit == After(g, Elements(rules), [])
    }
  }

  function Elements(v: seq<nat>): set<nat> {
    set x | x in v
  }

  lemma {:induction false} MapSize(m: map<set<nat>, nat>, k: set<nat>, v: nat)
    ensures |m[k := v]| == |m| + (if k in m then 0 else 1)
  {
    assert m[k := v].Keys == m.Keys + {k};
    assert |m| == |m.Keys| && |m[k := v]| == |m[k := v].Keys|;
  }

  // What the table means.

  /** From state `s`, the table goes where the NFA goes from `from`: to F exactly when no
      node is left, and otherwise to a row that accepts what the best node left accepts. */
  ghost predicate Determinizes(g: Graph, ncols: nat, rows: seq<Row>, from: set<nat>, s: nat) {
    && Table(rows, ncols) && s < |rows|
    && forall w :: Over(w, ncols) ==>
         var t := Walk(rows, ncols, s, w);
         && (t == F <==> w != [] && After(g, from, w) == {})
         && (t != F ==> BestAccept(g, After(g, from, w), rows[t].accept, rows[t].anchor))
  }

  ghost predicate AllRows(g: Graph, ncols: nat, states: seq<DfaState>, rows: seq<Row>) {
    && |rows| == |states| && Closed(g)
    && (forall k :: 0 <= k < |states| ==> StateAt(g, states, k))
    && forall k :: 0 <= k < |rows| ==> RowAt(g, ncols, states, rows, k)
  }

  lemma {:induction false} AllRowsTable(g: Graph, ncols: nat, states: seq<DfaState>, rows: seq<Row>)
    requires AllRows(g, ncols, states, rows)
    ensures Table(rows, ncols)
  {
    forall k | 0 <= k < |rows| ensures RowOk(rows[k], ncols, |rows|) {
      assert RowAt(g, ncols, states, rows, k);
      assert forall c :: 0 <= c < ncols ==> GoesTo(g, states, states[k].nfaBit, c, rows[k].trans[c]);
    }
  }

  lemma {:induction false} AfterEmpty(g: Graph, w: seq<nat>)
    ensures After(g, {}, w) == {}
  {
    assert forall q: nat :: !FromSome(g, {}, w, q);
  }

  /** Each state the walk passes through is the set of nodes the NFA is in. */
  lemma {:induction false} WalkAfter(g: Graph, ncols: nat, states: seq<DfaState>, rows: seq<Row>, from: set<nat>,
                                     s: nat, w: seq<nat>)
    requires AllRows(g, ncols, states, rows) && Table(rows, ncols) && Over(w, ncols)
    requires s < |states| && states[s].nfaBit == After(g, from, [])
    ensures var t := Walk(rows, ncols, s, w);
            && (t == F <==> w != [] && After(g, from, w) == {})
            && (t != F ==> states[t].nfaBit == After(g, from, w))
    decreases |w|
  {
    if w != [] {
      var v, c := w[..|w| - 1], w[|w| - 1];
      assert w == v + [c];
      WalkAfter(g, ncols, states, rows, from, s, v);
      AfterSnoc(g, from, v, c);
      AfterEmpty(g, []);
      var t := Walk(rows, ncols, s, v);
      if t == F {
        assert MoveSet(g, {}, c) == {} by {
          assert forall q: nat :: !EntersFrom(g, {}, c, q);
        }
      } else {
        assert RowAt(g, ncols, states, rows, t);
        assert GoesTo(g, states, states[t].nfaBit, c, rows[t].trans[c]);
        ClosureNonEmpty(g, MoveSet(g, After(g, from, v), c));
      }
    }
  }

  lemma {:induction false} ClosureNonEmpty(g: Graph, s: set<nat>)
    requires Within(g, s)
    ensures s != {} ==> After(g, s, []) != {}
  {
    if s != {} {
      var p :| p in s;
      AfterSelf(g, s, p);
    }
  }

  /** What a row accepts comes from a node of the NFA. */
  ghost predicate AcceptFrom(g: Graph, row: Row) {
    || (row.accept.None? && row.anchor == NO_ANCHOR)
    || exists m :: 0 <= m < |g| && g[m].accept == row.accept && g[m].anchor == row.anchor && row.accept.Some?
  }

  /** make_dfa. */
  method MakeDfa(g: Graph, ncols: nat, stateRules: seq<seq<nat>>) returns (rows: seq<Row>, stateDtrans: seq<nat>)
    requires Closed(g)
    requires forall i, x :: 0 <= i < |stateRules| && x in stateRules[i] ==> x < |g|
    ensures Table(rows, ncols) && |stateDtrans| == |stateRules|
    ensures forall i :: 0 <= i < |stateRules| ==> Determinizes(g, ncols, rows, Elements(stateRules[i]), stateDtrans[i])
    ensures forall s :: 0 <= s < |rows| ==> AcceptFrom(g, rows[s])
    ensures |rows| <= Pow2(|g|) + |stateRules|
  {
    var d := new Nfa2Dfa(g, ncols);
    stateDtrans := d.MakeDtrans(stateRules);
    rows := d.dtrans;
    RowsMean(g, ncols, d.dfaStates, rows);
    assert forall i :: 0 <= i < |stateRules| ==> d.StartOf(stateRules[i], stateDtrans[i]);
  }

  lemma {:induction false} RowsMean(g: Graph, ncols: nat, states: seq<DfaState>, rows: seq<Row>)
    requires AllRows(g, ncols, states, rows)
    ensures Table(rows, ncols)
    ensures forall s :: 0 <= s < |rows| ==> AcceptFrom(g, rows[s])
    ensures forall from, s: nat :: s < |states| && states[s].nfaBit == After(g, from, []) ==>
              Determinizes(g, ncols, rows, from, s)
  {
    AllRowsTable(g, ncols, states, rows);
    forall s | 0 <= s < |rows| ensures AcceptFrom(g, rows[s]) {
      assert StateAt(g, states, s) && RowAt(g, ncols, states, rows, s);
    }
    forall from, s: nat | s < |states| && states[s].nfaBit == After(g, from, [])
      ensures Determinizes(g, ncols, rows, from, s)
    {
      forall w | Over(w, ncols)
        ensures var t := Walk(rows, ncols, s, w);
                && (t == F <==> w != [] && After(g, from, w) == {})
                && (t != F ==> BestAccept(g, After(g, from, w), rows[t].accept, rows[t].anchor))
      {
        WalkAfter(g, ncols, states, rows, from, s, w);
        var t := Walk(rows, ncols, s, w);
        if t != F {
          assert StateAt(g, states, t) && RowAt(g, ncols, states, rows, t);
        }
      }
    }
  }
}
