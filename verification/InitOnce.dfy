/** Context::getDefault of cl.hpp: threads agree on one default context by a compare-and-swap.
    Stores go through per-thread store buffers, which fences and compare-and-swap find empty.
    With `fifo` a buffer reaches memory in order (total store order), otherwise in any order. */
module InitOnce {
  import opened Basics

  const NOT_INITIALIZED := 1
  const BEING_INITIALIZED := 2
  const INITIALIZED := 4

  datatype Memory = Memory(flag: int, context: int, error: int)

  datatype Store = Flag(flag: int) | Context(context: int) | Error(error: int)

  /** Where a call of getDefault is. */
  datatype Pc =
    | Start                                          // before the compare-and-swap
    | Construct                                      // won: about to construct and store the context
    | FenceContext(error: int)
    | StoreError(error: int)
    | StoreFlag
    | FenceFlag
    | Spin                                           // lost: waiting for the flag
    | ReadError
    | ReadContext(report: Option<int>)
    | Done(context: int, report: Option<int>)

  /** A call of getDefault: where it is, its store buffer, and whether it passed a place for the error. */
  datatype Thread = Thread(pc: Pc, buffer: seq<Store>, wanted: bool)

  /** `made` lists the contexts constructed so far, with their errors; `owner` is the thread that won. */
  datatype State = State(mem: Memory, threads: seq<Thread>, made: seq<(int, int)>, owner: Option<nat>)

  datatype Action =
    | Cas
    | Make(context: int, error: int)
    | Fence
    | PutError
    | PutFlag
    | Look
    | GetError
    | GetContext
    | Flush(k: nat)

  function Put(m: Memory, w: Store): Memory {
    match w
    case Flag(f) => m.(flag := f)
    case Context(c) => m.(context := c)
    case Error(e) => m.(error := e)
  }

  /** A thread sees its own stores. */
  function View(m: Memory, buffer: seq<Store>): Memory
    decreases |buffer|
  {
    if buffer == [] then m else View(Put(m, buffer[0]), buffer[1..])
  }

  predicate HasBit(state: int, bit: int)
    requires bit > 0
  {
    state / bit % 2 == 1
  }

  predicate Enabled(s: State, t: nat, a: Action, fifo: bool) {
    t < |s.threads| &&
    var th := s.threads[t];
    match a
    case Cas => th.pc.Start? && th.buffer == []
    case Make(_, _) => th.pc.Construct?
    case Fence => (th.pc.FenceContext? || th.pc.FenceFlag?) && th.buffer == []
    case PutError => th.pc.StoreError?
    case PutFlag => th.pc.StoreFlag?
    case Look => th.pc.Spin?
    case GetError => th.pc.ReadError?
    case GetContext => th.pc.ReadContext?
    case Flush(k) => k < |th.buffer| && (fifo ==> k == 0)
  }

  /** Where the compare-and-swap leads, given the value it found. */
  function AfterCas(found: int): Pc {
    if HasBit(found, INITIALIZED) then ReadError
    else if HasBit(found, BEING_INITIALIZED) then Spin
    else Construct
  }

  function Apply(s: State, t: nat, a: Action, fifo: bool): State
    requires Enabled(s, t, a, fifo)
  {
    var th := s.threads[t];
    match a
    case Cas =>
      var won := s.mem.flag == NOT_INITIALIZED;
      s.(threads := s.threads[t := th.(pc := AfterCas(s.mem.flag))],
         mem := if won then s.mem.(flag := BEING_INITIALIZED) else s.mem,
         owner := if won then Some(t) else s.owner)
    case Make(c, e) =>
      s.(threads := s.threads[t := th.(pc := FenceContext(e), buffer := th.buffer + [Context(c)])], made :=
          s.made + [(c, e)])
    case Fence =>
      s.(threads := s.threads[t := th.(pc := if th.pc.FenceContext? then StoreError(th.pc.error) else ReadError)])
    case PutError =>
      s.(threads := s.threads[t := th.(pc := StoreFlag, buffer := th.buffer + [Error(th.pc.error)])])
    case PutFlag =>
      s.(threads := s.threads[t := th.(pc := FenceFlag, buffer := th.buffer + [Flag(INITIALIZED)])])
    case Look =>
      s.(threads := s.threads[t := th.(pc := if View(s.mem, th.buffer).flag == INITIALIZED then ReadError else Spin)])
    case GetError =>
      s.(threads := s.threads[t := th.(pc := ReadContext(if th.wanted then Some(View(s.mem, th.buffer).error)
          else None))])
    case GetContext =>
      s.(threads := s.threads[t := th.(pc := Done(View(s.mem, th.buffer).context, th.pc.report))])
    case Flush(k) =>
      s.(threads := s.threads[t := th.(buffer := th.buffer[..k] + th.buffer[k + 1..])], mem := Put(s.mem, th.buffer[k]))
  }

  predicate Initial(s: State) {
    && s.mem.flag == NOT_INITIALIZED && s.made == [] && s.owner.None?
    && forall t :: 0 <= t < |s.threads| ==> s.threads[t].pc == Start && s.threads[t].buffer == []
  }

  /** A run: who does what, in any interleaving. */
  ghost predicate Runs(s: State, steps: seq<(nat, Action)>, s': State, fifo: bool)
    decreases |steps|
  {
    if steps == [] then s' == s
    else Enabled(s, steps[0].0, steps[0].1, fifo) && Runs(Apply(s, steps[0].0, steps[0].1, fifo), steps[1..], s', fifo)
  }

  ghost predicate Reachable(s: State, fifo: bool) {
    exists s0, steps :: Initial(s0) && Runs(s0, steps, s, fifo)
  }

  /** All calls return the one context that was made; those that passed a place for the error, and no
      others, get a report, which is its error if `errors`. */
  ghost predicate Agreed(s: State, errors: bool) {
    && |s.made| <= 1
    && forall t :: 0 <= t < |s.threads| ==> Returns(s.threads[t], s.made, errors)
  }

  ghost predicate Returns(th: Thread, made: seq<(int, int)>, errors: bool) {
    th.pc.Done? ==>
      && |made| == 1 && th.pc.context == made[0].0 && (th.pc.report.Some? <==> th.wanted)
      && (errors && th.wanted ==> th.pc.report == Some(made[0].1))
  }

  // The invariant.  What it says about the error needs total store order.

  ghost predicate Reports(m: Memory, wanted: bool, report: Option<int>, fifo: bool) {
    (report.Some? <==> wanted) && (fifo && wanted ==> report == Some(m.error))
  }

  /** A thread that did not win. */
  ghost predicate Guest(m: Memory, th: Thread, fifo: bool) {
    && th.buffer == []
    && match th.pc
       case Start => true
       case Spin => m.flag != NOT_INITIALIZED
       case ReadError => m.flag == INITIALIZED
       case ReadContext(r) => m.flag == INITIALIZED && Reports(m, th.wanted, r, fifo)
       case Done(c, r) => m.flag == INITIALIZED && c == m.context && Reports(m, th.wanted, r, fifo)
       case _ => false
  }

  /** The thread that won, and what its stores have done so far. */
  ghost predicate Winner(m: Memory, th: Thread, made: seq<(int, int)>, fifo: bool) {
    match th.pc
    case Construct => m.flag == BEING_INITIALIZED && th.buffer == [] && made == []
    case FenceContext(e) =>
      && m.flag == BEING_INITIALIZED && |made| == 1 && made[0].1 == e
      && (th.buffer == [Context(made[0].0)] || (th.buffer == [] && m.context == made[0].0))
    case StoreError(e) => m.flag == BEING_INITIALIZED && th.buffer == [] && made == [(m.context, e)]
    case StoreFlag =>
      && m.flag == BEING_INITIALIZED && |made| == 1 && made[0].0 == m.context
      && (th.buffer == [Error(made[0].1)] || (th.buffer == [] && m.error == made[0].1))
    case FenceFlag =>
      && |made| == 1 && made[0].0 == m.context
      && (|| (m.flag == BEING_INITIALIZED && th.buffer == [Error(made[0].1), Flag(INITIALIZED)])
          || (m.flag == BEING_INITIALIZED && th.buffer == [Flag(INITIALIZED)] && m.error == made[0].1)
          || (!fifo && m.flag == INITIALIZED && th.buffer == [Error(made[0].1)])
          || (m.flag == INITIALIZED && th.buffer == [] && m.error == made[0].1))
    case _ =>
      m.flag == INITIALIZED && Guest(m, th, fifo) && !th.pc.Start? && made == [(m.context, m.error)]
  }

  ghost predicate ThreadOk(s: State, t: nat, fifo: bool)
    requires t < |s.threads|
  {
    if s.owner == Some(t) then Winner(s.mem, s.threads[t], s.made, fifo) else Guest(s.mem, s.threads[t], fifo)
  }

  ghost predicate Invariant(s: State, fifo: bool) {
    && (s.owner.None? ==> s.mem.flag == NOT_INITIALIZED && s.made == [])
    && (s.owner.Some? ==> s.owner.value < |s.threads|)
    && forall t :: 0 <= t < |s.threads| ==> ThreadOk(s, t, fifo)
  }

  lemma {:induction false} InvariantHoldsInitially(s: State, fifo: bool)
    requires Initial(s)
    ensures Invariant(s, fifo)
  {}

  /** Once the flag says so, the context is final, and so is all of memory if stores stay in order. */
  lemma {:induction false} MemoryKept(s: State, t: nat, a: Action, fifo: bool)
    requires Invariant(s, fifo) && Enabled(s, t, a, fifo)
    ensures var m := Apply(s, t, a, fifo).mem;
            s.mem.flag == INITIALIZED ==> m.flag == INITIALIZED && m.context == s.mem.context && (fifo ==> m == s.mem)
    ensures s.owner.Some? && s.owner != Some(t) ==>
              var s' := Apply(s, t, a, fifo); s'.mem == s.mem && s'.made == s.made && s'.owner == s.owner
  {
    assert ThreadOk(s, t, fifo);
    if s.owner.Some? {
      assert ThreadOk(s, s.owner.value, fifo);
    }
  }

  lemma {:induction false} OthersKept(s: State, t: nat, a: Action, u: nat, fifo: bool)
    requires Invariant(s, fifo) && Enabled(s, t, a, fifo) && u < |s.threads| && u != t
    ensures ThreadOk(Apply(s, t, a, fifo), u, fifo)
  {
    assert ThreadOk(s, u, fifo) && ThreadOk(s, t, fifo);
    MemoryKept(s, t, a, fifo);
  }

  lemma {:induction false} OwnKept(s: State, t: nat, a: Action, fifo: bool)
    requires Invariant(s, fifo) && Enabled(s, t, a, fifo)
    ensures ThreadOk(Apply(s, t, a, fifo), t, fifo)
  {
    assert ThreadOk(s, t, fifo);
    if s.owner.Some? {
      assert ThreadOk(s, s.owner.value, fifo);
    }
  }

  /** Every step of every thread keeps the invariant. */
  lemma {:induction false} InvariantKept(s: State, t: nat, a: Action, fifo: bool)
    requires Invariant(s, fifo) && Enabled(s, t, a, fifo)
    ensures Invariant(Apply(s, t, a, fifo), fifo)
  {
    var s' := Apply(s, t, a, fifo);
    assert ThreadOk(s, t, fifo);
    forall u | 0 <= u < |s'.threads| ensures ThreadOk(s', u, fifo) {
      if u != t {
        OthersKept(s, t, a, u, fifo);
      } else {
        OwnKept(s, t, a, fifo);
      }
    }
  }

  lemma {:induction false} RunKeeps(s: State, steps: seq<(nat, Action)>, s': State, fifo: bool)
    requires Invariant(s, fifo) && Runs(s, steps, s', fifo)
    ensures Invariant(s', fifo)
    decreases |steps|
  {
    if steps != [] {
      InvariantKept(s, steps[0].0, steps[0].1, fifo);
      RunKeeps(Apply(s, steps[0].0, steps[0].1, fifo), steps[1..], s', fifo);
    }
  }

  lemma {:induction false} ReachableInvariant(s: State, fifo: bool)
    requires Reachable(s, fifo)
    ensures Invariant(s, fifo)
  {
    var s0, steps :| Initial(s0) && Runs(s0, steps, s, fifo);
    InvariantHoldsInitially(s0, fifo);
    RunKeeps(s0, steps, s, fifo);
  }

  /** A call keeps its arguments. */
  lemma {:induction false} ArgumentsKept(s: State, steps: seq<(nat, Action)>, s': State, fifo: bool)
    requires Runs(s, steps, s', fifo)
    ensures |s'.threads| == |s.threads|
    ensures forall t :: 0 <= t < |s.threads| ==> s'.threads[t].wanted == s.threads[t].wanted
    decreases |steps|
  {
    if steps != [] {
      ArgumentsKept(Apply(s, steps[0].0, steps[0].1, fifo), steps[1..], s', fifo);
    }
  }

  /** At most one context is made and all calls return it; with total store order they also report its error. */
  lemma {:induction false} CallsAgree(s: State, fifo: bool)
    requires Reachable(s, fifo)
    ensures Agreed(s, fifo)
  {
    ReachableInvariant(s, fifo);
    if s.owner.Some? { assert ThreadOk(s, s.owner.value, fifo); }
    forall t | 0 <= t < |s.threads| ensures Returns(s.threads[t], s.made, fifo) {
      assert ThreadOk(s, t, fifo);
    }
  }

  /** The flag only moves from 1 to 2 to 4. */
  lemma {:induction false} FlagMoves(s: State, t: nat, a: Action, fifo: bool)
    requires Reachable(s, fifo) && Enabled(s, t, a, fifo)
    ensures var f, f' := s.mem.flag, Apply(s, t, a, fifo).mem.flag;
            f' == f || (f == NOT_INITIALIZED && f' == BEING_INITIALIZED) ||
                (f == BEING_INITIALIZED && f' == INITIALIZED)
  {
    ReachableInvariant(s, fifo);
    assert ThreadOk(s, t, fifo);
  }

  /** Nobody reads while the store of a context is under way, nor, with total store order, any store. */
  lemma {:induction false} NoRace(s: State, t: nat, u: nat, fifo: bool)
    requires Reachable(s, fifo) && t < |s.threads| && u < |s.threads|
    requires s.threads[t].pc.ReadError? || s.threads[t].pc.ReadContext?
    ensures forall k :: 0 <= k < |s.threads[u].buffer| ==> !s.threads[u].buffer[k].Context?
    ensures fifo ==> s.threads[u].buffer == []
  {
    ReachableInvariant(s, fifo);
    assert ThreadOk(s, t, fifo) && ThreadOk(s, u, fifo);
  }

  // Without order between the stores of the error and of the flag.

  lemma {:induction false} RunStep(s: State, t: nat, a: Action, steps: seq<(nat, Action)>, s': State, fifo: bool)
    requires Enabled(s, t, a, fifo) && Runs(Apply(s, t, a, fifo), steps, s', fifo)
    ensures Runs(s, [(t, a)] + steps, s', fifo)
  {
    assert ([(t, a)] + steps)[1..] == steps;
  }

  /** A run of two threads in which the construction fails with error 5 and the flag becomes visible
      before the error does: at the start, when the context is stored, and when the flag is. */
  function Begin(): State {
    State(Memory(1, 0, 0), [Thread(Start, [], true), Thread(Start, [], true)], [], None)
  }

  function Constructed(): State {
    State(Memory(2, 7, 0), [Thread(StoreError(5), [], true), Thread(Start, [], true)], [(7, 5)], Some(0))
  }

  function Flagged(): State {
    State(Memory(4, 7, 0), [Thread(FenceFlag, [Error(5)], true), Thread(Start, [], true)], [(7, 5)], Some(0))
  }

  lemma {:induction false} ToConstructed(steps: seq<(nat, Action)>, s: State) returns (more: seq<(nat, Action)>)
    requires Runs(Constructed(), steps, s, false)
    ensures Runs(Begin(), more, s, false)
  {
    var s1 := Apply(Begin(), 0, Cas, false);
    var s2 := Apply(s1, 0, Make(7, 5), false);
    var s3 := Apply(s2, 0, Flush(0), false);
    var s4 := Apply(s3, 0, Fence, false);
    assert s4.threads[0].buffer == [] && s4.threads == Constructed().threads && s4.made == [(7, 5)];
    RunStep(s3, 0, Fence, steps, s, false);
    more := [(0, Fence)] + steps;
    RunStep(s2, 0, Flush(0), more, s, false);
    more := [(0, Flush(0))] + more;
    RunStep(s1, 0, Make(7, 5), more, s, false);
    more := [(0, Make(7, 5))] + more;
    RunStep(Begin(), 0, Cas, more, s, false);
    more := [(0, Cas)] + more;
  }

  lemma {:induction false} ToFlagged(steps: seq<(nat, Action)>, s: State) returns (more: seq<(nat, Action)>)
    requires Runs(Flagged(), steps, s, false)
    ensures Runs(Constructed(), more, s, false)
  {
    var s5 := Apply(Constructed(), 0, PutError, false);
    var s6 := Apply(s5, 0, PutFlag, false);
    var s7 := Apply(s6, 0, Flush(1), false);
    assert s7.threads[0].buffer == [Error(5)] && s7.threads == Flagged().threads;
    RunStep(s6, 0, Flush(1), steps, s, false);
    more := [(0, Flush(1))] + steps;
    RunStep(s5, 0, PutFlag, more, s, false);
    more := [(0, PutFlag)] + more;
    RunStep(Constructed(), 0, PutError, more, s, false);
    more := [(0, PutError)] + more;
  }

  /** The second call then reports success. */
  lemma {:induction false} StaleError() returns (s: State)
    ensures Reachable(s, false) && !Agreed(s, true)
  {
    var s8 := Flagged().(threads := [Thread(FenceFlag, [Error(5)], true), Thread(ReadError, [], true)]);
    var s9 := Flagged().(threads := [Thread(FenceFlag, [Error(5)], true), Thread(ReadContext(Some(0)), [], true)]);
    s := Flagged().(threads := [Thread(FenceFlag, [Error(5)], true), Thread(Done(7, Some(0)), [], true)]);
    assert Apply(s9, 1, GetContext, false) == s;
    RunStep(s9, 1, GetContext, [], s, false);
    var more := [(1, GetContext)] + [];
    assert Apply(s8, 1, GetError, false) == s9;
    RunStep(s8, 1, GetError, more, s, false);
    more := [(1, GetError)] + more;
    assert Apply(Flagged(), 1, Cas, false) == s8;
    RunStep(Flagged(), 1, Cas, more, s, false);
    more := ToFlagged([(1, Cas)] + more, s);
    more := ToConstructed(more, s);
    assert Initial(Begin());
    assert !Returns(s.threads[1], s.made, true);
  }

  /** All calls report the one error in every run exactly when stores reach memory in order. */
  lemma {:induction false} ErrorsAgreeIffOrdered(fifo: bool)
    ensures (forall s :: Reachable(s, fifo) ==> Agreed(s, true)) <==> fifo
  {
    if fifo {
      forall s | Reachable(s, fifo) ensures Agreed(s, true) {
        CallsAgree(s, fifo);
      }
    } else {
      var s := StaleError();
    }
  }

  // No call is stuck.

  ghost function Remaining(th: Thread): nat {
    |th.buffer| +
    match th.pc
    case Start => 11
    case Construct => 10
    case FenceContext(_) => 8
    case StoreError(_) => 7
    case StoreFlag => 5
    case FenceFlag => 3
    case Spin => 3
    case ReadError => 2
    case ReadContext(_) => 1
    case Done(_, _) => 0
  }

  ghost function Rank(threads: seq<Thread>): nat {
    if threads == [] then 0 else Remaining(threads[0]) + Rank(threads[1..])
  }

  lemma {:induction false} RankUpdated(threads: seq<Thread>, t: nat, th: Thread)
    requires t < |threads|
    ensures Rank(threads[t := th]) == Rank(threads) - Remaining(threads[t]) + Remaining(th)
  {
    if t == 0 {
      assert threads[t := th][1..] == threads[1..];
    } else {
      RankUpdated(threads[1..], t - 1, th);
      assert threads[t := th][1..] == threads[1..][t - 1 := th];
    }
  }

  ghost predicate Finished(s: State) {
    forall t :: 0 <= t < |s.threads| ==> s.threads[t].pc.Done?
  }

  /** Some thread can always come closer to its end. */
  lemma {:induction false} Progress(s: State, fifo: bool) returns (t: nat, a: Action)
    requires Invariant(s, fifo) && !Finished(s)
    ensures Enabled(s, t, a, fifo) && Remaining(Apply(s, t, a, fifo).threads[t]) < Remaining(s.threads[t])
  {
    if u :| 0 <= u < |s.threads| && s.threads[u].buffer != [] {
      t, a := u, Flush(0);
    } else if u :| 0 <= u < |s.threads| && !s.threads[u].pc.Done? && !s.threads[u].pc.Spin? {
      t, a := u, NextAction(s.threads[u].pc);
      Advances(s, u, fifo);
    } else {
      var u :| 0 <= u < |s.threads| && !s.threads[u].pc.Done?;
      t, a := u, Look;
      assert ThreadOk(s, u, fifo);
      assert s.owner.Some? && ThreadOk(s, s.owner.value, fifo);
    }
  }

  function NextAction(pc: Pc): Action {
    match pc
    case Start => Cas
    case Construct => Make(0, 0)
    case FenceContext(_) => Fence
    case StoreError(_) => PutError
    case StoreFlag => PutFlag
    case FenceFlag => Fence
    case Spin => Look
    case ReadError => GetError
    case _ => GetContext
  }

  lemma {:induction false} Advances(s: State, t: nat, fifo: bool)
    requires t < |s.threads| && s.threads[t].buffer == [] && !s.threads[t].pc.Done? && !s.threads[t].pc.Spin?
    ensures var a := NextAction(s.threads[t].pc);
            Enabled(s, t, a, fifo) && Remaining(Apply(s, t, a, fifo).threads[t]) < Remaining(s.threads[t])
  {}

  lemma {:induction false} OnlyOne(s: State, t: nat, a: Action, fifo: bool)
    requires Enabled(s, t, a, fifo)
    ensures var ts := Apply(s, t, a, fifo).threads; |ts| == |s.threads| && ts == s.threads[t := ts[t]]
  {}

  /** From every reachable state all calls can return: there is no deadlock. */
  lemma {:induction false} CanFinish(s: State, fifo: bool) returns (steps: seq<(nat, Action)>, s': State)
    requires Invariant(s, fifo)
    ensures Runs(s, steps, s', fifo) && Finished(s')
    decreases Rank(s.threads)
  {
    if Finished(s) {
      return [], s;
    }
    var t, a := Progress(s, fifo);
    var next := Apply(s, t, a, fifo);
    OnlyOne(s, t, a, fifo);
    RankUpdated(s.threads, t, next.threads[t]);
    InvariantKept(s, t, a, fifo);
    var rest;
    rest, s' := CanFinish(next, fifo);
    RunStep(s, t, a, rest, s', fifo);
    steps := [(t, a)] + rest;
  }

  lemma {:induction false} NeverStuck(s: State, fifo: bool) returns (steps: seq<(nat, Action)>, s': State)
    requires Reachable(s, fifo)
    ensures Runs(s, steps, s', fifo) && Finished(s')
  {
    ReachableInvariant(s, fifo);
    steps, s' := CanFinish(s, fifo);
  }
}
