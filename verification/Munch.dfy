/** The driver of a generated scanner: one round of yylex runs the tables over the
    pseudo-input (BOL at the start of a line, the characters, EOF forever) and acts on
    the longest prefix they accept. */
module Munch {
  import opened Basics
  import opened Nfa
  import opened Regex
  import opened Dfa
  import opened Buffer
  import opened Generator

  /** Symbol number `i` of the pseudo-input. */
  function SymbolAt(nchars: nat, bol: bool, rest: seq<nat>, i: nat): nat {
    if bol && i == 0 then Bol(nchars)
    else
      var j := if bol then i - 1 else i;
      if j < |rest| then rest[j] else Eof(nchars)
  }

  function Prefix(nchars: nat, bol: bool, rest: seq<nat>, n: nat): (w: seq<nat>)
    ensures |w| == n && forall i :: 0 <= i < n ==> w[i] == SymbolAt(nchars, bol, rest, i)
  {
    seq(n, i requires 0 <= i < n => SymbolAt(nchars, bol, rest, i))
  }

  /** How many real characters the first `n` symbols hold. */
  function Real(bol: bool, rest: seq<nat>, n: nat): (k: nat)
    ensures k <= |rest|
  {
    var j := if bol && n > 0 then n - 1 else n;
    if j < |rest| then j else |rest|
  }

  /** A scan: the tables, the start state, and the pseudo-input. */
  datatype Scan = Scan(nchars: nat, t: Tables, start: nat, bol: bool, rest: seq<nat>) {
    ghost predicate Ok() {
      && t.Ok(Symbols(nchars)) && start < t.States() && Over(rest, nchars)
    }

    ghost function State(n: nat): (s: int)
      requires Ok()
      ensures F <= s < t.States()
    {
      PrefixOver(n);
      t.Walk(Symbols(nchars), start, Prefix(nchars, bol, rest, n))
    }

    lemma {:induction false} PrefixOver(n: nat)
      requires Ok()
      ensures Over(Prefix(nchars, bol, rest, n), Symbols(nchars))
    {}

    lemma {:induction false} StateStep(n: nat)
      requires Ok()
      ensures SymbolAt(nchars, bol, rest, n) < Symbols(nchars)
      ensures State(n + 1) == if State(n) == F then F
                                else t.Next(Symbols(nchars), State(n), SymbolAt(nchars, bol, rest, n))
    {
      var w := Prefix(nchars, bol, rest, n + 1);
      assert w[..n] == Prefix(nchars, bol, rest, n);
      assert w[n] == SymbolAt(nchars, bol, rest, n);
      PrefixOver(n + 1);
    }

    lemma {:induction false} StaysF(n: nat, k: nat)
      requires Ok() && State(n) == F && n <= k
      ensures State(k) == F
      decreases k
    {
      if n < k {
        StaysF(n, k - 1);
        StateStep(k - 1);
      }
    }

    ghost predicate Accepted(n: nat)
      requires Ok()
    {
      State(n) != F && t.accepts[State(n)].Some?
    }

    /** `m` is the length of the longest accepted prefix. */
    ghost predicate Longest(m: nat)
      requires Ok()
    {
      Accepted(m) && forall n :: n > m ==> !Accepted(n)
    }

    /** The real characters of the first `m` symbols, without what `$` matched. */
    ghost function Text(m: nat): seq<nat>
      requires Ok() && Accepted(m)
    {
      var chars := rest[..Real(bol, rest, m)];
      if t.anchors[State(m)].atEnd then WithoutEol(chars) else chars
    }

    /** `last` is the state after the longest accepted prefix, if any prefix is accepted. */
    ghost predicate Decided(last: Option<nat>, m: nat)
      requires Ok()
    {
      match last
      case None => forall k: nat :: !Accepted(k)
      case Some(s) => Longest(m) && State(m) == s
    }

    /** How the loop ends: at a bare end of file, or with the longest accepted prefix. */
    ghost predicate Ends(eof: bool, last: Option<nat>, m: nat, n: nat)
      requires Ok()
    {
      && (eof <==> !bol && rest == []) && (eof ==> n <= 1 && m == 0)
      && (!eof ==> Decided(last, m))
    }

    /** Nothing follows EOF. */
    ghost predicate EofStops()
      requires Ok()
    {
      State(Bound()) == F
    }

    /** Between two symbols: `n` read, `last` the state after the longest accepted prefix so far. */
    ghost predicate Reading(n: nat, state: int, last: Option<nat>, m: nat)
      requires Ok()
    {
      && state == State(n) && state != F
      && match last {
           case None => forall k: nat :: k <= n ==> !Accepted(k)
           case Some(s) => m <= n && Accepted(m) && State(m) == s && forall k: nat :: m < k <= n ==> !Accepted(k)
         }
    }

    lemma {:induction false} ReadingGoesOn(n: nat, state: int, last: Option<nat>, m: nat)
      requires Ok() && Reading(n, state, last, m) && State(n + 1) != F
      ensures if t.accepts[State(n + 1)].Some? then Reading(n + 1, State(n + 1), Some(State(n + 1)), n + 1)
              else Reading(n + 1, State(n + 1), last, m)
    {}

    /** How many symbols can be read before nothing is left to accept. */
    ghost function Bound(): nat {
      (if bol then 1 else 0) + |rest| + 2
    }

    lemma {:induction false} ReadingBounded(n: nat, state: int, last: Option<nat>, m: nat)
      requires Ok() && EofStops() && Reading(n, state, last, m)
      ensures n < Bound()
    {
      if n >= Bound() {
        StaysF(Bound(), n);
      }
    }

    lemma {:induction false} ReadingStarts()
      requires Ok()
      ensures State(0) == start
      ensures Reading(0, start, if t.accepts[start].Some? then Some(start) else None, 0)
    {}

    lemma {:induction false} ReadingStops(n: nat, state: int, last: Option<nat>, m: nat)
      requires Ok() && Reading(n, state, last, m) && State(n + 1) == F
      ensures Decided(last, m)
    {
      forall k: nat | k > n ensures !Accepted(k) {
        StaysF(n + 1, k);
      }
    }
  }

  datatype Outcome = EndOfFile | Unmatched | Action(state: nat)

  /** The scan that a round of yylex performs. */
  ghost function ScanOf(sc: Scanner, t: Tables, start: nat, nchars: nat): Scan
    requires sc.Position() <= |sc.input|
    reads sc
  {
    Scan(nchars, t, start, sc.atBol, sc.input[sc.Position()..])
  }

  /** The scanner after `n` symbols of the scan that began at `pos`. */
  ghost predicate At(sc: Scanner, scan: Scan, pos: nat, n: nat, last: Option<nat>, m: nat)
    reads sc, sc.reader, sc.buffer
  {
    && sc.Valid() && pos + |scan.rest| == |sc.input| && scan.rest == sc.input[pos..]
    && sc.Start() == pos && sc.Position() == pos + Real(scan.bol, scan.rest, n)
    && (last.Some? ==> sc.HasMark() && sc.End() == pos + Real(scan.bol, scan.rest, m))
  }

  /** One round of yylex, from yy_mark_start to the action that is run. */
  method Round(sc: Scanner, t: Tables, start: nat, nchars: nat) returns (r: Outcome, ghost m: nat)
    requires sc.Valid() && sc.eof == Eof(nchars)
    requires ScanOf(sc, t, start, nchars).Ok() && ScanOf(sc, t, start, nchars).EofStops()
    modifies sc, sc.reader, sc.buffer
    ensures sc.Valid() && (sc.buffer == old(sc.buffer) || fresh(sc.buffer)) && sc.Start() == old(sc.Position())
    ensures r.EndOfFile? <==> !old(sc.atBol) && old(sc.Position()) == |sc.input|
    ensures r.EndOfFile? ==> sc.Position() == old(sc.Position()) && sc.atBol == old(sc.atBol)
    ensures r.Unmatched? ==> forall n :: !old(ScanOf(sc, t, start, nchars)).Accepted(n)
    ensures r.Action? ==>
              var scan := old(ScanOf(sc, t, start, nchars));
              && scan.Longest(m) && scan.State(m) == r.state
              && sc.HasMark() && sc.Marked() == scan.Text(m)
              && sc.Position() == sc.End() && sc.atBol == EndsLine(sc.Marked())
  {
    ghost var scan := ScanOf(sc, t, start, nchars);
    ghost var pos := sc.Position();
    sc.MarkStart();
    var last: Option<nat>, eof;
    ghost var n;
    last, eof, m, n := Match(sc, t, start, nchars, scan, pos);
    if eof {
      return EndOfFile, m;
    }
    if last.None? {
      return Unmatched, m;
    }
    Finish(sc, t, last.value, scan, pos, n, m);
    return Action(last.value), m;
  }

  /** What precedes the action switch: drop what `$` matched and rewind to the mark. */
  method Finish(sc: Scanner, t: Tables, state: nat, ghost scan: Scan, ghost pos: nat, ghost n: nat, ghost m: nat)
    requires At(sc, scan, pos, n, Some(state), m) && scan.Ok() && scan.t == t && scan.Accepted(m)
    requires scan.State(m) == state
    modifies sc`bufferEnd, sc`bufferIndex, sc`atBol
    ensures sc.Valid() && sc.HasMark() && sc.Start() == pos && sc.Marked() == scan.Text(m)
    ensures sc.Position() == sc.End() && sc.atBol == EndsLine(sc.Marked())
  {
    assert sc.Marked() == scan.rest[..Real(scan.bol, scan.rest, m)];
    if t.anchors[state].atEnd {
      sc.MoveEnd();
    }
    sc.ToMark();
  }

  /** The lookahead symbol: BOL first on a new line, then what yy_advance delivers. */
  method Lookahead(sc: Scanner, nchars: nat, initial: bool, ghost scan: Scan, ghost pos: nat, ghost n: nat,
                   ghost last: Option<nat>, ghost m: nat)
      returns (c: nat)
    requires At(sc, scan, pos, n, last, m) && sc.eof == Eof(nchars) && scan.nchars == nchars
    requires sc.atBol == scan.bol && (initial <==> n == 0) && m <= n
    modifies sc, sc.reader, sc.buffer
    ensures sc.atBol == old(sc.atBol)
    ensures At(sc, scan, pos, n + 1, last, m) && (sc.buffer == old(sc.buffer) || fresh(sc.buffer))
    ensures c == SymbolAt(nchars, scan.bol, scan.rest, n)
  {
    if initial && sc.atBol {
      c := Bol(nchars);
    } else {
      c := sc.Advance();
    }
  }

  /** yy_mark_end after an accepting state. */
  method Mark(sc: Scanner, ghost scan: Scan, ghost pos: nat, ghost n: nat, ghost last: Option<nat>, ghost m: nat,
              ghost s: nat)
    requires At(sc, scan, pos, n, last, m)
    modifies sc`bufferEnd
    ensures At(sc, scan, pos, n, Some(s), n)
  {
    sc.MarkEnd();
  }

  /** One symbol: look ahead, make the transition, remember an accepting state. */
  method Step(sc: Scanner, t: Tables, nchars: nat, initial: bool, state: nat, last: Option<nat>,
              ghost scan: Scan, ghost pos: nat, ghost n: nat, ghost m: nat)
      returns (next: int, eof: bool, last': Option<nat>, ghost m': nat)
    requires scan.Ok() && scan.Reading(n, state, last, m) && At(sc, scan, pos, n, last, m) && m <= n
    requires sc.eof == Eof(nchars) && scan.nchars == nchars && scan.t == t && sc.atBol == scan.bol
    requires (initial <==> n == 0)
    modifies sc, sc.reader, sc.buffer
    ensures sc.atBol == old(sc.atBol)
    ensures sc.buffer == old(sc.buffer) || fresh(sc.buffer)
    ensures eof <==> initial && SymbolAt(nchars, scan.bol, scan.rest, 0) == Eof(nchars)
    ensures next == scan.State(n + 1) && At(sc, scan, pos, n + 1, last', m') && m' <= n + 1
    ensures eof || next == F ==> last' == last && m' == m
    ensures !eof && next != F ==> scan.Reading(n + 1, next, last', m')
    ensures !eof && next == F ==> scan.Decided(last, m)
  {
    var lookahead := Lookahead(sc, nchars, initial, scan, pos, n, last, m);
    scan.StateStep(n);
    next := t.Next(Symbols(nchars), state, lookahead);
    last', m' := last, m;
    eof := lookahead == Eof(nchars) && initial;
    if !eof && next != F {
      scan.ReadingGoesOn(n, state, last, m);
      if t.accepts[next].Some? {
        Mark(sc, scan, pos, n + 1, last, m, next);
        last', m' := Some(next), n + 1;
      }
    } else if !eof {
      scan.ReadingStops(n, state, last, m);
    }
  }

  /** Before the first symbol: the start state itself may accept. */
  method Begin(sc: Scanner, t: Tables, start: nat, ghost scan: Scan, ghost pos: nat) returns (last: Option<nat>)
    requires At(sc, scan, pos, 0, None, 0) && scan.Ok() && scan.t == t && scan.start == start
    modifies sc`bufferEnd
    ensures At(sc, scan, pos, 0, last, 0) && scan.Reading(0, start, last, 0)
  {
    last := None;
    scan.ReadingStarts();
    if t.accepts[start].Some? {
      last := Some(start);
      Mark(sc, scan, pos, 0, None, 0, start);
    }
  }

  /** The loop over the lookahead symbols. */
  method Match(sc: Scanner, t: Tables, start: nat, nchars: nat, ghost scan: Scan, ghost pos: nat)
      returns (last: Option<nat>, eof: bool, ghost m: nat, ghost n: nat)
    requires At(sc, scan, pos, 0, None, 0) && sc.eof == Eof(nchars)
    requires scan.nchars == nchars && scan.t == t && scan.start == start && scan.bol == sc.atBol
    requires scan.Ok() && scan.EofStops()
    modifies sc, sc.reader, sc.buffer
    ensures sc.atBol == old(sc.atBol)
    ensures sc.buffer == old(sc.buffer) || fresh(sc.buffer)
    ensures At(sc, scan, pos, n, last, m)
    ensures scan.Ends(eof, last, m, n)
  {
    n, m, eof := 0, 0, false;
    var state: nat, initial := start, true;
    last := Begin(sc, t, start, scan, pos);
    while true
      invariant sc.buffer == old(sc.buffer) || fresh(sc.buffer)
      invariant sc.atBol == scan.bol && (initial <==> n == 0) && m <= n
      invariant scan.Reading(n, state, last, m) && At(sc, scan, pos, n, last, m)
      invariant n > 0 ==> scan.bol || scan.rest != []
      decreases scan.Bound() - n
    {
      scan.ReadingBounded(n, state, last, m);
      var next;
      next, eof, last, m := Step(sc, t, nchars, initial, state, last, scan, pos, n, m);
      n := n + 1;
      if eof {
        return;
      }
      if next == F {
        return;
      }
      state := next;
      initial := false;
    }
  }
}
