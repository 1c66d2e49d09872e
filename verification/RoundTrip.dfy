/** When a table survives being written and read back. */
module RoundTrip {
  import opened Basics
  import opened TableString

  /** A table survives if all its entries are BOGUS, or if it does not start with BOGUS and
      no BOGUS stands alone between two other entries. */
  ghost predicate Survives(xs: seq<int>) {
    || (forall i :: 0 <= i < |xs| ==> xs[i] == BOGUS)
    || (xs[0] != BOGUS && forall i :: 0 < i < |xs| - 1 ==> !Alone(xs, i))
  }

  ghost predicate Alone(xs: seq<int>, i: int)
    requires 0 < i < |xs| - 1
  {
    xs[i] == BOGUS && xs[i - 1] != BOGUS && xs[i + 1] != BOGUS
  }

  function Repeat(x: int, n: nat): (s: seq<int>)
    ensures |s| == n && forall i :: 0 <= i < n ==> s[i] == x
  {
    seq(n, _ => x)
  }

  function Expand(rs: seq<Run>): seq<int> {
    if rs == [] then [] else Expand(rs[..|rs| - 1]) + Repeat(rs[|rs| - 1].value, rs[|rs| - 1].count)
  }

  lemma {:induction false} ExpandConcat(a: seq<Run>, b: seq<Run>)
    ensures Expand(a + b) == Expand(a) + Expand(b)
  {
    if b == [] {
      assert a + b == a;
    } else {
      ExpandConcat(a, b[..|b| - 1]);
      assert (a + b)[..|a + b| - 1] == a + b[..|b| - 1];
    }
  }

  lemma {:induction false} ExpandRuns(xs: seq<int>)
    ensures Expand(RunsOf(xs)) == xs
  {
    if xs != [] {
      var ys, x := xs[..|xs| - 1], xs[|xs| - 1];
      ExpandRuns(ys);
      ExpandAdded(RunsOf(ys), x);
    }
  }

  /** A longer last run, or a new one, adds its value. */
  lemma {:induction false} ExpandAdded(rs: seq<Run>, x: int)
    ensures Expand(AddRun(rs, x)) == Expand(rs) + [x]
  {
    var rs' := AddRun(rs, x);
    if rs != [] && rs[|rs| - 1].value == x {
      var n := rs[|rs| - 1].count;
      assert rs'[..|rs'| - 1] == rs[..|rs| - 1];
      assert Repeat(x, n + 1) == Repeat(x, n) + [x];
    } else {
      assert rs'[..|rs'| - 1] == rs;
      assert Repeat(x, 1) == [x];
    }
  }

  /** Reading items delivers their expansion. */
  lemma {:induction false} AtExpand(rs: seq<Run>, p: nat)
    requires rs != [] && p < |Expand(rs)|
    ensures At(rs, p) == Expand(rs)[p]
    decreases |rs|
  {
    assert rs == [rs[0]] + rs[1..];
    ExpandConcat([rs[0]], rs[1..]);
    assert Expand([rs[0]]) == Repeat(rs[0].value, rs[0].count) by { assert [rs[0]][..0] == []; }
    if |rs| > 1 && p >= rs[0].count {
      AtExpand(rs[1..], p - rs[0].count);
    } else if |rs| == 1 {
      assert Expand(rs[1..]) == [];
    }
  }

  lemma {:induction false} KeptConcat(a: seq<Run>, b: seq<Run>)
    ensures Kept(a + b) == Kept(a) + Kept(b)
  {
    if b == [] {
      assert a + b == a;
    } else {
      KeptConcat(a, b[..|b| - 1]);
      assert (a + b)[..|a + b| - 1] == a + b[..|b| - 1];
    }
  }

  lemma {:induction false} KeptAll(rs: seq<Run>)
    requires forall k :: 0 <= k < |rs| ==> rs[k] != Run(BOGUS, 1)
    ensures Kept(rs) == rs
  {
    if rs != [] {
      KeptAll(rs[..|rs| - 1]);
    }
  }

  // Single entries between different neighbours are runs of length one, and conversely.

  lemma {:induction false} RunsPrefix(xs: seq<int>, n: nat)
    requires 0 < n <= |xs|
    ensures var rs := RunsOf(xs[..n]); rs[..|rs| - 1] <= RunsOf(xs)
    decreases |xs|
  {
    if n == |xs| {
      assert xs[..n] == xs;
    } else {
      var ys := xs[..|xs| - 1];
      RunsPrefix(ys, n);
      RunsLonger(ys, n);
      assert ys[..n] == xs[..n];
      AddRunKeeps(RunsOf(xs[..n]), RunsOf(ys), xs[|xs| - 1]);
    }
  }

  lemma {:induction false} AddRunKeeps(front: seq<Run>, rs: seq<Run>, x: int)
    requires front != [] && front[..|front| - 1] <= rs && |front| <= |rs|
    ensures front[..|front| - 1] <= AddRun(rs, x)
  {}

  lemma {:induction false} RunsLonger(xs: seq<int>, n: nat)
    requires 0 < n <= |xs|
    ensures |RunsOf(xs[..n])| <= |RunsOf(xs)|
    decreases |xs|
  {
    if n == |xs| {
      assert xs[..n] == xs;
    } else {
      RunsLonger(xs[..|xs| - 1], n);
      assert xs[..|xs| - 1][..n] == xs[..n];
    }
  }

  lemma {:induction false} LonelyRun(xs: seq<int>, s: nat) returns (k: nat)
    requires 0 < s < |xs| - 1 && xs[s - 1] != xs[s] && xs[s] != xs[s + 1]
    ensures 0 < k < |RunsOf(xs)| - 1 && RunsOf(xs)[k] == Run(xs[s], 1)
  {
    var a, b, c := xs[..s], xs[..s + 1], xs[..s + 2];
    assert b[..s] == a && c[..s + 1] == b;
    k := |RunsOf(a)|;
    assert RunsOf(b) == RunsOf(a) + [Run(xs[s], 1)];
    assert RunsOf(c) == RunsOf(b) + [Run(xs[s + 1], 1)];
    RunsPrefix(xs, s + 2);
    RunsLonger(xs, s + 2);
    assert RunsOf(c)[..|RunsOf(c)| - 1] == RunsOf(b);
    assert RunsOf(xs)[k] == RunsOf(b)[k];
  }

  /** The entries around run `k`. */
  lemma {:induction false} RunNeighbours(rs: seq<Run>, zs: seq<int>, k: nat)
    requires Proper(rs) && Expand(rs) == zs && 0 < k < |rs| - 1
    ensures var s := |Expand(rs[..k])|;
            && 0 < s && s + rs[k].count < |zs|
            && zs[s] == rs[k].value && zs[s - 1] == rs[k - 1].value && zs[s + rs[k].count] == rs[k + 1].value
  {
    SplitAt(rs, k);
    assert rs[..k][..k - 1] == rs[..k - 1];
    ExpandFirst(rs[k + 1..]);
  }

  lemma {:induction false} SplitAt(rs: seq<Run>, k: nat)
    requires k < |rs|
    ensures Expand(rs) == Expand(rs[..k]) + Repeat(rs[k].value, rs[k].count) + Expand(rs[k + 1..])
  {
    SeqSplit(rs, k);
    ExpandAs(rs, rs[..k], rs[k], rs[k + 1..]);
  }

  lemma {:induction false} SeqSplit<T>(s: seq<T>, k: nat)
    requires k < |s|
    ensures s == (s[..k] + [s[k]]) + s[k + 1..]
  {}

  lemma {:induction false} ExpandAs(rs: seq<Run>, a: seq<Run>, r: Run, c: seq<Run>)
    requires rs == (a + [r]) + c
    ensures Expand(rs) == Expand(a) + Repeat(r.value, r.count) + Expand(c)
  {
    ExpandThree(a, r, c);
  }

  lemma {:induction false} ExpandThree(a: seq<Run>, r: Run, c: seq<Run>)
    ensures Expand((a + [r]) + c) == Expand(a) + Repeat(r.value, r.count) + Expand(c)
  {
    ExpandConcat(a + [r], c);
    ExpandConcat(a, [r]);
    ExpandOne(r);
  }

  lemma {:induction false} ExpandOne(r: Run)
    ensures Expand([r]) == Repeat(r.value, r.count)
  {
    assert [r][..0] == [];
  }

  lemma {:induction false} ExpandFirst(rs: seq<Run>)
    requires rs != [] && rs[0].count > 0
    ensures |Expand(rs)| > 0 && Expand(rs)[0] == rs[0].value
  {
    assert rs == [rs[0]] + rs[1..];
    ExpandConcat([rs[0]], rs[1..]);
    ExpandOne(rs[0]);
  }

  // The two directions.

  ghost predicate ReadsBack(xs: seq<int>) {
    Decodes(Items(xs), xs)
  }

  lemma {:induction false} ConstantRuns(xs: seq<int>, x: int)
    requires xs != [] && forall i :: 0 <= i < |xs| ==> xs[i] == x
    ensures RunsOf(xs) == [Run(x, |xs|)]
  {
    if |xs| > 1 {
      ConstantRuns(xs[..|xs| - 1], x);
    } else {
      assert xs[..0] == [];
    }
  }

  /** With nothing to forget, the items are the runs of the table. */
  lemma {:induction false} SurvivorReadsBack(xs: seq<int>)
    requires Survives(xs)
    ensures ReadsBack(xs)
  {
    var zs := [BOGUS] + xs;
    var rs := RunsOf(zs);
    if forall i :: 0 <= i < |xs| ==> xs[i] == BOGUS {
      ConstantRuns(zs, BOGUS);
      assert rs[..0] == [];
    } else {
      FirstRun(xs);
      RunsProper(zs);
      ExpandRuns(zs);
      forall k | 0 < k < |rs| - 1 ensures rs[k] != Run(BOGUS, 1) {
        RunNeighbours(rs, zs, k);
        NotLonely(xs, zs, |Expand(rs[..k])|, rs[k - 1].value, rs[k + 1].value);
      }
      ItemsAreRuns(rs, xs);
    }
  }

  lemma {:induction false} NotLonely(xs: seq<int>, zs: seq<int>, s: nat, before: int, after: int)
    requires zs == [BOGUS] + xs && xs != [] && xs[0] != BOGUS && forall i :: 0 < i < |xs| - 1 ==> !Alone(xs, i)
    requires 0 < s < |zs| && zs[s - 1] == before
    ensures !(zs[s] == BOGUS && s + 1 < |zs| && zs[s + 1] == after && before != BOGUS && after != BOGUS)
  {
    if 1 < s < |zs| - 1 {
      assert zs[s - 1] == xs[s - 2] && zs[s] == xs[s - 1] && zs[s + 1] == xs[s];
      assert !Alone(xs, s - 1);
    }
  }

  /** A table that does not start with BOGUS leaves the phantom entry alone in its run. */
  lemma {:induction false} FirstRun(xs: seq<int>)
    requires xs != [] && xs[0] != BOGUS
    ensures |RunsOf([BOGUS] + xs)| > 1 && RunsOf([BOGUS] + xs)[0] == Run(BOGUS, 1)
  {
    var zs := [BOGUS] + xs;
    assert zs[..1] == [BOGUS] && zs[..2][..1] == [BOGUS];
    ConstantRuns([BOGUS], BOGUS);
    assert RunsOf(zs[..2]) == [Run(BOGUS, 1)] + [Run(xs[0], 1)];
    RunsPrefix(zs, 2);
    RunsLonger(zs, 2);
    assert RunsOf(zs[..2])[..1] == [Run(BOGUS, 1)];
  }

  lemma {:induction false} ItemsAreRuns(rs: seq<Run>, xs: seq<int>)
    requires |rs| > 1 && rs[0] == Run(BOGUS, 1) && Expand(rs) == [BOGUS] + xs
    requires forall k :: 0 < k < |rs| - 1 ==> rs[k] != Run(BOGUS, 1)
    ensures Decodes(ItemsOf(rs), xs)
  {
    AllButPhantom(rs);
    TailExpands(rs[0], rs[1..], rs, xs);
    forall p | 0 <= p < |xs| ensures xs[p] == At(rs[1..], p) {
      AtExpand(rs[1..], p);
    }
  }

  lemma {:induction false} TailExpands(r: Run, tail: seq<Run>, rs: seq<Run>, xs: seq<int>)
    requires rs == [r] + tail && r.count == 1 && Expand(rs) == [r.value] + xs
    ensures Expand(tail) == xs
  {
    ExpandConcat([r], tail);
    ExpandOne(r);
    assert Repeat(r.value, 1) == [r.value];
    var e := Expand(tail);
    assert [r.value] + e == [r.value] + xs;
    assert ([r.value] + e)[1..] == e && ([r.value] + xs)[1..] == xs;
  }

  lemma {:induction false} AllButPhantom(rs: seq<Run>)
    requires |rs| > 1 && rs[0] == Run(BOGUS, 1)
    requires forall k :: 0 < k < |rs| - 1 ==> rs[k] != Run(BOGUS, 1)
    ensures ItemsOf(rs) == rs[1..]
  {
    var n := |rs| - 1;
    KeptAll(rs[1..n]);
    KeptConcat([rs[0]], rs[1..n]);
    assert [rs[0]] + rs[1..n] == rs[..n];
    KeptOne(rs[0]);
  }

  lemma {:induction false} KeptOne(r: Run)
    ensures Kept([r]) == if r == Run(BOGUS, 1) then [] else [r]
  {
    assert [r][..0] == [];
  }

  /** A table that starts with BOGUS but holds other entries gets one BOGUS too many. */
  lemma {:induction false} LeadingBogusFails(rs: seq<Run>, xs: seq<int>)
    requires Proper(rs) && rs != [] && Expand(rs) == [BOGUS] + xs
    requires xs != [] && xs[0] == BOGUS && !(forall i :: 0 <= i < |xs| ==> xs[i] == BOGUS)
    ensures !Decodes(ItemsOf(rs), xs)
  {
    SplitAt(rs, 0);
    assert Expand(rs)[0] == BOGUS && Expand(rs)[1] == BOGUS;
    assert rs[0].value == BOGUS;
    if |rs| > 1 {
      var n, p := |rs| - 1, rs[0].count;
      ExpandFirst(rs[1..]);
      assert Expand(rs)[p] == rs[1].value;
      assert p >= 2 && xs[p - 1] == rs[1].value;
      KeptConcat([rs[0]], rs[1..n]);
      assert [rs[0]] + rs[1..n] == rs[..n];
      KeptOne(rs[0]);
      assert At(ItemsOf(rs), p - 1) == BOGUS;
    } else {
      OneRun(rs, xs);
    }
  }

  lemma {:induction false} OneRun(rs: seq<Run>, xs: seq<int>)
    requires |rs| == 1 && rs[0].value == BOGUS && Expand(rs) == [BOGUS] + xs
    ensures forall i :: 0 <= i < |xs| ==> xs[i] == BOGUS
  {
    ExpandOne(rs[0]);
    assert rs == [rs[0]];
    forall i | 0 <= i < |xs| ensures xs[i] == BOGUS {
      assert xs[i] == Expand(rs)[i + 1];
    }
  }

  /** A BOGUS between other entries is forgotten, and the next entry takes its place. */
  lemma {:induction false} LonelyBogusFails(rs: seq<Run>, xs: seq<int>, k: nat)
    requires Proper(rs) && Expand(rs) == [BOGUS] + xs
    requires 0 < k < |rs| - 1 && rs[0] == rs[k] == Run(BOGUS, 1)
    ensures !Decodes(ItemsOf(rs), xs)
  {
    if j: nat :| 0 < j < k && rs[j] == Run(BOGUS, 1) {
      LonelyBogusFails(rs, xs, j);
    } else {
      var n := |rs| - 1;
      var front, back := rs[1..k], Kept(rs[k + 1..n]) + [rs[n]];
      var p := |Expand(front)|;
      ItemsSkip(rs, k);
      assert ItemsOf(rs) == front + back;
      LonelyAt(rs, xs, k);
      SkippedFirst(rs, k);
      NextAt(front, back);
    }
  }

  /** Where the lonely entry is. */
  lemma {:induction false} LonelyAt(rs: seq<Run>, xs: seq<int>, k: nat)
    requires Expand(rs) == [BOGUS] + xs && 0 < k < |rs| - 1 && rs[0] == rs[k] == Run(BOGUS, 1)
    ensures var p := |Expand(rs[1..k])|; p < |xs| && xs[p] == BOGUS
  {
    SplitAt(rs, k);
    assert rs[..k] == [rs[0]] + rs[1..k];
    ExpandConcat([rs[0]], rs[1..k]);
    ExpandOne(rs[0]);
    assert xs == Expand(rs)[1..];
  }

  /** What is read there instead. */
  lemma {:induction false} NextAt(front: seq<Run>, back: seq<Run>)
    requires back != [] && back[0].count > 0
    ensures At(front + back, |Expand(front)|) == back[0].value
  {
    ExpandConcat(front, back);
    ExpandFirst(back);
    AtExpand(front + back, |Expand(front)|);
  }

  lemma {:induction false} ItemsSkip(rs: seq<Run>, k: nat)
    requires 0 < k < |rs| - 1 && rs[0] == rs[k] == Run(BOGUS, 1)
    requires forall j :: 0 < j < k ==> rs[j] != Run(BOGUS, 1)
    ensures Kept(rs[..|rs| - 1]) == rs[1..k] + Kept(rs[k + 1..|rs| - 1])
  {
    var n := |rs| - 1;
    var a, b := [rs[0]] + rs[1..k] + [rs[k]], rs[k + 1..n];
    assert rs[..n] == a + b;
    KeptConcat(a, b);
    KeptConcat([rs[0]] + rs[1..k], [rs[k]]);
    KeptConcat([rs[0]], rs[1..k]);
    KeptAll(rs[1..k]);
    KeptOne(rs[0]);
    KeptOne(rs[k]);
  }

  /** The item behind a forgotten run. */
  lemma {:induction false} SkippedFirst(rs: seq<Run>, k: nat)
    requires Proper(rs) && k < |rs| - 1 && rs[k].value == BOGUS
    ensures (Kept(rs[k + 1..|rs| - 1]) + [rs[|rs| - 1]])[0] == rs[k + 1]
  {
    var n := |rs| - 1;
    if k + 1 < n {
      var b := rs[k + 1..n];
      assert b == [b[0]] + b[1..];
      KeptConcat([b[0]], b[1..]);
      KeptOne(b[0]);
    } else {
      assert rs[k + 1..n] == [];
    }
  }

  /** Writing and reading back restores a table exactly when it survives. */
  lemma {:induction false} ReadsBackIff(xs: seq<int>)
    ensures ReadsBack(xs) <==> Survives(xs)
  {
    if Survives(xs) {
      SurvivorReadsBack(xs);
    } else {
      LostTable(xs);
    }
  }

  lemma {:induction false} LostTable(xs: seq<int>)
    requires !Survives(xs)
    ensures !ReadsBack(xs)
  {
    var zs := [BOGUS] + xs;
    RunsProper(zs);
    ExpandRuns(zs);
    if xs[0] == BOGUS {
      LeadingBogusFails(RunsOf(zs), xs);
    } else {
      var i :| 0 < i < |xs| - 1 && Alone(xs, i);
      var k := LonelyRun(zs, i + 1);
      FirstRun(xs);
      LonelyBogusFails(RunsOf(zs), xs, k);
    }
  }

  /** The shortest kind of table that does not come back. */
  lemma {:induction false} LostEntry(x: int, y: int)
    requires x != BOGUS && y != BOGUS
    ensures !ReadsBack([x, BOGUS, y])
  {
    assert Alone([x, BOGUS, y], 1);
    ReadsBackIff([x, BOGUS, y]);
  }

  lemma {:induction false} KeptCounted(rs: seq<Run>)
    requires Counted(rs)
    ensures Counted(Kept(rs))
  {
    if rs != [] {
      KeptCounted(rs[..|rs| - 1]);
    }
  }

  lemma {:induction false} ItemsCounted(xs: seq<int>)
    ensures Counted(Items(xs))
  {
    var rs := RunsOf([BOGUS] + xs);
    RunsProper([BOGUS] + xs);
    KeptCounted(rs[..|rs| - 1]);
  }

  lemma {:induction false} FlattenInjective(a: seq<seq<int>>, b: seq<seq<int>>, ncols: nat)
    requires |a| == |b| && Rectangular(a, ncols) && Rectangular(b, ncols)
    ensures |Flatten(a)| == |Flatten(b)|
    ensures Flatten(a) == Flatten(b) ==> a == b
  {
    if a != [] {
      var n := |a| - 1;
      FlattenInjective(a[..n], b[..n], ncols);
      var fa, fb := Flatten(a[..n]), Flatten(b[..n]);
      if Flatten(a) == Flatten(b) {
        SameParts(fa, a[n], fb, b[n]);
        assert a == a[..n] + [a[n]] && b == b[..n] + [b[n]];
      }
    }
  }

  lemma {:induction false} SameParts(a: seq<int>, x: seq<int>, b: seq<int>, y: seq<int>)
    requires |a| == |b| && a + x == b + y
    ensures a == b && x == y
  {
    assert (a + x)[..|a|] == a && (b + y)[..|b|] == b;
    assert (a + x)[|a|..] == x && (b + y)[|b|..] == y;
  }

  /** Writing a table into the generated source and unpacking it when the scanner starts. */
  method PackAndUnpack(ia: seq<seq<int>>, ncols: nat) returns (res: seq<seq<int>>)
    requires Rectangular(ia, ncols)
    ensures res == ia <==> Survives(Flatten(ia))
  {
    var chunks := EmitTableAsString(ia);
    ghost var xs := Flatten(ia);
    ItemsCounted(xs);
    var size2 := if |ia| > 0 then |ia[0]| else 0;
    res := UnpackFromString(|ia|, size2, Concat(chunks), Items(xs));
    if ia != [] {
      FlattenInjective(res, ia, ncols);
    } else {
      assert res == ia;
    }
    ReadsBackIff(xs);
    if Survives(xs) {
      assert Flatten(res) == xs;
    }
  }

  /** Tables without BOGUS entries survive. */
  lemma {:induction false} NoBogusSurvives(ia: seq<seq<int>>)
    requires forall i, j :: 0 <= i < |ia| && 0 <= j < |ia[i]| ==> ia[i][j] != BOGUS
    ensures Survives(Flatten(ia))
  {
    FlattenEntries(ia);
  }

  lemma {:induction false} FlattenEntries(ia: seq<seq<int>>)
    requires forall i, j :: 0 <= i < |ia| && 0 <= j < |ia[i]| ==> ia[i][j] != BOGUS
    ensures forall k :: 0 <= k < |Flatten(ia)| ==> Flatten(ia)[k] != BOGUS
  {
    if ia != [] {
      FlattenEntries(ia[..|ia| - 1]);
    }
  }
}
