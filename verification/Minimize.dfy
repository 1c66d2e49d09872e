/** CMinimize.minimize: merging states that behave alike. */
module Minimize {
  import opened Basics
  import opened Nfa
  import opened Dfa

  /** Rows `s` and `t` go to the same groups. */
  ghost predicate Agree(rows: seq<Row>, ncols: nat, ingroup: seq<nat>, s: nat, t: nat)
    requires Table(rows, ncols) && |ingroup| == |rows| && s < |rows| && t < |rows|
  {
    forall c :: 0 <= c < ncols ==> AgreeOn(rows, ncols, ingroup, s, t, c)
  }

  predicate SameGroup(ingroup: seq<nat>, x: int, y: int)
    requires F <= x < |ingroup| && F <= y < |ingroup|
  {
    x == y || (x != F && y != F && ingroup[x] == ingroup[y])
  }

  ghost predicate AgreeOn(rows: seq<Row>, ncols: nat, ingroup: seq<nat>, s: nat, t: nat, c: nat)
    requires Table(rows, ncols) && |ingroup| == |rows| && s < |rows| && t < |rows| && c < ncols
  {
    assert RowOk(rows[s], ncols, |rows|) && RowOk(rows[t], ncols, |rows|);
    SameGroup(ingroup, rows[s].trans[c], rows[t].trans[c])
  }

  /** The groups partition the states, and `ingroup` says which is where. */
  ghost predicate Partition(group: seq<seq<nat>>, ingroup: seq<nat>) {
    && (forall i :: 0 <= i < |group| ==> GroupOk(group, ingroup, i))
    && forall s :: 0 <= s < |ingroup| ==> ingroup[s] < |group| && s in group[ingroup[s]]
  }

  ghost predicate GroupOk(group: seq<seq<nat>>, ingroup: seq<nat>, i: nat)
    requires i < |group|
  {
    && group[i] != [] && Distinct(group[i])
    && forall j :: 0 <= j < |group[i]| ==> group[i][j] < |ingroup| && ingroup[group[i][j]] == i
  }

  ghost predicate Distinct(s: seq<nat>) {
    forall i, j :: 0 <= i < j < |s| ==> s[i] != s[j]
  }

  /** States of one group accept the same rule. */
  ghost predicate SameAccepts(rows: seq<Row>, ingroup: seq<nat>)
    requires |ingroup| == |rows|
  {
    forall s, t :: 0 <= s < |rows| && 0 <= t < |rows| && ingroup[s] == ingroup[t] ==> rows[s].accept == rows[t].accept
  }

  /** The grouping is a bisimulation that respects what states accept. */
  ghost predicate Bisimulation(rows: seq<Row>, ncols: nat, ingroup: seq<nat>)
    requires Table(rows, ncols) && |ingroup| == |rows|
  {
    && SameAccepts(rows, ingroup)
    && forall s, t :: 0 <= s < |rows| && 0 <= t < |rows| && ingroup[s] == ingroup[t] ==>
         Agree(rows, ncols, ingroup, s, t)
  }

  /** Every member of group `i` agrees with its first member. */
  ghost predicate Uniform(rows: seq<Row>, ncols: nat, group: seq<seq<nat>>, ingroup: seq<nat>, i: nat)
    requires Table(rows, ncols) && |ingroup| == |rows| && i < |group| && GroupOk(group, ingroup, i)
  {
    forall j :: 0 <= j < |group[i]| ==> Agree(rows, ncols, ingroup, group[i][0], group[i][j])
  }

  /** There are never more groups than states. */
  lemma {:induction false} FewGroups(group: seq<seq<nat>>, ingroup: seq<nat>)
    requires Partition(group, ingroup)
    ensures |group| <= |ingroup|
  {
    var firsts := seq(|group|, i requires 0 <= i < |group| => if group[i] == [] then 0 else group[i][0]);
    forall i, j | 0 <= i < j < |firsts| ensures firsts[i] != firsts[j] {
      assert GroupOk(group, ingroup, i) && GroupOk(group, ingroup, j);
    }
    forall i | 0 <= i < |firsts| ensures firsts[i] < |ingroup| {
      assert GroupOk(group, ingroup, i);
    }
    Pigeonhole(firsts, |ingroup|);
  }

  lemma {:induction false} Pigeonhole(s: seq<nat>, n: nat)
    requires Distinct(s) && forall i :: 0 <= i < |s| ==> s[i] < n
    ensures |s| <= n
  {
    if s != [] {
      if n - 1 in s {
        var k :| 0 <= k < |s| && s[k] == n - 1;
        RemovedDistinct(s, k);
        RemovedSmaller(s, k, n);
        Pigeonhole(s[..k] + s[k + 1..], n - 1);
      } else {
        assert s[0] < n;
        forall i | 0 <= i < |s| ensures s[i] < n - 1 {
          assert s[i] in s;
        }
        Pigeonhole(s[1..], n - 1);
      }
    }
  }

  /** The search of init_groups for a group that accepts what state `i` accepts. */
  method FindGroup(rows: seq<Row>, group: seq<seq<nat>>, ghost ingroup: seq<nat>, i: nat) returns (j: nat)
    requires i < |rows| && |ingroup| == i && Partition(group, ingroup)
    requires forall s, t :: 0 <= s < i && 0 <= t < i ==> (ingroup[s] == ingroup[t] <==>
               rows[s].accept == rows[t].accept)
    ensures j <= |group|
    ensures forall s :: 0 <= s < i ==> (ingroup[s] == j <==> rows[s].accept == rows[i].accept)
  {
    j := 0;
    while j < |group|
      invariant 0 <= j <= |group|
      invariant forall s :: 0 <= s < i && ingroup[s] < j ==> rows[s].accept != rows[i].accept
    {
      assert GroupOk(group, ingroup, j);
      if rows[group[j][0]].accept == rows[i].accept {
        return;
      }
      j := j + 1;
    }
  }

  /** Appending the new state to group `j`, or as a new last group, keeps a partition. */
  lemma {:induction false} Joined(group: seq<seq<nat>>, ingroup: seq<nat>, j: nat, group': seq<seq<nat>>)
    requires Partition(group, ingroup) && j <= |group|
    requires group' == if j == |group| then group + [[|ingroup|]] else group[j := group[j] + [|ingroup|]]
    ensures Partition(group', ingroup + [j])
  {
    var n := |ingroup|;
    forall i | 0 <= i < |group'| ensures GroupOk(group', ingroup + [j], i) {
      if i < |group| {
        assert GroupOk(group, ingroup, i);
      }
    }
    forall s | 0 <= s <= n ensures s in group'[(ingroup + [j])[s]] {
      if s < n {
        assert s in group[ingroup[s]];
      } else {
        assert group'[j][|group'[j]| - 1] == n;
      }
    }
  }

  /** Moving member `k` of group `i` to the last group, which is new or not. */
  function Moved(group: seq<seq<nat>>, i: nat, k: nat, added: bool): (group': seq<seq<nat>>)
    requires i < |group| && k < |group[i]| && (added ==> i < |group| - 1)
    ensures |group'| == |group| + (if added then 0 else 1)
  {
    var x := group[i][k];
    var rest := group[i := group[i][..k] + group[i][k + 1..]];
    if added then rest[|group| - 1 := group[|group| - 1] + [x]] else rest + [[x]]
  }

  lemma {:induction false} MovedPartition(group: seq<seq<nat>>, ingroup: seq<nat>, i: nat, k: nat, added: bool)
    requires Partition(group, ingroup) && i < |group| && 0 < k < |group[i]| && (added ==> i < |group| - 1)
    ensures group[i][k] < |ingroup|
    ensures Partition(Moved(group, i, k, added), ingroup[group[i][k] := |Moved(group, i, k, added)| - 1])
  {
    assert GroupOk(group, ingroup, i);
    var x := group[i][k];
    var group' := Moved(group, i, k, added);
    var last := |group'| - 1;
    var ingroup' := ingroup[x := last];
    forall m | 0 <= m < |group'| ensures GroupOk(group', ingroup', m) {
      MovedGroup(group, ingroup, i, k, added, m);
    }
    forall s | 0 <= s < |ingroup'| ensures ingroup'[s] < |group'| && s in group'[ingroup'[s]] {
      if s == x {
        assert group'[last][|group'[last]| - 1] == x;
      } else {
        assert s in group[ingroup[s]];
        var j :| 0 <= j < |group[ingroup[s]]| && group[ingroup[s]][j] == s;
        if ingroup[s] == i {
          assert group'[i][if j < k then j else j - 1] == s;
        } else {
          assert group'[ingroup[s]][j] == s;
        }
      }
    }
  }

  lemma {:induction false} MovedGroup(group: seq<seq<nat>>, ingroup: seq<nat>, i: nat, k: nat, added: bool, m: nat)
    requires Partition(group, ingroup) && i < |group| && 0 < k < |group[i]| && (added ==> i < |group| - 1)
    requires m < |Moved(group, i, k, added)| && group[i][k] < |ingroup|
    ensures GroupOk(Moved(group, i, k, added), ingroup[group[i][k] := |Moved(group, i, k, added)| - 1], m)
  {
    assert GroupOk(group, ingroup, i);
    var x := group[i][k];
    var group' := Moved(group, i, k, added);
    var ingroup' := ingroup[x := |group'| - 1];
    if m == i {
      RemovedDistinct(group[i], k);
      forall j | 0 <= j < |group'[i]| ensures group'[i][j] < |ingroup'| && ingroup'[group'[i][j]] == i {
        assert group'[i][j] == group[i][if j < k then j else j + 1];
      }
    } else if m < |group| {
      assert GroupOk(group, ingroup, m);
      if m == |group'| - 1 {
        assert x !in group[m];
      }
    }
  }

  lemma {:induction false} RemovedSmaller(s: seq<nat>, k: nat, n: nat)
    requires Distinct(s) && k < |s| && s[k] == n - 1 && forall i :: 0 <= i < |s| ==> s[i] < n
    ensures var r := s[..k] + s[k + 1..]; forall i :: 0 <= i < |r| ==> r[i] < n - 1
  {
    forall i | 0 <= i < |s| && i != k ensures s[i] < n - 1 {
      assert s[i] != s[k];
    }
  }

  lemma {:induction false} RemovedDistinct(s: seq<nat>, k: nat)
    requires Distinct(s) && k < |s|
    ensures Distinct(s[..k] + s[k + 1..])
  {}

  lemma {:induction false} MovedAccepts(rows: seq<Row>, ingroup: seq<nat>, x: nat, y: nat, last: nat)
    requires |ingroup| == |rows| && SameAccepts(rows, ingroup) && x < |rows| && y < |rows| && ingroup[x] == ingroup[y]
    requires forall s :: 0 <= s < |rows| && ingroup[s] == last ==> rows[s].accept == rows[y].accept
    ensures SameAccepts(rows, ingroup[x := last])
  {}

  // How the groups come about: from the accept classes, by moves with a reason.

  /** One state moves: member `j` of group `i`, to a new group or to the one added just before. */
  datatype Move = Move(i: nat, j: nat, added: bool)

  datatype Grouping = Grouping(group: seq<seq<nat>>, ingroup: seq<nat>)

  /** All groupings of a refinement, and the moves between them. */
  datatype Refinement = Refinement(groupings: seq<Grouping>, moves: seq<Move>)

  /** States are together exactly when they accept the same rule. */
  ghost predicate ByAccept(rows: seq<Row>, ingroup: seq<nat>) {
    && |ingroup| == |rows|
    && forall s, t :: 0 <= s < |rows| && 0 <= t < |rows| ==>
         (ingroup[s] == ingroup[t] <==> rows[s].accept == rows[t].accept)
  }

  /** A state may leave its group only if its row disagrees, under the groups of the moment, with the row
      of the group's first member; it joins a group that exists already only if the state before it left
      the same group. */
  ghost predicate Justified(rows: seq<Row>, ncols: nat, before: Grouping, after: Grouping, m: Move,
                            previous: Option<Move>)
    requires Table(rows, ncols)
  {
    var group, ingroup := before.group, before.ingroup;
    && |ingroup| == |rows| && Partition(group, ingroup)
    && m.i < |group| && 0 < m.j < |group[m.i]| && (m.added ==> m.i < |group| - 1)
    && (m.added ==> previous.Some? && previous.value.i == m.i)
    && group[m.i][0] < |rows| && group[m.i][m.j] < |rows|
    && !Agree(rows, ncols, ingroup, group[m.i][0], group[m.i][m.j])
    && after.group == Moved(group, m.i, m.j, m.added)
    && after.ingroup == ingroup[group[m.i][m.j] := |after.group| - 1]
  }

  ghost predicate JustifiedAt(rows: seq<Row>, ncols: nat, r: Refinement, k: nat)
    requires Table(rows, ncols) && k < |r.moves| && |r.groupings| == |r.moves| + 1
  {
    Justified(rows, ncols, r.groupings[k], r.groupings[k + 1], r.moves[k], if k > 0 then Some(r.moves[k - 1]) else None)
  }

  /** The grouping arises from the accept classes by justified moves. */
  ghost predicate Arises(rows: seq<Row>, ncols: nat, r: Refinement, group: seq<seq<nat>>, ingroup: seq<nat>)
    requires Table(rows, ncols)
  {
    && |r.groupings| == |r.moves| + 1 && ByAccept(rows, r.groupings[0].ingroup)
    && r.groupings[|r.moves|] == Grouping(group, ingroup)
    && forall k :: 0 <= k < |r.moves| ==> JustifiedAt(rows, ncols, r, k)
  }

  /** One more move. */
  lemma {:induction false} ArisesStep(rows: seq<Row>, ncols: nat, r: Refinement, group: seq<seq<nat>>,
                                      ingroup: seq<nat>,
                                      m: Move, after: Grouping, r': Refinement)
    requires Table(rows, ncols) && Arises(rows, ncols, r, group, ingroup)
    requires Justified(rows, ncols, Grouping(group, ingroup), after, m,
                       if r.moves != [] then Some(r.moves[|r.moves| - 1]) else None)
    requires r' == Refinement(r.groupings + [after], r.moves + [m])
    ensures Arises(rows, ncols, r', after.group, after.ingroup)
  {
    forall k | 0 <= k < |r'.moves| ensures JustifiedAt(rows, ncols, r', k) {
      if k < |r.moves| {
        assert JustifiedAt(rows, ncols, r, k);
      }
    }
  }

  /** The accept classes tell no two states of one class apart. */
  ghost predicate AcceptsBisimulate(rows: seq<Row>, ncols: nat)
    requires Table(rows, ncols)
  {
    forall s, t, c :: 0 <= s < |rows| && 0 <= t < |rows| && 0 <= c < ncols && rows[s].accept == rows[t].accept ==>
      SameTarget(rows, ncols, s, t, c)
  }

  ghost predicate SameTarget(rows: seq<Row>, ncols: nat, s: nat, t: nat, c: nat)
    requires Table(rows, ncols) && s < |rows| && t < |rows| && c < ncols
  {
    assert RowOk(rows[s], ncols, |rows|) && RowOk(rows[t], ncols, |rows|);
    var x, y := rows[s].trans[c], rows[t].trans[c];
    x == y || (x != F && y != F && rows[x].accept == rows[y].accept)
  }

  /** If the accept classes are a bisimulation, no state is moved: states are merged exactly when they
      accept the same. */
  lemma {:induction false} NothingMoves(rows: seq<Row>, ncols: nat, r: Refinement, group: seq<seq<nat>>,
                                        ingroup: seq<nat>)
    requires Table(rows, ncols) && Arises(rows, ncols, r, group, ingroup) && AcceptsBisimulate(rows, ncols)
    ensures r.moves == [] && ByAccept(rows, ingroup)
  {
    var g := r.groupings[0];
    if r.moves != [] {
      assert JustifiedAt(rows, ncols, r, 0);
      var m := r.moves[0];
      var s, t := g.group[m.i][0], g.group[m.i][m.j];
      assert GroupOk(g.group, g.ingroup, m.i);
      forall c | 0 <= c < ncols ensures AgreeOn(rows, ncols, g.ingroup, s, t, c) {
        assert SameTarget(rows, ncols, s, t, c);
        assert RowOk(rows[s], ncols, |rows|) && RowOk(rows[t], ncols, |rows|);
      }
    }
  }

  class Minimizer {
    const rows: seq<Row>
    const ncols: nat
    var group: seq<seq<nat>>
    var ingroup: seq<nat>
    /** The refinement so far. */
    ghost var run: Refinement

    /** The groups arise from the accept classes by justified moves. */
    ghost predicate Arisen()
      requires Valid()
      reads this
    {
      Arises(rows, ncols, run, group, ingroup)
    }

    ghost predicate Valid()
      reads this
    {
      && Table(rows, ncols) && |ingroup| == |rows|
      && Partition(group, ingroup) && SameAccepts(rows, ingroup)
    }

    /** init_groups: one group per accepted rule, and one for the states that accept nothing. */
    constructor (rows: seq<Row>, ncols: nat)
      requires Table(rows, ncols)
      ensures Valid() && Arisen() && this.rows == rows && this.ncols == ncols && ByAccept(rows, ingroup)
    {
      this.rows, this.ncols := rows, ncols;
      group, ingroup := [], [];
      new;
      for i := 0 to |rows|
        invariant |ingroup| == i && Partition(group, ingroup)
        invariant forall s, t :: 0 <= s < i && 0 <= t < i ==>
                    (ingroup[s] == ingroup[t] <==> rows[s].accept == rows[t].accept)
      {
        var j := FindGroup(rows, group, ingroup, i);
        ghost var before := group;
        if j == |group| {
          group := group + [[i]];
        } else {
          group := group[j := group[j] + [i]];
        }
        Joined(before, ingroup, j, group);
        ingroup := ingroup + [j];
      }
      run := Refinement([Grouping(group, ingroup)], []);
    }

    /** Do two rows go to different groups on some column? */
    method Differ(s: nat, t: nat) returns (r: bool)
      requires Valid() && s < |rows| && t < |rows|
      ensures r <==> !Agree(rows, ncols, ingroup, s, t)
    {
      assert RowOk(rows[s], ncols, |rows|) && RowOk(rows[t], ncols, |rows|);
      for c := 0 to ncols
        invariant forall d :: 0 <= d < c ==> AgreeOn(rows, ncols, ingroup, s, t, d)
      {
        var gotoFirst, gotoNext := rows[s].trans[c], rows[t].trans[c];
        if gotoFirst != gotoNext && (gotoFirst == F || gotoNext == F || ingroup[gotoNext] != ingroup[gotoFirst]) {
          assert !AgreeOn(rows, ncols, ingroup, s, t, c);
          return true;
        }
      }
      return false;
    }

    /** Moves every member of group `i` that differs from the first to one new group. */
    method Split(i: nat)
      requires Valid() && Arisen() && i < |group|
      modifies this
      ensures Valid() && Arisen() && |old(group)| <= |group| <= |old(group)| + 1
      ensures |group| == |old(group)| ==>
                group == old(group) && ingroup == old(ingroup) && Uniform(rows, ncols, group, ingroup, i)
    {
      assert GroupOk(group, ingroup, i);
      var added := false;
      var j := 1;
      ghost var first := group[i][0];
      while j < |group[i]|
        invariant Valid() && Arisen() && 1 <= j
        invariant added ==> run.moves != [] && run.moves[|run.moves| - 1].i == i
        invariant i < |old(group)| && |group| == |old(group)| + (if added then 1 else 0)
        invariant GroupOk(group, ingroup, i) && j <= |group[i]| && group[i][0] == first
        invariant !added ==> group == old(group) && ingroup == old(ingroup)
        invariant !added ==> forall m :: 0 <= m < j ==> Agree(rows, ncols, ingroup, first, group[i][m])
        invariant added ==> forall s :: 0 <= s < |rows| && ingroup[s] == |group| - 1 ==>
                    rows[s].accept == rows[first].accept
        decreases |group[i]| - j
      {
        var differs := Differ(group[i][0], group[i][j]);
        if differs {
          MoveOut(i, j, added);
          added := true;
        } else {
          j := j + 1;
        }
      }
    }

    method MoveOut(i: nat, j: nat, added: bool)
      requires Valid() && i < |group| && GroupOk(group, ingroup, i) && 0 < j < |group[i]| && (added ==> i < |group| - 1)
      requires added ==> forall s :: 0 <= s < |rows| && ingroup[s] == |group| - 1 ==>
                 rows[s].accept == rows[group[i][0]].accept
      requires Arisen() && !Agree(rows, ncols, ingroup, group[i][0], group[i][j])
      requires added ==> run.moves != [] && run.moves[|run.moves| - 1].i == i
      modifies this
      ensures Valid() && Arisen() && run.moves == old(run.moves) + [Move(i, j, added)]
      ensures |group| == |old(group)| + (if added then 0 else 1) && i < |group|
      ensures GroupOk(group, ingroup, i) && group[i] == old(group[i][..j] + group[i][j + 1..])
      ensures forall s :: 0 <= s < |rows| && ingroup[s] == |group| - 1 ==>
                rows[s].accept == rows[old(group[i][0])].accept
    {
      var next := group[i][j];
      ghost var before, run0 := Grouping(group, ingroup), run;
      MovedPartition(group, ingroup, i, j, added);
      MovedAccepts(rows, ingroup, next, group[i][0], if added then |group| - 1 else |group|);
      group := group[i := group[i][..j] + group[i][j + 1..]];
      if !added {
        group := group + [[next]];
      } else {
        group := group[|group| - 1 := group[|group| - 1] + [next]];
      }
      ingroup := ingroup[next := |group| - 1];
      run := Refinement(run0.groupings + [Grouping(group, ingroup)], run0.moves + [Move(i, j, added)]);
      ArisesStep(rows, ncols, run0, before.group, before.ingroup, Move(i, j, added), Grouping(group, ingroup), run);
    }

    /** minimize, without the final rewriting: repeat passes until one of them splits nothing. */
    method Refine()
      requires Valid() && Arisen()
      modifies this
      ensures Valid() && Arisen() && Bisimulation(rows, ncols, ingroup)
    {
      var oldCount: int := |group| - 1;
      FewGroups(group, ingroup);
      while oldCount != |group|
        invariant Valid() && Arisen() && oldCount <= |group| <= |rows|
        invariant oldCount == |group| ==> AllUniform(|group|)
        decreases |rows| - oldCount
      {
        oldCount := |group|;
        Pass();
        FewGroups(group, ingroup);
      }
      UniformIsBisimulation(rows, ncols, group, ingroup);
    }

    ghost predicate AllUniform(n: nat)
      requires Valid() && n <= |group|
      reads this
    {
      forall k :: 0 <= k < n ==> Uniform(rows, ncols, group, ingroup, k)
    }

    /** One pass over the groups, the newly added ones included. */
    method Pass()
      requires Valid() && Arisen()
      modifies this
      ensures Valid() && Arisen() && |group| >= |old(group)|
      ensures |group| == |old(group)| ==> AllUniform(|group|)
    {
      var i := 0;
      FewGroups(group, ingroup);
      while i < |group|
        invariant Valid() && Arisen() && 0 <= i <= |group| && |old(group)| <= |group| <= |rows|
        invariant |group| == |old(group)| ==> AllUniform(i)
        decreases |rows| - i
      {
        Split(i);
        FewGroups(group, ingroup);
        i := i + 1;
      }
    }
  }

  lemma {:induction false} UniformIsBisimulation(rows: seq<Row>, ncols: nat, group: seq<seq<nat>>, ingroup: seq<nat>)
    requires Table(rows, ncols) && |ingroup| == |rows| && Partition(group, ingroup) && SameAccepts(rows, ingroup)
    requires forall k :: 0 <= k < |group| ==> Uniform(rows, ncols, group, ingroup, k)
    ensures Bisimulation(rows, ncols, ingroup)
  {
    forall s: nat, t: nat | s < |rows| && t < |rows| && ingroup[s] == ingroup[t]
      ensures Agree(rows, ncols, ingroup, s, t)
    {
      var i := ingroup[s];
      assert GroupOk(group, ingroup, i);
      assert s in group[i] && t in group[i];
      var x := group[i][0];
      assert Uniform(rows, ncols, group, ingroup, i);
      assert Agree(rows, ncols, ingroup, x, s) && Agree(rows, ncols, ingroup, x, t);
      forall c | 0 <= c < ncols ensures AgreeOn(rows, ncols, ingroup, s, t, c) {
        assert AgreeOn(rows, ncols, ingroup, x, s, c) && AgreeOn(rows, ncols, ingroup, x, t, c);
      }
    }
  }

  // fix_dtrans: one row per group.

  function Lift(ingroup: seq<nat>, t: int): int
    requires F <= t < |ingroup|
  {
    if t == F then F else ingroup[t]
  }

  /** Row `i` of the merged table is the first row of group `i` with groups for states. */
  ghost predicate Merged(rows: seq<Row>, ncols: nat, ingroup: seq<nat>, merged: seq<Row>) {
    && Table(rows, ncols) && |ingroup| == |rows|
    && (forall s :: 0 <= s < |rows| ==> ingroup[s] < |merged|)
    && forall i :: 0 <= i < |merged| ==> MergedRow(rows, ncols, ingroup, merged[i], i)
  }

  ghost predicate MergedRow(rows: seq<Row>, ncols: nat, ingroup: seq<nat>, row: Row, i: nat)
    requires Table(rows, ncols) && |ingroup| == |rows|
  {
    exists s :: 0 <= s < |rows| && ingroup[s] == i && LiftedRow(rows, ncols, ingroup, s, row)
  }

  ghost predicate LiftedRow(rows: seq<Row>, ncols: nat, ingroup: seq<nat>, s: nat, row: Row)
    requires Table(rows, ncols) && |ingroup| == |rows| && s < |rows|
  {
    && row.accept == rows[s].accept && row.anchor == rows[s].anchor && |row.trans| == ncols
    && RowOk(rows[s], ncols, |rows|)
    && forall c :: 0 <= c < ncols ==> row.trans[c] == Lift(ingroup, rows[s].trans[c])
  }

  method LiftRow(rows: seq<Row>, ncols: nat, ingroup: seq<nat>, s: nat) returns (row: Row)
    requires Table(rows, ncols) && |ingroup| == |rows| && s < |rows|
    ensures LiftedRow(rows, ncols, ingroup, s, row)
  {
    assert RowOk(rows[s], ncols, |rows|);
    row := rows[s];
    for c := 0 to ncols
      invariant row == rows[s].(trans := row.trans) && |row.trans| == ncols
      invariant forall d :: 0 <= d < c ==> row.trans[d] == Lift(ingroup, rows[s].trans[d])
      invariant forall d :: c <= d < ncols ==> row.trans[d] == rows[s].trans[d]
    {
      if row.trans[c] != F {
        row := row.(trans := row.trans[c := ingroup[row.trans[c]]]);
      }
    }
  }

  /** States with equal accepts have equal anchors. */
  ghost predicate AnchorsFollow(rows: seq<Row>) {
    forall s, t :: 0 <= s < |rows| && 0 <= t < |rows| && rows[s].accept == rows[t].accept ==>
        rows[s].anchor == rows[t].anchor
  }

  lemma {:induction false} MergedTable(rows: seq<Row>, ncols: nat, ingroup: seq<nat>, merged: seq<Row>)
    requires Merged(rows, ncols, ingroup, merged)
    ensures Table(merged, ncols)
  {
    forall i | 0 <= i < |merged| ensures RowOk(merged[i], ncols, |merged|) {
      assert MergedRow(rows, ncols, ingroup, merged[i], i);
      var s :| 0 <= s < |rows| && ingroup[s] == i && LiftedRow(rows, ncols, ingroup, s, merged[i]);
      forall c | 0 <= c < ncols ensures F <= merged[i].trans[c] < |merged| {
        assert F <= rows[s].trans[c] < |rows|;
      }
    }
  }

  /** The merged table does what the table did, state by group. */
  lemma {:induction false} MergedWalk(rows: seq<Row>, ncols: nat, ingroup: seq<nat>, merged: seq<Row>, s: nat,
                                      w: seq<nat>)
    requires Merged(rows, ncols, ingroup, merged) && Table(merged, ncols) && Bisimulation(rows, ncols, ingroup)
    requires s < |rows| && Over(w, ncols)
    ensures Walk(merged, ncols, ingroup[s], w) == Lift(ingroup, Walk(rows, ncols, s, w))
    decreases |w|
  {
    if w != [] {
      var v, c := w[..|w| - 1], w[|w| - 1];
      MergedWalk(rows, ncols, ingroup, merged, s, v);
      var t := Walk(rows, ncols, s, v);
      if t != F {
        MergedStep(rows, ncols, ingroup, merged, t, c);
      }
    }
  }

  lemma {:induction false} MergedStep(rows: seq<Row>, ncols: nat, ingroup: seq<nat>, merged: seq<Row>, t: nat, c: nat)
    requires Merged(rows, ncols, ingroup, merged) && Bisimulation(rows, ncols, ingroup)
    requires t < |rows| && c < ncols
    ensures RowOk(rows[t], ncols, |rows|) && ingroup[t] < |merged|
    ensures merged[ingroup[t]].accept == rows[t].accept && |merged[ingroup[t]].trans| == ncols
    ensures merged[ingroup[t]].trans[c] == Lift(ingroup, rows[t].trans[c])
  {
    var i := ingroup[t];
    assert MergedRow(rows, ncols, ingroup, merged[i], i);
    var s :| 0 <= s < |rows| && ingroup[s] == i && LiftedRow(rows, ncols, ingroup, s, merged[i]);
    assert Agree(rows, ncols, ingroup, s, t);
    assert AgreeOn(rows, ncols, ingroup, s, t, c);
  }

  /** Walks from `s` in one table and from `s'` in the other end alike: both in F, or in
      states that accept the same rule with the same anchors. */
  ghost predicate SameOutcome(rows: seq<Row>, s: nat, rows': seq<Row>, s': nat, ncols: nat) {
    && Table(rows, ncols) && Table(rows', ncols) && s < |rows| && s' < |rows'|
    && forall w :: Over(w, ncols) ==> SameEnd(rows, Walk(rows, ncols, s, w), rows', Walk(rows', ncols, s', w))
  }

  ghost predicate SameEnd(rows: seq<Row>, t: int, rows': seq<Row>, t': int)
    requires F <= t < |rows| && F <= t' < |rows'|
  {
    && (t == F <==> t' == F)
    && (t != F ==> rows[t].accept == rows'[t'].accept && rows[t].anchor == rows'[t'].anchor)
  }

  lemma {:induction false} MergedOutcome(rows: seq<Row>, ncols: nat, ingroup: seq<nat>, merged: seq<Row>, s: nat)
    requires Merged(rows, ncols, ingroup, merged) && Bisimulation(rows, ncols, ingroup)
    requires AnchorsFollow(rows) && s < |rows|
    ensures Table(merged, ncols) && SameOutcome(rows, s, merged, ingroup[s], ncols)
  {
    MergedTable(rows, ncols, ingroup, merged);
    forall w | Over(w, ncols)
      ensures SameEnd(rows, Walk(rows, ncols, s, w), merged, Walk(merged, ncols, ingroup[s], w))
    {
      MergedWalk(rows, ncols, ingroup, merged, s, w);
      var t := Walk(rows, ncols, s, w);
      if t != F {
        assert MergedRow(rows, ncols, ingroup, merged[ingroup[t]], ingroup[t]);
      }
    }
  }

  /** minimize: merged rows, and the start states of the lexical states renamed to groups. */
  method MergeStates(rows: seq<Row>, ncols: nat, stateDtrans: seq<nat>)
      returns (merged: seq<Row>, stateDtrans': seq<nat>, ghost groups: Grouping, ghost run: Refinement)
    requires Table(rows, ncols) && AnchorsFollow(rows)
    requires forall i :: 0 <= i < |stateDtrans| ==> stateDtrans[i] < |rows|
    ensures Table(merged, ncols) && |merged| <= |rows| && |stateDtrans'| == |stateDtrans|
    ensures forall i :: 0 <= i < |stateDtrans| ==> SameOutcome(rows, stateDtrans[i], merged, stateDtrans'[i], ncols)
    ensures Merged(rows, ncols, groups.ingroup, merged) && |merged| == |groups.group|
    ensures Bisimulation(rows, ncols, groups.ingroup) && Arises(rows, ncols, run, groups.group, groups.ingroup)
    ensures AcceptsBisimulate(rows, ncols) ==> ByAccept(rows, groups.ingroup)
  {
    var m := new Minimizer(rows, ncols);
    m.Refine();
    var group, ingroup := m.group, m.ingroup;
    groups, run := Grouping(group, ingroup), m.run;
    if AcceptsBisimulate(rows, ncols) {
      NothingMoves(rows, ncols, run, group, ingroup);
    }
    stateDtrans' := [];
    for i := 0 to |stateDtrans|
      invariant |stateDtrans'| == i && forall j :: 0 <= j < i ==> stateDtrans'[j] == ingroup[stateDtrans[j]]
    {
      stateDtrans' := stateDtrans' + [ingroup[stateDtrans[i]]];
    }
    merged := [];
    for i := 0 to |group|
      invariant |merged| == i
      invariant forall j :: 0 <= j < i ==> MergedRow(rows, ncols, ingroup, merged[j], j)
    {
      assert GroupOk(group, ingroup, i);
      var row := LiftRow(rows, ncols, ingroup, group[i][0]);
      merged := merged + [row];
    }
    FewGroups(group, ingroup);
    MergedTable(rows, ncols, ingroup, merged);
    forall s: nat | s < |rows| ensures SameOutcome(rows, s, merged, ingroup[s], ncols) {
      MergedOutcome(rows, ncols, ingroup, merged, s);
    }
  }
}
