/** CMinimize.reduce: equal columns and equal rows of the table are stored once. */
module Compress {
  import opened Basics
  import opened Nfa
  import opened Dfa

  // The search for representatives, the same for columns and for rows.

  /** After `|leaders|` rounds: what equals a leader is mapped to the leader's number,
      nothing else is mapped, and leaders are the first of their kind. */
  ghost predicate Mapped<T>(keys: seq<T>, m: seq<int>, leaders: seq<nat>) {
    && |m| == |keys| && Increasing(leaders)
    && (forall k :: 0 <= k < |leaders| ==> k <= leaders[k] < |keys|)
    && (forall i :: 0 <= i < |keys| ==> -1 <= m[i] < |leaders|)
    && (forall i :: 0 <= i < |keys| && m[i] != -1 ==> leaders[m[i]] <= i && keys[leaders[m[i]]] == keys[i])
    && Complete(keys, m, leaders)
    && (forall i :: 0 <= i < |keys| && leaders != [] && i <= leaders[|leaders| - 1] ==> m[i] != -1)
  }

  /** Whatever equals a leader has the leader's number. */
  ghost predicate Complete<T>(keys: seq<T>, m: seq<int>, leaders: seq<nat>)
    requires |m| == |keys| && forall k :: 0 <= k < |leaders| ==> leaders[k] < |keys|
  {
    forall k :: 0 <= k < |leaders| ==> Gathers(keys, m, leaders[k], k)
  }

  ghost predicate Gathers<T>(keys: seq<T>, m: seq<int>, leader: nat, k: int)
    requires |m| == |keys| && leader < |keys|
  {
    forall i :: 0 <= i < |keys| && keys[leader] == keys[i] ==> m[i] == k
  }

  ghost predicate Total(m: seq<int>) {
    forall i :: 0 <= i < |m| ==> m[i] != -1
  }

  /** The loops that fill m_col_map and m_row_map. */
  method Classify<T(==)>(keys: seq<T>) returns (m: seq<int>, leaders: seq<nat>)
    ensures Mapped(keys, m, leaders) && Total(m)
    ensures forall i, j :: 0 <= i < |keys| && 0 <= j < |keys| ==> (m[i] == m[j] <==> keys[i] == keys[j])
  {
    m := seq(|keys|, _ => -1);
    leaders := [];
    var i := FirstUnmapped(keys, m, leaders);
    while i < |keys|
      invariant Mapped(keys, m, leaders) && |leaders| <= i <= |keys|
      invariant (forall p :: 0 <= p < i ==> m[p] != -1) && (i < |keys| ==> m[i] == -1)
      decreases |keys| - |leaders|
    {
      m, leaders := Lead(keys, m, leaders, i);
      MappedLeaders(keys, m, leaders);
      i := FirstUnmapped(keys, m, leaders);
    }
    MapSeparates(keys, m, leaders);
  }

  /** The search for the next representative starts at the number it would get. */
  method FirstUnmapped<T>(ghost keys: seq<T>, m: seq<int>, leaders: seq<nat>) returns (i: nat)
    requires Mapped(keys, m, leaders) && |leaders| <= |m|
    ensures |leaders| <= i <= |m|
    ensures (forall p :: 0 <= p < i ==> m[p] != -1) && (i < |m| ==> m[i] == -1)
  {
    i := |leaders|;
    assert leaders != [] ==> leaders[|leaders| - 1] >= |leaders| - 1;
    while i < |m| && m[i] != -1
      invariant |leaders| <= i <= |m|
      invariant forall p :: 0 <= p < i ==> m[p] != -1
    {
      i := i + 1;
    }
  }

  lemma {:induction false} MapSeparates<T>(keys: seq<T>, m: seq<int>, leaders: seq<nat>)
    requires Mapped(keys, m, leaders) && Total(m)
    ensures forall i, j :: 0 <= i < |keys| && 0 <= j < |keys| ==> (m[i] == m[j] <==> keys[i] == keys[j])
  {
    forall i, j | 0 <= i < |keys| && 0 <= j < |keys| ensures m[i] == m[j] <==> keys[i] == keys[j] {
      assert Gathers(keys, m, leaders[m[i]], m[i]);
      assert keys[leaders[m[i]]] == keys[i] && keys[leaders[m[j]]] == keys[j];
    }
  }

  /** One round: `i` becomes a leader, and everything equal to it is mapped to it. */
  method Lead<T(==)>(keys: seq<T>, m: seq<int>, leaders: seq<nat>, i: nat) returns (m': seq<int>, leaders': seq<nat>)
    requires Mapped(keys, m, leaders) && |leaders| <= i < |keys| && m[i] == -1
    requires forall p :: 0 <= p < i ==> m[p] != -1
    ensures Mapped(keys, m', leaders') && |leaders'| == |leaders| + 1
  {
    var k := |leaders|;
    m' := m[i := k];
    for j := i + 1 to |keys|
      invariant |m'| == |keys| && m'[i] == k
      invariant forall p :: 0 <= p < i || j <= p < |keys| ==> m'[p] == m[p]
      invariant forall p :: i < p < j ==> m'[p] == if m[p] == -1 && keys[i] == keys[p] then k else m[p]
    {
      if m'[j] == -1 && keys[i] == keys[j] {
        m' := m'[j := k];
      }
    }
    leaders' := leaders + [i];
    LeadDone(keys, m, leaders, i, m');
  }

  lemma {:induction false} LeadDone<T>(keys: seq<T>, m: seq<int>, leaders: seq<nat>, i: nat, m': seq<int>)
    requires Mapped(keys, m, leaders) && |leaders| <= i < |keys| && m[i] == -1
    requires forall p :: 0 <= p < i ==> m[p] != -1
    requires |m'| == |keys| && m'[i] == |leaders|
    requires forall p :: 0 <= p < i ==> m'[p] == m[p]
    requires forall p :: i < p < |keys| ==> m'[p] == if m[p] == -1 && keys[i] == keys[p] then |leaders| else m[p]
    ensures Mapped(keys, m', leaders + [i])
  {
    LeadersBelow(keys, m, leaders, i);
    var leaders' := leaders + [i];
    NextLeader(leaders, i, |keys|);
    forall k | 0 <= k < |leaders'| ensures Gathers(keys, m', leaders'[k], k) {
      LeadGathers(keys, m, leaders, i, m', k);
    }
    assert Complete(keys, m', leaders');
    forall p | 0 <= p < |keys| ensures -1 <= m'[p] < |leaders'|
      ensures m'[p] != -1 ==> leaders'[m'[p]] <= p && keys[leaders'[m'[p]]] == keys[p]
    {
      LeadAt(keys, m, leaders, i, m', p);
    }
  }

  lemma {:induction false} NextLeader(leaders: seq<nat>, i: nat, n: nat)
    requires Increasing(leaders) && |leaders| <= i < n
    requires forall k :: 0 <= k < |leaders| ==> k <= leaders[k] < i
    ensures var leaders' := leaders + [i];
            Increasing(leaders') && forall k :: 0 <= k < |leaders'| ==> k <= leaders'[k] < n
  {}

  lemma {:induction false} LeadAt<T>(keys: seq<T>, m: seq<int>, leaders: seq<nat>, i: nat, m': seq<int>, p: nat)
    requires |m| == |m'| == |keys| && i < |keys| && p < |keys| && -1 <= m[p] < |leaders|
    requires m[p] != -1 ==> leaders[m[p]] <= p && keys[leaders[m[p]]] == keys[p]
    requires m'[p] == m[p] || (m'[p] == |leaders| && i <= p && keys[i] == keys[p])
    ensures var leaders' := leaders + [i];
            -1 <= m'[p] < |leaders'| && (m'[p] != -1 ==> leaders'[m'[p]] <= p && keys[leaders'[m'[p]]] == keys[p])
  {}

  lemma {:induction false} LeadGathers<T>(keys: seq<T>, m: seq<int>, leaders: seq<nat>, i: nat, m': seq<int>, k: nat)
    requires |m| == |m'| == |keys| && i < |keys| && m'[i] == |leaders| && k <= |leaders|
    requires forall p :: 0 <= p < |keys| && m[p] != -1 ==> keys[p] != keys[i] && m'[p] == m[p]
    requires forall p :: 0 <= p < |keys| && m[p] == -1 && keys[p] == keys[i] ==> m'[p] == |leaders|
    requires k < |leaders| ==> leaders[k] < |keys| && Gathers(keys, m, leaders[k], k)
    ensures Gathers(keys, m', (leaders + [i])[k], k)
  {}

  /** The next leader comes after all leaders and equals nothing that is mapped. */
  lemma {:induction false} LeadersBelow<T>(keys: seq<T>, m: seq<int>, leaders: seq<nat>, i: nat)
    requires Mapped(keys, m, leaders) && |leaders| <= i < |keys| && m[i] == -1
    requires forall p :: 0 <= p < i ==> m[p] != -1
    ensures forall k :: 0 <= k < |leaders| ==> leaders[k] < i
    ensures forall p :: 0 <= p < |keys| && m[p] != -1 ==> keys[p] != keys[i]
  {
    forall k | 0 <= k < |leaders| ensures leaders[k] < i {
      assert leaders[k] <= leaders[|leaders| - 1];
    }
    forall p | 0 <= p < |keys| && m[p] != -1 ensures keys[p] != keys[i] {
      assert Gathers(keys, m, leaders[m[p]], m[p]);
    }
  }

  // In-place compaction: each representative moves down to its number.

  /** Representatives below `i` are in place; from `i` on nothing has changed. */
  ghost predicate Compacting<T>(before: seq<T>, now: seq<T>, leaders: seq<nat>, i: nat) {
    && |now| == |before| && |leaders| <= |before|
    && (forall k :: 0 <= k < |leaders| ==> leaders[k] < |before|)
    && (forall k :: 0 <= k < |leaders| && leaders[k] < i ==> now[k] == before[leaders[k]])
    && (forall p :: i <= p < |before| ==> now[p] == before[p])
  }

  lemma {:induction false} CompactStep<T>(before: seq<T>, now: seq<T>, m: seq<int>, leaders: seq<nat>, i: nat)
    requires Compacting(before, now, leaders, i) && i < |before| && Increasing(leaders)
    requires forall k :: 0 <= k < |leaders| ==> k <= leaders[k] < |m| && m[leaders[k]] == k
    requires |m| == |before|
    ensures if i in leaders then 0 <= m[i] <= i && Compacting(before, now[m[i] := now[i]], leaders, i + 1)
            else Compacting(before, now, leaders, i + 1)
  {
    if i in leaders {
      var k :| 0 <= k < |leaders| && leaders[k] == i;
    }
  }

  lemma {:induction false} MappedLeaders<T>(keys: seq<T>, m: seq<int>, leaders: seq<nat>)
    requires Mapped(keys, m, leaders)
    ensures forall k :: 0 <= k < |leaders| ==> k <= leaders[k] < |m| && m[leaders[k]] == k
    ensures |leaders| <= |keys|
  {
    forall k | 0 <= k < |leaders| ensures m[leaders[k]] == k {
      assert Gathers(keys, m, leaders[k], k);
    }
    if leaders != [] {
      assert leaders[|leaders| - 1] >= |leaders| - 1;
    }
  }

  lemma {:induction false} Onto(m: seq<int>, leaders: seq<nat>)
    requires forall k :: 0 <= k < |leaders| ==> leaders[k] < |m| && m[leaders[k]] == k
    ensures forall k :: 0 <= k < |leaders| ==> k in m
  {
    forall k | 0 <= k < |leaders| ensures k in m {
      assert m[leaders[k]] in m;
    }
  }

  /** Column `i` from top to bottom. */
  function Column(t: Matrix, ncols: nat, i: nat): (c: seq<int>)
    requires Rectangular(t, ncols) && i < ncols
    ensures |c| == |t| && forall r :: 0 <= r < |t| ==> c[r] == t[r][i]
  {
    seq(|t|, r requires 0 <= r < |t| => t[r][i])
  }

  function Columns(t: Matrix, ncols: nat): (cs: seq<seq<int>>)
    requires Rectangular(t, ncols)
    ensures |cs| == ncols && forall i :: 0 <= i < ncols ==> cs[i] == Column(t, ncols, i)
  {
    seq(ncols, i requires 0 <= i < ncols => Column(t, ncols, i))
  }

  /** `t` looked up through the maps is `t0`. */
  ghost predicate LooksUp(t0: Matrix, ncols0: nat, t: Matrix, ncols: nat, rowMap: seq<nat>, colMap: seq<nat>) {
    && Rectangular(t0, ncols0) && Rectangular(t, ncols)
    && |rowMap| == |t0| && |colMap| == ncols0
    && (forall r :: 0 <= r < |t0| ==> rowMap[r] < |t|)
    && (forall c :: 0 <= c < ncols0 ==> colMap[c] < ncols)
    && (forall i :: 0 <= i < |t| ==> i in rowMap) && (forall j :: 0 <= j < ncols ==> j in colMap)
    && forall r, c :: 0 <= r < |t0| && 0 <= c < ncols0 ==> t[rowMap[r]][colMap[c]] == t0[r][c]
  }

  /** Rows and columns are shared exactly when they are equal. */
  ghost predicate Smallest(t: Matrix, ncols: nat, rowMap: seq<nat>, colMap: seq<nat>) {
    && Rectangular(t, ncols) && |rowMap| == |t| && |colMap| == ncols
    && (forall i, j :: 0 <= i < |t| && 0 <= j < |t| ==> (rowMap[i] == rowMap[j] <==> t[i] == t[j]))
    && forall i, j :: 0 <= i < ncols && 0 <= j < ncols ==>
         (colMap[i] == colMap[j] <==> Column(t, ncols, i) == Column(t, ncols, j))
  }

  /** Rows that differ still differ when equal columns are shared. */
  lemma {:induction false} SameRows(t0: Matrix, ncols0: nat, t1: Matrix, ncols1: nat, colMap: seq<nat>, i: nat, j: nat)
    requires Rectangular(t0, ncols0) && Rectangular(t1, ncols1) && |t0| == |t1| && |colMap| == ncols0
    requires forall c :: 0 <= c < ncols0 ==> colMap[c] < ncols1
    requires forall k :: 0 <= k < ncols1 ==> k in colMap
    requires forall r, c :: 0 <= r < |t0| && 0 <= c < ncols0 ==> t1[r][colMap[c]] == t0[r][c]
    requires i < |t0| && j < |t0|
    ensures t1[i] == t1[j] <==> t0[i] == t0[j]
  {
    if t0[i] == t0[j] {
      forall k | 0 <= k < ncols1 ensures t1[i][k] == t1[j][k] {
        assert k in colMap;
        var c :| 0 <= c < |colMap| && colMap[c] == k;
        assert t0[i][c] == t0[j][c];
      }
    } else if t1[i] == t1[j] {
      forall c | 0 <= c < ncols0 ensures t0[i][c] == t0[j][c] {
        assert t1[i][colMap[c]] == t1[j][colMap[c]];
      }
    }
  }

  lemma {:induction false} RowsCompacted(t0: Matrix, now: Matrix, m: seq<int>, leaders: seq<nat>)
    requires Mapped(t0, m, leaders) && Total(m) && Compacting(t0, now, leaders, |t0|)
    ensures forall k :: 0 <= k < |leaders| ==> k in m
    ensures forall r :: 0 <= r < |t0| ==> now[m[r]] == t0[r]
    ensures forall k :: 0 <= k < |leaders| ==> now[k] in t0
  {
    MappedLeaders(t0, m, leaders);
    Onto(m, leaders);
    forall r | 0 <= r < |t0| ensures now[m[r]] == t0[r] {
      assert t0[leaders[m[r]]] == t0[r];
    }
  }

  class Reducer {
    var table: Matrix
    var ncols: nat

    constructor (table: Matrix, ncols: nat)
      ensures this.table == table && this.ncols == ncols
    {
      this.table, this.ncols := table, ncols;
    }

    /** col_copy. */
    method CopyColumn(dest: nat, src: nat)
      requires Rectangular(table, ncols) && dest < ncols && src < ncols
      modifies this`table
      ensures |table| == |old(table)|
      ensures forall r :: 0 <= r < |table| ==> table[r] == old(table)[r][dest := old(table)[r][src]]
    {
      for r := 0 to |table|
        invariant |table| == |old(table)|
        invariant forall p :: 0 <= p < r ==> table[p] == old(table)[p][dest := old(table)[p][src]]
        invariant forall p :: r <= p < |table| ==> table[p] == old(table)[p]
      {
        table := table[r := table[r][dest := table[r][src]]];
      }
    }

    /** trunc_col. */
    method TruncateColumns(n: nat)
      requires Rectangular(table, ncols) && n <= ncols
      modifies this
      ensures ncols == n && |table| == |old(table)|
      ensures forall r :: 0 <= r < |table| ==> table[r] == old(table)[r][..n]
    {
      for r := 0 to |table|
        invariant |table| == |old(table)| && ncols == old(ncols)
        invariant forall p :: 0 <= p < r ==> table[p] == old(table)[p][..n]
        invariant forall p :: r <= p < |table| ==> table[p] == old(table)[p]
      {
        table := table[r := table[r][..n]];
      }
      ncols := n;
    }

    /** The column half of reduce. */
    method ReduceColumns() returns (colMap: seq<nat>)
      requires Rectangular(table, ncols)
      modifies this
      ensures Rectangular(table, ncols) && |table| == |old(table)|
      ensures |colMap| == old(ncols) && forall c :: 0 <= c < |colMap| ==> colMap[c] < ncols
      ensures forall j :: 0 <= j < ncols ==> j in colMap
      ensures forall r, c :: 0 <= r < |table| && 0 <= c < |colMap| ==> table[r][colMap[c]] == old(table)[r][c]
      ensures forall i, j :: 0 <= i < |colMap| && 0 <= j < |colMap| ==>
                (colMap[i] == colMap[j] <==> Column(old(table), old(ncols), i) == Column(old(table), old(ncols), j))
    {
      ghost var t0 := table;
      var keys := Columns(table, ncols);
      var m, leaders := Classify(keys);
      MappedLeaders(keys, m, leaders);
      for i := 0 to ncols
        invariant ncols == old(ncols) && |table| == |t0|
        invariant forall r :: 0 <= r < |t0| ==> Compacting(t0[r], table[r], leaders, i)
      {
        ghost var now := table;
        forall r | 0 <= r < |t0| {
          CompactStep(t0[r], now[r], m, leaders, i);
        }
        if i in leaders && m[i] != i {
          CopyColumn(m[i], i);
        }
        assert forall r :: 0 <= r < |t0| ==> now[r][i := now[r][i]] == now[r];
      }
      ghost var full := table;
      TruncateColumns(|leaders|);
      colMap := m;
      Onto(m, leaders);
      forall r, c | 0 <= r < |table| && 0 <= c < |colMap| ensures table[r][colMap[c]] == t0[r][c] {
        assert Compacting(t0[r], full[r], leaders, old(ncols));
        assert keys[leaders[m[c]]] == keys[c];
        assert keys[c][r] == t0[r][c] && keys[leaders[m[c]]][r] == t0[r][leaders[m[c]]];
      }
    }

    /** The row half of reduce. */
    method ReduceRows() returns (rowMap: seq<nat>)
      requires Rectangular(table, ncols)
      modifies this`table
      ensures Rectangular(table, ncols)
      ensures |rowMap| == |old(table)| && forall r :: 0 <= r < |rowMap| ==> rowMap[r] < |table|
      ensures forall i :: 0 <= i < |table| ==> i in rowMap
      ensures forall r :: 0 <= r < |rowMap| ==> table[rowMap[r]] == old(table)[r]
      ensures forall i, j :: 0 <= i < |rowMap| && 0 <= j < |rowMap| ==>
                (rowMap[i] == rowMap[j] <==> old(table)[i] == old(table)[j])
    {
      ghost var t0 := table;
      var m, leaders := Classify(table);
      MappedLeaders(table, m, leaders);
      for i := 0 to |table|
        invariant Compacting(t0, table, leaders, i)
      {
        CompactStep(t0, table, m, leaders, i);
        assert table[i := table[i]] == table;
        if i in leaders && m[i] != i {
          table := table[m[i] := table[i]];
        }
      }
      RowsCompacted(t0, table, m, leaders);
      table := table[..|leaders|];
      rowMap := m;
    }
  }

  /** reduce: the saved accepts and anchors, the small table and its maps. */
  method Reduce(rows: seq<Row>, ncols: nat)
      returns (accepts: seq<Option<nat>>, anchors: seq<Anchor>, table: Matrix, ncols': nat, rowMap: seq<nat>,
          colMap: seq<nat>)
    requires Table(rows, ncols)
    ensures |accepts| == |anchors| == |rows|
    ensures forall s :: 0 <= s < |rows| ==> accepts[s] == rows[s].accept && anchors[s] == rows[s].anchor
    ensures LooksUp(Transitions(rows), ncols, table, ncols', rowMap, colMap)
    ensures Smallest(Transitions(rows), ncols, rowMap, colMap)
  {
    accepts, anchors := [], [];
    for s := 0 to |rows|
      invariant |accepts| == |anchors| == s
      invariant forall t :: 0 <= t < s ==> accepts[t] == rows[t].accept && anchors[t] == rows[t].anchor
    {
      accepts, anchors := accepts + [rows[s].accept], anchors + [rows[s].anchor];
    }
    var t0 := Transitions(rows);
    assert Rectangular(t0, ncols) by {
      assert forall s :: 0 <= s < |rows| ==> RowOk(rows[s], ncols, |rows|);
    }
    var r := new Reducer(t0, ncols);
    colMap := r.ReduceColumns();
    ghost var t1, ncols1 := r.table, r.ncols;
    forall i, j | 0 <= i < |t0| && 0 <= j < |t0| ensures t1[i] == t1[j] <==> t0[i] == t0[j] {
      SameRows(t0, ncols, t1, ncols1, colMap, i, j);
    }
    rowMap := r.ReduceRows();
    table, ncols' := r.table, r.ncols;
  }

  function Transitions(rows: seq<Row>): (t: Matrix)
    ensures |t| == |rows| && forall s :: 0 <= s < |rows| ==> t[s] == rows[s].trans
  {
    seq(|rows|, s requires 0 <= s < |rows| => rows[s].trans)
  }
}
