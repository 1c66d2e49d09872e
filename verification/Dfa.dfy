/** Deterministic transition tables: one row per state, `F` for "no transition". */
module Dfa {
  import opened Basics
  import opened Nfa

  const F: int := -1

  /** Class CDTrans. */
  datatype Row = Row(trans: seq<int>, accept: Option<nat>, anchor: Anchor)

  ghost predicate Table(rows: seq<Row>, ncols: nat) {
    forall s :: 0 <= s < |rows| ==> RowOk(rows[s], ncols, |rows|)
  }

  ghost predicate RowOk(row: Row, ncols: nat, n: nat) {
    |row.trans| == ncols && forall c :: 0 <= c < ncols ==> F <= row.trans[c] < n
  }

  /** The state after reading `w` from `s`. */
  ghost function Walk(rows: seq<Row>, ncols: nat, s: int, w: seq<nat>): (t: int)
    requires Table(rows, ncols) && F <= s < |rows| && Over(w, ncols)
    ensures F <= t < |rows|
  {
    if w == [] then s
    else
      var t := Walk(rows, ncols, s, w[..|w| - 1]);
      if t == F then F
      else
        assert RowOk(rows[t], ncols, |rows|);
        rows[t].trans[w[|w| - 1]]
  }
}
