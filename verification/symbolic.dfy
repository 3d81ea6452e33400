/** Adapting the generated symbolic regressor to the identified chain
    (identification.py:148-155).

    The generated code was produced for a chain with one leading and two
    trailing joints more than the identified arm, so every state vector is
    padded with zeros before the call, and it returns a 7 x 48 block from which
    the columns 1, 4 and 6 are removed. */
module Symbolic {
  import opened LinAlg

  /** Shape of the block the generated code fills (`np.empty((7,48))`). */
  const GeneratedRows: nat := 7
  const GeneratedCols: nat := 48

  /** Columns removed by `np.delete(YSym, (6,4,1), 1)`. */
  const PrunedColumns: set<nat> := {1, 4, 6}

  /** Width of the symbolic regressor stack (`regressor_stack_sym`). */
  const SymbolicWidth: nat := 45

  /** Column t of the pruned block comes from this column of the generated
      block: unchanged before the first removed index, then shifted right by
      one, two or three past each removed index. */
  function KeptColumn(t: nat): nat {
    if t == 0 then 0 else if t < 3 then t + 1 else if t == 3 then 5 else t + 3
  }

  type GeneratedBlock = m: Matrix | HasShape(m, GeneratedRows, GeneratedCols)
    witness Mat(48, seq(7, i => seq(48, j => 0.0)))

  /** `np.concatenate([[0], v, [0,0]])`. */
  function Pad(v: Vector): (p: Vector)
    ensures |p| == |v| + 3
    ensures p[0] == 0.0 && p[|v| + 1] == 0.0 && p[|v| + 2] == 0.0
    ensures forall i | 0 <= i < |v| :: p[i + 1] == v[i]
  {
    [0.0] + v + [0.0, 0.0]
  }

  /** The joints of the identified chain inside a padded vector. */
  function Unpad(p: Vector): (v: Vector)
    requires |p| >= 3
    ensures |v| == |p| - 3
  {
    p[1..|p| - 2]
  }

  /** Indices i..n-1 that are not dropped, in increasing order. */
  function KeptFrom(n: nat, drop: set<nat>, i: nat): (ks: seq<nat>)
    requires i <= n
    ensures forall t | 0 <= t < |ks| :: i <= ks[t] < n
    decreases n - i
  {
    if i == n then []
    else if i in drop then KeptFrom(n, drop, i + 1)
    else [i] + KeptFrom(n, drop, i + 1)
  }

  /** The row with the entries at the dropped indices removed, scanning left
      to right as np.delete does. */
  function DeleteFrom(row: Vector, drop: set<nat>, i: nat): Vector
    requires i <= |row|
    decreases |row| - i
  {
    if i == |row| then []
    else if i in drop then DeleteFrom(row, drop, i + 1)
    else [row[i]] + DeleteFrom(row, drop, i + 1)
  }

  /** `np.delete(m, drop, 1)`: every row loses the dropped columns. */
  function DeleteColumns(m: Matrix, drop: set<nat>): (d: Matrix)
    ensures |d.rows| == |m.rows| && d.cols == |KeptFrom(m.cols, drop, 0)|
    ensures forall r, t | 0 <= r < |m.rows| && 0 <= t < d.cols ::
      d.rows[r][t] == m.rows[r][KeptFrom(m.cols, drop, 0)[t]]
  {
    var ks := KeptFrom(m.cols, drop, 0);
    forall r | 0 <= r < |m.rows| {
      DeleteFromPicksKept(m.rows[r], drop, 0);
    }
    Mat(|ks|, seq(|m.rows|, r requires 0 <= r < |m.rows| => DeleteFrom(m.rows[r], drop, 0)))
  }

  /** The pruned symbolic block (identification.py:154). */
  function Prune(y: GeneratedBlock): (p: Matrix)
    ensures HasShape(p, GeneratedRows, SymbolicWidth)
    ensures forall r, t | 0 <= r < GeneratedRows && 0 <= t < SymbolicWidth ::
      p.rows[r][t] == y.rows[r][KeptColumn(t)]
  {
    PruneKeepsColumns(y);
    DeleteColumns(y, PrunedColumns)
  }

  // ---------------------------------------------------------------------
  // Lemmas

  /** Padding then unpadding gives the state vector back. */
  lemma PadRoundTrip(v: Vector)
    ensures Unpad(Pad(v)) == v
  {
  }

  /** Removing the padding of a vector that has zeros in the padded places,
      then padding again, gives it back. */
  lemma UnpadRoundTrip(p: Vector)
    requires |p| >= 3 && p[0] == 0.0 && p[|p| - 2] == 0.0 && p[|p| - 1] == 0.0
    ensures Pad(Unpad(p)) == p
  {
  }

  /** The scan of np.delete keeps exactly the entries at the kept indices. */
  lemma {:induction false} DeleteFromPicksKept(row: Vector, drop: set<nat>, i: nat)
    requires i <= |row|
    ensures |DeleteFrom(row, drop, i)| == |KeptFrom(|row|, drop, i)|
    ensures forall t | 0 <= t < |KeptFrom(|row|, drop, i)| ::
      DeleteFrom(row, drop, i)[t] == row[KeptFrom(|row|, drop, i)[t]]
    decreases |row| - i
  {
    if i < |row| {
      DeleteFromPicksKept(row, drop, i + 1);
    }
  }

  /** The kept indices are exactly the undropped ones, in increasing order. */
  lemma {:induction false} KeptFromSpec(n: nat, drop: set<nat>, i: nat)
    requires i <= n
    ensures forall t | 0 <= t < |KeptFrom(n, drop, i)| :: KeptFrom(n, drop, i)[t] !in drop
    ensures forall t, u | 0 <= t < u < |KeptFrom(n, drop, i)| ::
      KeptFrom(n, drop, i)[t] < KeptFrom(n, drop, i)[u]
    ensures forall c: nat | i <= c < n && c !in drop :: c in KeptFrom(n, drop, i)
    decreases n - i
  {
    if i < n {
      KeptFromSpec(n, drop, i + 1);
    }
  }

  lemma PruneKeepsColumns(y: GeneratedBlock)
    ensures HasShape(DeleteColumns(y, PrunedColumns), GeneratedRows, SymbolicWidth)
    ensures forall r, t | 0 <= r < GeneratedRows && 0 <= t < SymbolicWidth ::
      DeleteColumns(y, PrunedColumns).rows[r][t] == y.rows[r][KeptColumn(t)]
  {
    PrunedKept(y.cols, PrunedColumns);
    var d := DeleteColumns(y, PrunedColumns);
    var ks := KeptFrom(y.cols, PrunedColumns, 0);
    assert ks == seq(SymbolicWidth, t requires 0 <= t => KeptColumn(t));
    forall r, t | 0 <= r < GeneratedRows && 0 <= t < SymbolicWidth
      ensures d.rows[r][t] == y.rows[r][KeptColumn(t)]
    {
      assert d.rows[r][t] == y.rows[r][ks[t]];
    }
  }

  /** Past the last dropped index nothing is removed. */
  lemma {:induction false} KeptTail(n: nat, drop: set<nat>, i: nat)
    requires i <= n
    requires forall c: nat | i <= c < n :: c !in drop
    ensures KeptFrom(n, drop, i) == seq(n - i, t => i + t)
    decreases n - i
  {
    if i < n {
      KeptTail(n, drop, i + 1);
      assert seq(n - i, t => i + t) == [i] + seq(n - (i + 1), t => i + 1 + t);
    }
  }

  /** The kept columns of the generated block: 0, 2, 3, 5, 7, 8, ..., 47. */
  lemma PrunedKept(n: nat, d: set<nat>)
    requires n == GeneratedCols && d == PrunedColumns
    ensures KeptFrom(n, d, 0) == seq(SymbolicWidth, t requires 0 <= t => KeptColumn(t))
  {
    KeptTail(n, d, 7);
    var tail := KeptFrom(n, d, 7);
    assert 6 in d && 4 in d && 1 in d && 5 !in d && 3 !in d && 2 !in d && 0 !in d;
    var k5 := KeptFrom(n, d, 5);
    var k3 := KeptFrom(n, d, 3);
    var k2 := KeptFrom(n, d, 2);
    var k0 := KeptFrom(n, d, 0);
    assert k5 == [5] + tail;
    assert k3 == [3] + k5;
    assert k2 == [2] + k3;
    assert k0 == [0] + k2;
    assert k0 == [0, 2, 3, 5] + tail;
    KeptColumnList(tail);
  }

  lemma KeptColumnList(tail: seq<nat>)
    requires |tail| == 41 && forall i | 0 <= i < 41 :: tail[i] == 7 + i
    ensures [0, 2, 3, 5] + tail == seq(SymbolicWidth, t requires 0 <= t => KeptColumn(t))
  {
    var ks := [0, 2, 3, 5] + tail;
    var want := seq(SymbolicWidth, t requires 0 <= t => KeptColumn(t));
    forall t | 0 <= t < SymbolicWidth
      ensures ks[t] == want[t]
    {
      assert want[t] == KeptColumn(t);
      if t >= 4 {
        assert ks[t] == tail[t - 4];
      }
    }
    assert ks == want;
  }

  /** The 45 kept columns are the generated columns other than 1, 4 and 6,
      each exactly once, in their generated order. */
  lemma KeptColumnsExact()
    ensures forall t | 0 <= t < SymbolicWidth ::
      KeptColumn(t) < GeneratedCols && KeptColumn(t) !in PrunedColumns
    ensures forall t, u | 0 <= t < u < SymbolicWidth :: KeptColumn(t) < KeptColumn(u)
    ensures forall c: nat | c < GeneratedCols && c !in PrunedColumns ::
      exists t | 0 <= t < SymbolicWidth :: KeptColumn(t) == c
  {
    forall c: nat | c < GeneratedCols && c !in PrunedColumns
      ensures exists t | 0 <= t < SymbolicWidth :: KeptColumn(t) == c
    {
      var t := if c == 0 then 0 else if c <= 3 then c - 1 else if c == 5 then 3 else c - 3;
      assert KeptColumn(t) == c;
    }
  }
}
