/** Vertical stacking of per-sample blocks and its inverse.

    The identification keeps one tall regressor matrix and one long torque
    vector; sample k owns the `size` consecutive entries starting at
    `size * k`.  The same layout serves both (rows of a matrix, entries of a
    vector), so everything here is generic in the element type. */
module Stacking {
  import opened Results
  import opened LinAlg

  /** Every piece has exactly `size` elements. */
  predicate Uniform<T>(xss: seq<seq<T>>, size: nat) {
    forall k | 0 <= k < |xss| :: |xss[k]| == size
  }

  /** Position of entry j of piece k in the stack (`start + j` with
      `start = N_DOFS * row` at identification.py:146). */
  function Slot(size: nat, k: nat, j: nat): nat {
    size * k + j
  }

  /** Vertical concatenation, pieces in order (numpy's vstack / concatenate). */
  function Concat<T>(xss: seq<seq<T>>): seq<T>
  {
    if |xss| == 0 then [] else Concat(xss[..|xss| - 1]) + xss[|xss| - 1]
  }

  /** The inverse split into `count` pieces of `size` elements each. */
  function Chunks<T>(flat: seq<T>, size: nat, count: nat): (r: seq<seq<T>>)
    requires |flat| == size * count
    ensures |r| == count && Uniform(r, size)
  {
    if count == 0 then []
    else
      MulSucc(size, count - 1);
      [flat[..size]] + Chunks(flat[size..], size, count - 1)
  }

  /** The loop at identification.py:254-260: a ZeroDivisionError when the
      chunk size is zero and there is something to split, an IndexError when
      the length is not a multiple of the chunk size. */
  function Unstack<T>(flat: seq<T>, size: nat): (r: Result<seq<seq<T>>>)
    ensures r.Success? <==> (size == 0 && |flat| == 0) || (size > 0 && |flat| % size == 0)
    ensures r.Success? ==> size * |r.value| == |flat| && Uniform(r.value, size)
    ensures r.Success? ==>
      forall k, j | 0 <= k < |r.value| && 0 <= j < size :: Slot(size, k, j) < |flat|
    ensures r.Success? ==>
      forall k, j | 0 <= k < |r.value| && 0 <= j < size :: r.value[k][j] == flat[Slot(size, k, j)]
  {
    if size == 0 then
      if |flat| == 0 then Success([]) else Failure(ZeroChunk)
    else if |flat| % size != 0 then Failure(ShortVector)
    else
      var count := |flat| / size;
      DivMod(size, |flat|);
      assert |flat| == size * count;
      ChunksIndex(flat, size, count);
      SlotBound(size, count);
      Success(Chunks(flat, size, count))
  }

  /** np.copyto(dst[start:start+|block|], block): the block overwrites that
      slice and nothing else. */
  function PlaceAt<T>(dst: seq<T>, start: nat, block: seq<T>): (r: seq<T>)
    requires start + |block| <= |dst|
    ensures |r| == |dst|
    ensures forall i | 0 <= i < |block| :: r[start + i] == block[i]
    ensures forall i | 0 <= i < |dst| && !(start <= i < start + |block|) :: r[i] == dst[i]
  {
    dst[..start] + block + dst[start + |block|..]
  }

  /** numpy broadcasting of a 2-D source onto an r x c destination: each
      source dimension must equal the destination's or be 1. */
  function BroadcastRows(src: Matrix, r: nat, c: nat, err: Error): (res: Result<Matrix>)
    ensures res.Success? <==> (|src.rows| == r || |src.rows| == 1) && (src.cols == c || src.cols == 1)
    ensures res.Failure? ==> res.error == err
    ensures res.Success? ==> HasShape(res.value, r, c)
    ensures res.Success? ==> forall i, j | 0 <= i < r && 0 <= j < c ::
      res.value.rows[i][j] == src.rows[if |src.rows| == 1 then 0 else i][if src.cols == 1 then 0 else j]
  {
    if (|src.rows| == r || |src.rows| == 1) && (src.cols == c || src.cols == 1) then
      Success(Mat(c, seq(r, i requires 0 <= i < r =>
        seq(c, j requires 0 <= j < c =>
          src.rows[if |src.rows| == 1 then 0 else i][if src.cols == 1 then 0 else j]))))
    else Failure(err)
  }

  /** numpy broadcasting of a 1-D source onto a length-n destination. */
  function BroadcastVector(src: Vector, n: nat, err: Error): (res: Result<Vector>)
    ensures res.Success? <==> |src| == n || |src| == 1
    ensures res.Failure? ==> res.error == err
    ensures res.Success? ==> |res.value| == n
    ensures res.Success? ==> forall i | 0 <= i < n :: res.value[i] == src[if |src| == 1 then 0 else i]
  {
    if |src| == n || |src| == 1 then
      Success(seq(n, i requires 0 <= i < n => src[if |src| == 1 then 0 else i]))
    else Failure(err)
  }

  // ---------------------------------------------------------------------
  // Layout lemmas

  /** A source of exactly the destination's shape is copied unchanged. */
  lemma BroadcastRowsExact(src: Matrix, err: Error)
    ensures BroadcastRows(src, |src.rows|, src.cols, err) == Success(src)
  {
    var res := BroadcastRows(src, |src.rows|, src.cols, err).value;
    forall i | 0 <= i < |src.rows|
      ensures res.rows[i] == src.rows[i]
    {
      assert forall j | 0 <= j < src.cols :: res.rows[i][j] == src.rows[i][j];
    }
    assert res.rows == src.rows;
  }

  lemma BroadcastVectorExact(src: Vector, err: Error)
    ensures BroadcastVector(src, |src|, err) == Success(src)
  {
    var res := BroadcastVector(src, |src|, err).value;
    assert forall i | 0 <= i < |src| :: res[i] == src[i];
    assert res == src;
  }

  /** A broadcast zero vector is a zero vector. */
  lemma BroadcastVectorZero(src: Vector, n: nat, err: Error)
    requires IsZero(src) && BroadcastVector(src, n, err).Success?
    ensures IsZero(BroadcastVector(src, n, err).value)
  {
  }

  /** Piece k of a split holds the entries Slot(size, k, 0..size-1). */
  lemma {:induction false} ChunksIndex<T>(flat: seq<T>, size: nat, count: nat)
    requires |flat| == size * count
    ensures forall k, j | 0 <= k < count && 0 <= j < size :: Slot(size, k, j) < |flat|
    ensures forall k, j | 0 <= k < count && 0 <= j < size ::
      Chunks(flat, size, count)[k][j] == flat[Slot(size, k, j)]
  {
    SlotBound(size, count);
    if count > 0 {
      MulSucc(size, count - 1);
      var rest := flat[size..];
      var c := Chunks(flat, size, count);
      assert c == [flat[..size]] + Chunks(rest, size, count - 1);
      ChunksIndex(rest, size, count - 1);
      forall k, j | 0 <= k < count && 0 <= j < size
        ensures c[k][j] == flat[Slot(size, k, j)]
      {
        if k > 0 {
          MulSucc(size, k - 1);
          assert c[k] == Chunks(rest, size, count - 1)[k - 1];
          assert Slot(size, k, j) == size + Slot(size, k - 1, j);
        }
      }
    }
  }

  lemma {:induction false} ConcatAppend<T>(xss: seq<seq<T>>, xs: seq<T>)
    ensures Concat(xss + [xs]) == Concat(xss) + xs
  {
    assert (xss + [xs])[..|xss|] == xss;
  }

  /** Sample k's piece occupies entries size*k .. size*k+size-1 of the stack. */
  lemma {:induction false} ConcatIndex<T>(xss: seq<seq<T>>, size: nat)
    requires Uniform(xss, size)
    ensures |Concat(xss)| == size * |xss|
    ensures forall k, j | 0 <= k < |xss| && 0 <= j < size :: Concat(xss)[Slot(size, k, j)] == xss[k][j]
    decreases |xss|
  {
    if |xss| > 0 {
      var n := |xss| - 1;
      var front := xss[..n];
      ConcatIndex(front, size);
      MulSucc(size, n);
      forall k, j | 0 <= k < |xss| && 0 <= j < size
        ensures Concat(xss)[Slot(size, k, j)] == xss[k][j]
      {
        if k < n {
          MulStrictMono(size, k, n);
          assert Slot(size, k, j) < size * n;
        }
      }
    }
  }

  /** The blocks of distinct samples are disjoint and together cover all
      size*n positions exactly once: position i belongs to sample i / size
      at offset i % size, and to no other (sample, offset) pair. */
  lemma BlocksPartition(size: nat, n: nat)
    requires size > 0
    ensures forall i | 0 <= i < size * n ::
      i / size < n && i % size < size && Slot(size, i / size, i % size) == i
    ensures forall k1: nat, j1: nat, k2: nat, j2: nat |
      j1 < size && j2 < size && Slot(size, k1, j1) == Slot(size, k2, j2) ::
      k1 == k2 && j1 == j2
  {
    forall i | 0 <= i < size * n
      ensures i / size < n && i % size < size && Slot(size, i / size, i % size) == i
    {
      if i / size > n {
        MulStrictMono(size, n, i / size);
      }
    }
    forall k1: nat, j1: nat, k2: nat, j2: nat |
      j1 < size && j2 < size && Slot(size, k1, j1) == Slot(size, k2, j2)
      ensures k1 == k2 && j1 == j2
    {
      UniqueSplit(size, k1, j1, k2, j2);
    }
  }

  /** Splitting a stack built from equal pieces gives the pieces back. */
  lemma UnstackConcat<T>(xss: seq<seq<T>>, size: nat)
    requires size > 0 && Uniform(xss, size)
    ensures Unstack(Concat(xss), size) == Success(xss)
  {
    var n := |xss|;
    var flat := Concat(xss);
    ConcatIndex(xss, size);
    ModMultiple(size, n);
    assert |flat| % size == 0;
    var r := Unstack(flat, size).value;
    MulCancel(size, |r|, n);
    SameEntries(r, xss, flat, size);
  }

  lemma SameEntries<T>(r: seq<seq<T>>, xss: seq<seq<T>>, flat: seq<T>, size: nat)
    requires |r| == |xss| && Uniform(r, size) && Uniform(xss, size)
    requires forall k, j | 0 <= k < |r| && 0 <= j < size :: Slot(size, k, j) < |flat|
    requires forall k, j | 0 <= k < |r| && 0 <= j < size :: r[k][j] == flat[Slot(size, k, j)]
    requires forall k, j | 0 <= k < |xss| && 0 <= j < size :: Slot(size, k, j) < |flat|
    requires forall k, j | 0 <= k < |xss| && 0 <= j < size :: flat[Slot(size, k, j)] == xss[k][j]
    ensures r == xss
  {
    forall k | 0 <= k < |r|
      ensures r[k] == xss[k]
    {
      forall j | 0 <= j < size
        ensures r[k][j] == xss[k][j]
      {
        assert r[k][j] == flat[Slot(size, k, j)];
      }
    }
  }

  /** Restacking the pieces of a split reproduces the flat sequence. */
  lemma ConcatUnstack<T>(flat: seq<T>, size: nat)
    requires Unstack(flat, size).Success?
    ensures Concat(Unstack(flat, size).value) == flat
  {
    var r := Unstack(flat, size).value;
    if size > 0 {
      ConcatIndex(r, size);
      BlocksPartition(size, |r|);
      forall i | 0 <= i < |flat|
        ensures Concat(r)[i] == flat[i]
      {
        assert Concat(r)[Slot(size, i / size, i % size)] == r[i / size][i % size];
      }
    } else {
      assert r == [];
    }
  }

  // ---------------------------------------------------------------------
  // Arithmetic helpers (kept linear for the solver)

  lemma MulSucc(size: nat, k: nat)
    ensures size * (k + 1) == size * k + size
  {
  }

  lemma MulStrictMono(size: nat, k: nat, n: nat)
    requires k < n
    ensures size * k + size <= size * n
    decreases n - k
  {
    MulSucc(size, k);
    if k + 1 < n {
      MulStrictMono(size, k + 1, n);
    }
  }

  lemma SlotBound(size: nat, count: nat)
    ensures forall k, j | 0 <= k < count && 0 <= j < size :: Slot(size, k, j) < size * count
  {
    forall k, j | 0 <= k < count && 0 <= j < size
      ensures Slot(size, k, j) < size * count
    {
      MulStrictMono(size, k, count);
    }
  }

  lemma UniqueSplit(size: nat, k1: nat, j1: nat, k2: nat, j2: nat)
    requires j1 < size && j2 < size && size * k1 + j1 == size * k2 + j2
    ensures k1 == k2 && j1 == j2
  {
    if k1 < k2 {
      MulStrictMono(size, k1, k2);
    } else if k2 < k1 {
      MulStrictMono(size, k2, k1);
    }
  }

  lemma ModMultiple(size: nat, n: nat)
    requires size > 0
    ensures (size * n) % size == 0
  {
    var i := size * n;
    UniqueSplit(size, n, 0, i / size, i % size);
  }

  lemma DivMod(size: nat, i: nat)
    requires size > 0
    ensures Slot(size, i / size, i % size) == i && i % size < size
  {
  }

  lemma MulCancel(size: nat, a: nat, b: nat)
    requires size > 0 && size * a == size * b
    ensures a == b
  {
    UniqueSplit(size, a, 0, b, 0);
  }
}
