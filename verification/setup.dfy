/** The state `Identification.__init__` sets up (identification.py:26-83):
    the configuration of the regressor loop, the recorded measurements, the
    foreign providers, and the three preallocated stacks. */
module Setup {
  import opened Results
  import opened LinAlg
  import opened Symbolic

  /** Leading measurement records that are skipped (identification.py:31). */
  const StartOffset: nat := 200

  /** The switches of `computeRegressors` (identification.py:86-95). */
  datatype Config = Config(robotranRegressor: bool, iDynSimulate: bool, robotranSimulate: bool) {
    /** Torques are simulated instead of read from the measurements. */
    predicate Simulate() {
      iDynSimulate || robotranSimulate
    }
  }

  /** The switches as the program sets them: symbolic regressor, torques
      simulated by the (not yet written) symbolic inverse dynamics. */
  const Configured: Config := Config(true, false, true)

  /** The arrays of the measurements file, one record (row) per sample. */
  datatype Measurements = Measurements(
    positions: seq<Vector>,
    velocities: seq<Vector>,
    accelerations: seq<Vector>,
    torques: seq<Vector>,
    targetPositions: seq<Vector>,
    targetVelocities: seq<Vector>,
    targetAccelerations: seq<Vector>)

  /** What the model takes from code it does not see.  The buffers the
      foreign routines fill have shapes fixed by the caller, so each routine
      is given by the values it writes:
      - `dof`, `outputs`, `params`: the regressor generator's degrees of
        freedom, outputs and parameters;
      - `numericRegressor`: iDynTree's regressor for (q, dq, ddq, torque),
        with its success flag and the N_OUT x N_PARAMS entries;
      - `symbolicRegressor`: the generated `idinvbar`, the 7 x 48 entries for
        padded (q, dq, ddq);
      - `inverseDynamics`: iDynTree's joint torques for (q, dq, ddq);
      - `basis`: the identifiable-subspace basis B, of whatever shape the
        generator returns;
      - `pinv`: the entries of `np.linalg.pinv` of a matrix;
      - `modelParameters`: the N_PARAMS parameters of the robot model;
      - `parameterDescription`: the generator's text describing them. */
  datatype Externals = Externals(
    dof: nat,
    outputs: nat,
    params: nat,
    numericRegressor: (Vector, Vector, Vector, Vector) -> (bool, (nat, nat) -> real),
    symbolicRegressor: (Vector, Vector, Vector) -> (nat, nat) -> real,
    inverseDynamics: (Vector, Vector, Vector) -> nat -> real,
    basis: Matrix,
    pinv: Matrix -> (nat, nat) -> real,
    modelParameters: nat -> real,
    parameterDescription: string)

  /** The numeric regressor stack, the symbolic regressor stack and the
      torque stack. */
  datatype Stacks = Stacks(regressor: Matrix, regressorSym: Matrix, torques: Vector)

  /** Whatever memory `np.empty` hands out for each stack. */
  datatype Blank = Blank(regressor: (nat, nat) -> real, regressorSym: (nat, nat) -> real, torques: nat -> real)

  /** `num_samples` after the offset is taken off; negative for a short file. */
  function NumSamples(m: Measurements): int {
    |m.positions| - StartOffset
  }

  /** Python's `range(lo, hi)`. */
  function Range(lo: int, hi: int): (r: seq<int>)
    decreases hi - lo
  {
    if hi <= lo then [] else [lo] + Range(lo + 1, hi)
  }

  /** The records the sample loop visits (identification.py:112). */
  function VisitedRows(m: Measurements): seq<int> {
    Range(StartOffset, NumSamples(m) + StartOffset)
  }

  /** How many samples the loop processes. */
  function SampleCount(m: Measurements): nat {
    if |m.positions| <= StartOffset then 0 else |m.positions| - StartOffset
  }

  /** Stacks of room for n samples of `dof` rows each. */
  predicate Shaped(s: Stacks, ext: Externals, n: nat) {
    HasShape(s.regressor, ext.dof * n, ext.params)
    && HasShape(s.regressorSym, ext.dof * n, SymbolicWidth)
    && |s.torques| == ext.dof * n
  }

  /** `np.empty` of the three stacks (identification.py:81-83): numpy refuses
      a negative row count, which `N_DOFS * num_samples` is for a file of
      fewer than 200 records unless there are no degrees of freedom. */
  function Init(m: Measurements, ext: Externals, blank: Blank): (r: Result<Stacks>)
    ensures r.Success? <==> ext.dof == 0 || StartOffset <= |m.positions|
    ensures r.Failure? ==> r.error == NegativeDimension
    ensures r.Success? ==> Shaped(r.value, ext, SampleCount(m))
  {
    var height := ext.dof * NumSamples(m);
    if height < 0 then Failure(NegativeDimension)
    else
      InitHeight(ext.dof, m);
      Success(Stacks(
        Tabulate(height, ext.params, blank.regressor),
        Tabulate(height, SymbolicWidth, blank.regressorSym),
        TabulateVector(height, blank.torques)))
  }

  // ---------------------------------------------------------------------
  // Lemmas

  lemma InitHeight(dof: nat, m: Measurements)
    ensures dof * NumSamples(m) < 0 <==> dof > 0 && |m.positions| < StartOffset
    ensures dof * NumSamples(m) >= 0 ==> dof * NumSamples(m) == dof * SampleCount(m)
  {
    if dof > 0 && NumSamples(m) < 0 {
      assert dof * NumSamples(m) <= NumSamples(m) by {
        assert dof * NumSamples(m) == NumSamples(m) + (dof - 1) * NumSamples(m);
      }
    }
  }

  /** The i-th element of `range(lo, hi)` is lo + i. */
  lemma {:induction false} RangeIndex(lo: int, hi: int)
    ensures |Range(lo, hi)| == if hi <= lo then 0 else hi - lo
    ensures forall i | 0 <= i < |Range(lo, hi)| :: Range(lo, hi)[i] == lo + i
    decreases hi - lo
  {
    if lo < hi {
      RangeIndex(lo + 1, hi);
    }
  }

  /** The loop visits records 200, 201, ..., one per sample and in order,
      and sample k, after `row -= start_offset`, is record k + 200
      (identification.py:30-34, 112, 125). */
  lemma VisitedRowsExact(m: Measurements)
    ensures |VisitedRows(m)| == SampleCount(m)
    ensures forall k | 0 <= k < SampleCount(m) :: VisitedRows(m)[k] == StartOffset + k
    ensures forall k | 0 <= k < SampleCount(m) :: VisitedRows(m)[k] - StartOffset == k
    ensures forall row: int | StartOffset <= row < |m.positions| :: row in VisitedRows(m)
  {
    RangeIndex(StartOffset, NumSamples(m) + StartOffset);
    forall row: int | StartOffset <= row < |m.positions|
      ensures row in VisitedRows(m)
    {
      assert VisitedRows(m)[row - StartOffset] == row;
    }
  }
}
