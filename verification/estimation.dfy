/** `identify` (identification.py:181-271): project the stacked regressor
    onto the identifiable subspace, solve for the base parameters with the
    pseudo-inverse, map them back to standard parameters, and estimate the
    torques again, one vector per sample. */
module Estimation {
  import opened Results
  import opened LinAlg
  import opened Stacking
  import opened Symbolic
  import opened Setup
  import opened Regressors

  datatype Estimate = Estimate(
    xBase: Vector,              // base parameters (xBase or xBaseSym)
    xStd: Vector,               // standard parameters B · xBase
    xStdModel: Vector,          // parameters of the robot model
    tauEst: Vector,             // estimated torque stack
    torquesEst: seq<Vector>,    // the same, one vector per sample
    tauMeasured: seq<Vector>)   // the torques to compare with, one per sample

  /** `np.linalg.pinv(a)`: a matrix of the transposed shape whose entries
      come from the numerical routine. */
  function Pinv(ext: Externals, a: Matrix): (p: Matrix)
    ensures HasShape(p, a.cols, |a.rows|)
  {
    Tabulate(a.cols, |a.rows|, ext.pinv(a))
  }

  /** The regressor the base parameters are solved with: the symbolic stack,
      already in base parameters, or the projection YStd · B. */
  function BaseRegressor(cfg: Config, s: Stacks, yBase: Matrix): Matrix {
    if cfg.robotranRegressor then s.regressorSym else yBase
  }

  /** Python's `xs[n:]`. */
  function Drop<T>(xs: seq<T>, n: nat): (r: seq<T>)
    ensures |r| == if |xs| <= n then 0 else |xs| - n
    ensures forall i | 0 <= i < |r| :: r[i] == xs[n + i]
  {
    if |xs| <= n then [] else xs[n..]
  }

  /** The measured torques as identification.py:262-271 sets them: the
      unstacked torque stack when simulating, otherwise every record of the
      measurements file, the 200 skipped ones included. */
  function TauMeasuredAsWritten(cfg: Config, m: Measurements, ext: Externals, tau: Vector): (r: Result<seq<Vector>>)
    ensures cfg.Simulate() ==>
      (r.Success? <==> (ext.dof == 0 && |tau| == 0) || (ext.dof > 0 && |tau| % ext.dof == 0))
    ensures cfg.Simulate() && r.Success? ==>
      && ext.dof * |r.value| == |tau|
      && forall k, j | 0 <= k < |r.value| && 0 <= j < ext.dof ::
        Slot(ext.dof, k, j) < |tau| && |r.value[k]| == ext.dof && r.value[k][j] == tau[Slot(ext.dof, k, j)]
    ensures !cfg.Simulate() ==>
      && r.Success? && |r.value| == |m.torques|
      && forall row | 0 <= row < |m.torques| :: r.value[row] == m.torques[row]
  {
    if cfg.Simulate() then Unstack(tau, ext.dof) else Success(m.torques)
  }

  /** The measured torques with the skipped records dropped, as the plot's
      time axis `times[start_offset:]` (identification.py:330) expects. */
  function TauMeasured(cfg: Config, m: Measurements, ext: Externals, tau: Vector): (r: Result<seq<Vector>>)
    ensures cfg.Simulate() ==> r == TauMeasuredAsWritten(cfg, m, ext, tau)
    ensures !cfg.Simulate() ==> r.Success? && |r.value| == if |m.torques| <= StartOffset then 0 else |m.torques| - StartOffset
    ensures !cfg.Simulate() ==> forall k | 0 <= k < |r.value| :: r.value[k] == m.torques[StartOffset + k]
  {
    if cfg.Simulate() then Unstack(tau, ext.dof) else Success(Drop(m.torques, StartOffset))
  }

  /** identification.py:181-260, with `measured` as the torques to compare
      with.  An `np.dot` raises unless its operands are aligned (Y · xBase
      always is, xBase having one entry per column of Y); YStd · B is formed
      even when the symbolic regressor is used, from the uninitialised
      numeric stack. */
  function IdentifyWith(cfg: Config, ext: Externals, s: Stacks, measured: Result<seq<Vector>>): (r: Result<Estimate>)
    ensures r.Success? ==> |r.value.xStdModel| == ext.params && |r.value.xStd| == |ext.basis.rows|
    ensures r.Success? ==> ext.dof * |r.value.torquesEst| == |r.value.tauEst|
    ensures r.Success? ==> measured == Success(r.value.tauMeasured)
  {
    var yBase :- Product(s.regressor, ext.basis);
    var y := BaseRegressor(cfg, s, yBase);
    var xBase :- Apply(Pinv(ext, y), s.torques);
    var xStd :- Apply(ext.basis, xBase);
    var xStdModel := TabulateVector(ext.params, ext.modelParameters);
    var tauEst := MatVec(y, xBase);
    var torquesEst :- Unstack(tauEst, ext.dof);
    var tauMeasured :- measured;
    Success(Estimate(xBase, xStd, xStdModel, tauEst, torquesEst, tauMeasured))
  }

  /** `identify` as written (identification.py:181-271): when torques are
      measured, the torques to compare with are every record of the file. */
  function Identify(cfg: Config, m: Measurements, ext: Externals, s: Stacks): (r: Result<Estimate>)
    ensures r.Success? ==> |r.value.xStdModel| == ext.params && |r.value.xStd| == |ext.basis.rows|
    ensures r.Success? ==> ext.dof * |r.value.torquesEst| == |r.value.tauEst|
    ensures r.Success? && !cfg.Simulate() ==> r.value.tauMeasured == m.torques
  {
    IdentifyWith(cfg, ext, s, TauMeasuredAsWritten(cfg, m, ext, s.torques))
  }

  /** `identify` with line 271 corrected: the measured torques without the
      200 skipped records. */
  function IdentifyAligned(cfg: Config, m: Measurements, ext: Externals, s: Stacks): (r: Result<Estimate>)
    ensures r.Success? ==> |r.value.xStdModel| == ext.params && |r.value.xStd| == |ext.basis.rows|
    ensures r.Success? ==> ext.dof * |r.value.torquesEst| == |r.value.tauEst|
  {
    IdentifyWith(cfg, ext, s, TauMeasured(cfg, m, ext, s.torques))
  }

  // ---------------------------------------------------------------------
  // Lemmas

  /** On stacks of the allocated shapes `identify` fails exactly when the
      basis does not have one row per standard parameter, or, with the
      symbolic regressor, one column per symbolic base parameter. */
  lemma IdentifySucceeds(cfg: Config, m: Measurements, ext: Externals, s: Stacks, n: nat)
    requires Shaped(s, ext, n)
    ensures Identify(cfg, m, ext, s).Success? <==>
      ext.params == |ext.basis.rows| && (cfg.robotranRegressor ==> ext.basis.cols == SymbolicWidth)
    ensures Identify(cfg, m, ext, s).Failure? ==> Identify(cfg, m, ext, s).error == ProductShape
  {
    if ext.dof > 0 {
      ModMultiple(ext.dof, n);
    }
  }

  /** What the results are made of: xBase = pinv(Y)·tau, xStd = B·xBase,
      tauEst = Y·xBase for the base regressor Y, and the k-th estimated
      torque is entries `dof*k ..` of tauEst (identification.py:201-260). */
  lemma IdentifyValues(cfg: Config, m: Measurements, ext: Externals, s: Stacks)
    requires Identify(cfg, m, ext, s).Success?
    ensures s.regressor.cols == |ext.basis.rows|
    ensures var e := Identify(cfg, m, ext, s).value;
      var y := BaseRegressor(cfg, s, MatMul(s.regressor, ext.basis));
      y.cols == |e.xBase| && ext.basis.cols == |e.xBase| && |s.torques| == |y.rows|
      && e.xBase == MatVec(Pinv(ext, y), s.torques)
      && e.xStd == MatVec(ext.basis, e.xBase)
      && e.tauEst == MatVec(y, e.xBase)
      && e.xStdModel == TabulateVector(ext.params, ext.modelParameters)
      && Success(e.tauMeasured) == TauMeasuredAsWritten(cfg, m, ext, s.torques)
  {
  }

  /** The corrected identification fails exactly when the one as written
      does, and differs from it only in the measured torques, and not at all
      when torques are simulated. */
  lemma AlignedAgrees(cfg: Config, m: Measurements, ext: Externals, s: Stacks)
    ensures IdentifyAligned(cfg, m, ext, s).Success? <==> Identify(cfg, m, ext, s).Success?
    ensures cfg.Simulate() ==> IdentifyAligned(cfg, m, ext, s) == Identify(cfg, m, ext, s)
    ensures Identify(cfg, m, ext, s).Success? ==>
      IdentifyAligned(cfg, m, ext, s).value
      == Identify(cfg, m, ext, s).value.(tauMeasured := TauMeasured(cfg, m, ext, s.torques).value)
  {
  }

  /** The k-th estimated torque: row `dof*k + j` of the base regressor times
      the base parameters (identification.py:201, 244, 251, 254-260). */
  lemma EstimateRows(cfg: Config, m: Measurements, ext: Externals, s: Stacks)
    requires Identify(cfg, m, ext, s).Success?
    ensures var e := Identify(cfg, m, ext, s).value;
      var y := BaseRegressor(cfg, s, MatMul(s.regressor, ext.basis));
      forall k, j | 0 <= k < |e.torquesEst| && 0 <= j < ext.dof :: Slot(ext.dof, k, j) < |y.rows|
    ensures var e := Identify(cfg, m, ext, s).value;
      var y := BaseRegressor(cfg, s, MatMul(s.regressor, ext.basis));
      forall k, j | 0 <= k < |e.torquesEst| && 0 <= j < ext.dof ::
        e.torquesEst[k][j] == e.tauEst[Slot(ext.dof, k, j)] == Dot(y.rows[Slot(ext.dof, k, j)], e.xBase)
  {
    IdentifyValues(cfg, m, ext, s);
  }

  /** The parameters a sample's block is multiplied with: the base
      parameters for the symbolic block, the standard ones for iDynTree's. */
  function Used(cfg: Config, e: Estimate): Vector {
    if cfg.robotranRegressor then e.xBase else e.xStd
  }

  /** The k-th estimated torque in terms of the filled stack: its rows
      `dof*k ..` times the parameters that block is expressed in.  For
      iDynTree's regressor this is (YStd·B)·xBase == YStd·(B·xBase). */
  lemma EstimateFilledRows(cfg: Config, m: Measurements, ext: Externals, s: Stacks)
    requires Identify(cfg, m, ext, s).Success?
    ensures var e := Identify(cfg, m, ext, s).value;
      forall k, j | 0 <= k < |e.torquesEst| && 0 <= j < ext.dof ::
        Slot(ext.dof, k, j) < |Filled(cfg, s).rows|
        && Filled(cfg, s).cols == |Used(cfg, e)|
    ensures var e := Identify(cfg, m, ext, s).value;
      forall k, j | 0 <= k < |e.torquesEst| && 0 <= j < ext.dof ::
        e.torquesEst[k][j] == Dot(Filled(cfg, s).rows[Slot(ext.dof, k, j)], Used(cfg, e))
  {
    EstimateRows(cfg, m, ext, s);
    TauEstFilled(cfg, m, ext, s);
  }

  /** The estimated torque stack is the filled stack times the parameters
      its blocks are expressed in. */
  lemma TauEstFilled(cfg: Config, m: Measurements, ext: Externals, s: Stacks)
    requires Identify(cfg, m, ext, s).Success?
    ensures var e := Identify(cfg, m, ext, s).value;
      Filled(cfg, s).cols == |Used(cfg, e)| && e.tauEst == MatVec(Filled(cfg, s), Used(cfg, e))
  {
    IdentifyValues(cfg, m, ext, s);
    if !cfg.robotranRegressor {
      MatVecAssoc(s.regressor, ext.basis, Identify(cfg, m, ext, s).value.xBase);
    }
  }

  /** With the torque stack all zeros (the placeholder simulation), the base
      parameters, the standard parameters and every estimated torque are
      zero, whatever the pseudo-inverse returns
      (identification.py:142-144, 219, 225, 244). */
  lemma ZeroTorqueEstimate(cfg: Config, m: Measurements, ext: Externals, s: Stacks)
    requires IsZero(s.torques) && Identify(cfg, m, ext, s).Success?
    ensures var e := Identify(cfg, m, ext, s).value;
      IsZero(e.xBase) && IsZero(e.xStd) && IsZero(e.tauEst)
      && forall k | 0 <= k < |e.torquesEst| :: IsZero(e.torquesEst[k])
  {
    IdentifyValues(cfg, m, ext, s);
    var e := Identify(cfg, m, ext, s).value;
    var y := BaseRegressor(cfg, s, MatMul(s.regressor, ext.basis));
    MatVecZero(Pinv(ext, y), s.torques);
    MatVecZero(ext.basis, e.xBase);
    MatVecZero(y, e.xBase);
    forall k, j | 0 <= k < |e.torquesEst| && 0 <= j < ext.dof
      ensures e.torquesEst[k][j] == 0.0
    {
      assert e.torquesEst[k][j] == e.tauEst[Slot(ext.dof, k, j)];
    }
  }

  /** The program as configured (symbolic regressor, zero placeholder
      torques) identifies all-zero parameters and estimates all-zero
      torques from any measurements file it gets through
      (identification.py:86-95, 142-144, 174, 219, 225, 244, 254-260). */
  lemma ConfiguredIdentifiesZero(m: Measurements, ext: Externals, init: Stacks)
    requires Shaped(init, ext, SampleCount(m)) && Computed(Configured, m, ext, init).Success?
    requires Identify(Configured, m, ext, Computed(Configured, m, ext, init).value).Success?
    ensures var e := Identify(Configured, m, ext, Computed(Configured, m, ext, init).value).value;
      IsZero(e.xBase) && IsZero(e.xStd) && forall k | 0 <= k < |e.torquesEst| :: IsZero(e.torquesEst[k])
  {
    ZeroTorqueStack(Configured, m, ext, init);
    ZeroTorqueEstimate(Configured, m, ext, Computed(Configured, m, ext, init).value);
  }

  /** If the pseudo-inverse is a left inverse of the base regressor and the
      torques are exactly explained by some base parameters, `identify`
      returns those parameters and reproduces the torques. */
  lemma ExactRecovery(cfg: Config, m: Measurements, ext: Externals, s: Stacks, x: Vector)
    requires Identify(cfg, m, ext, s).Success?
    requires var y := BaseRegressor(cfg, s, MatMul(s.regressor, ext.basis));
      y.cols == |x| && MatMul(Pinv(ext, y), y) == Identity(|x|) && s.torques == MatVec(y, x)
    ensures Identify(cfg, m, ext, s).value.xBase == x
    ensures Identify(cfg, m, ext, s).value.tauEst == s.torques
  {
    IdentifyValues(cfg, m, ext, s);
    var y := BaseRegressor(cfg, s, MatMul(s.regressor, ext.basis));
    var p := Pinv(ext, y);
    MatVecAssoc(p, y, x);
    IdentityMatVec(x);
  }

  // ---------------------------------------------------------------------
  // The pipeline: __init__, computeRegressors, identify

  /** Sample k's estimated torque is its own regressor block times the
      identified parameters: the base parameters for the symbolic block, the
      standard parameters B · xBase for iDynTree's block.  No other sample's
      block enters it. */
  lemma SampleEstimate(cfg: Config, m: Measurements, ext: Externals, init: Stacks)
    requires Shaped(init, ext, SampleCount(m)) && Computed(cfg, m, ext, init).Success?
    requires Identify(cfg, m, ext, Computed(cfg, m, ext, init).value).Success?
    requires ext.dof > 0
    ensures var e := Identify(cfg, m, ext, Computed(cfg, m, ext, init).value).value;
      |e.torquesEst| == SampleCount(m)
    ensures var e := Identify(cfg, m, ext, Computed(cfg, m, ext, init).value).value;
      forall k | 0 <= k < SampleCount(m) ::
        SampleAt(cfg, m, ext, k).value.block.cols == |Used(cfg, e)|
    ensures var e := Identify(cfg, m, ext, Computed(cfg, m, ext, init).value).value;
      forall k | 0 <= k < SampleCount(m) ::
        e.torquesEst[k] == MatVec(SampleAt(cfg, m, ext, k).value.block, Used(cfg, e))
  {
    var ss := Collect(cfg, m, ext, SampleCount(m)).value;
    assert Computed(cfg, m, ext, init).value == Stacked(cfg, ext, init, ss);
    StackedEstimate(cfg, m, ext, init, ss);
  }

  /** Sample k's estimated torque from the stacks built from samples `ss`. */
  lemma StackedEstimate(cfg: Config, m: Measurements, ext: Externals, init: Stacks, ss: seq<Sample>)
    requires SamplesShaped(ss, ext.dof, Width(cfg, ext)) && Shaped(init, ext, |ss|)
    requires Identify(cfg, m, ext, Stacked(cfg, ext, init, ss)).Success?
    requires ext.dof > 0
    ensures var e := Identify(cfg, m, ext, Stacked(cfg, ext, init, ss)).value;
      |e.torquesEst| == |ss|
      && (forall k | 0 <= k < |ss| :: ss[k].block.cols == |Used(cfg, e)|)
      && forall k | 0 <= k < |ss| :: e.torquesEst[k] == MatVec(ss[k].block, Used(cfg, e))
  {
    var s := Stacked(cfg, ext, init, ss);
    var e := Identify(cfg, m, ext, s).value;
    StackedShape(cfg, ext, init, ss);
    IdentifyValues(cfg, m, ext, s);
    MulCancel(ext.dof, |e.torquesEst|, |ss|);
    EstimateFilledRows(cfg, m, ext, s);
    StackedLayout(cfg, ext, init, ss);
    var blocks := seq(|ss|, k requires 0 <= k < |ss| => ss[k].block);
    BlockRowsProduct(Filled(cfg, s), Used(cfg, e), ext.dof, e.torquesEst, blocks);
  }

  /** Pieces of `dof` entries of a product F·x, where rows `dof*k ..` of F
      are the block `blocks[k]`, are the products of the blocks with x. */
  lemma BlockRowsProduct(f: Matrix, x: Vector, dof: nat, est: seq<Vector>, blocks: seq<Matrix>)
    requires f.cols == |x| && |est| == |blocks|
    requires forall k | 0 <= k < |blocks| :: |blocks[k].rows| == dof && blocks[k].cols == f.cols
    requires forall k | 0 <= k < |est| :: |est[k]| == dof
    requires forall k, j | 0 <= k < |est| && 0 <= j < dof ::
      Slot(dof, k, j) < |f.rows| && f.rows[Slot(dof, k, j)] == blocks[k].rows[j]
      && est[k][j] == Dot(f.rows[Slot(dof, k, j)], x)
    ensures forall k | 0 <= k < |est| :: est[k] == MatVec(blocks[k], x)
  {
    forall k | 0 <= k < |est|
      ensures est[k] == MatVec(blocks[k], x)
    {
      assert forall j | 0 <= j < dof :: est[k][j] == MatVec(blocks[k], x)[j];
    }
  }

  /** Identification.py as written pairs, when torques are measured, all
      records of the file with the estimates of the samples after the 200
      skipped ones: for a file with one torque record per position record
      the two lists differ by 200 entries. */
  lemma TauMeasuredAsWrittenMisaligned(cfg: Config, m: Measurements, ext: Externals, s: Stacks, n: nat)
    requires !cfg.Simulate() && ext.dof > 0 && Shaped(s, ext, n) && n == SampleCount(m)
    requires |m.torques| == |m.positions| && StartOffset <= |m.positions|
    requires Identify(cfg, m, ext, s).Success?
    ensures |TauMeasuredAsWritten(cfg, m, ext, s.torques).value|
      == |Identify(cfg, m, ext, s).value.torquesEst| + StartOffset
  {
    IdentifyValues(cfg, m, ext, s);
    MulCancel(ext.dof, |Identify(cfg, m, ext, s).value.torquesEst|, n);
  }

  /** With the skipped records dropped, the measured torques pair up with
      the estimates: one per sample, and entry k is the torque sample k was
      stacked with, whether simulated or measured. */
  lemma TauMeasuredAligned(cfg: Config, m: Measurements, ext: Externals, init: Stacks)
    requires Shaped(init, ext, SampleCount(m)) && Computed(cfg, m, ext, init).Success?
    requires IdentifyAligned(cfg, m, ext, Computed(cfg, m, ext, init).value).Success?
    requires ext.dof > 0
    requires !cfg.Simulate() ==>
      (|m.torques| == |m.positions|
       && forall row | StartOffset <= row < |m.torques| :: |m.torques[row]| == ext.dof)
    ensures var e := IdentifyAligned(cfg, m, ext, Computed(cfg, m, ext, init).value).value;
      |e.tauMeasured| == |e.torquesEst| == SampleCount(m)
    ensures var e := IdentifyAligned(cfg, m, ext, Computed(cfg, m, ext, init).value).value;
      forall k | 0 <= k < SampleCount(m) :: e.tauMeasured[k] == SampleAt(cfg, m, ext, k).value.torque
  {
    var s := Computed(cfg, m, ext, init).value;
    var ss := Collect(cfg, m, ext, SampleCount(m)).value;
    assert s == Stacked(cfg, ext, init, ss);
    AlignedAgrees(cfg, m, ext, s);
    StackedEstimate(cfg, m, ext, init, ss);
    if cfg.Simulate() {
      SimulatedAligned(cfg, m, ext, init, ss);
    } else {
      MeasuredAligned(cfg, m, ext, IdentifyAligned(cfg, m, ext, s).value.tauMeasured, SampleCount(m));
    }
  }

  /** When simulating, the torques to compare with are the samples' own. */
  lemma SimulatedAligned(cfg: Config, m: Measurements, ext: Externals, init: Stacks, ss: seq<Sample>)
    requires SamplesShaped(ss, ext.dof, Width(cfg, ext)) && Shaped(init, ext, |ss|)
    requires IdentifyAligned(cfg, m, ext, Stacked(cfg, ext, init, ss)).Success?
    requires cfg.Simulate() && ext.dof > 0
    ensures IdentifyAligned(cfg, m, ext, Stacked(cfg, ext, init, ss)).value.tauMeasured == Torques(ss)
  {
    var s := Stacked(cfg, ext, init, ss);
    var e := IdentifyAligned(cfg, m, ext, s).value;
    assert Success(e.tauMeasured) == TauMeasured(cfg, m, ext, s.torques);
    assert s.torques == Concat(Torques(ss));
    UnstackConcat(Torques(ss), ext.dof);
  }

  /** The measured records after the skipped ones are the samples' torques. */
  lemma MeasuredAligned(cfg: Config, m: Measurements, ext: Externals, tm: seq<Vector>, n: nat)
    requires !cfg.Simulate() && tm == Drop(m.torques, StartOffset) && n == |tm|
    requires forall k | 0 <= k < n :: SampleAt(cfg, m, ext, k).Success?
    requires forall row | StartOffset <= row < |m.torques| :: |m.torques[row]| == ext.dof
    ensures forall k | 0 <= k < n :: tm[k] == SampleAt(cfg, m, ext, k).value.torque
  {
    forall k | 0 <= k < n
      ensures tm[k] == SampleAt(cfg, m, ext, k).value.torque
    {
      SampleTorque(cfg, m, ext, k);
    }
  }
}
