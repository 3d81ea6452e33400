/** The sample loop of `computeRegressors` (identification.py:85-174): for
    each used record, read the state, obtain the torque, compute the
    regressor block and copy block and torque into the stacks at row
    `N_DOFS * k`. */
module Regressors {
  import opened Results
  import opened LinAlg
  import opened Stacking
  import opened Symbolic
  import opened Setup

  /** One sample's contribution: its `N_DOFS` regressor rows and torques. */
  datatype Sample = Sample(block: Matrix, torque: Vector)

  /** `array[row]`, an IndexError past the end. */
  function Record(a: seq<Vector>, row: nat): (r: Result<Vector>)
    ensures r.Success? <==> row < |a|
    ensures r.Success? ==> r.value == a[row]
    ensures r.Failure? ==> r.error == MissingRecord(row)
  {
    if row < |a| then Success(a[row]) else Failure(MissingRecord(row))
  }

  /** The state of one record: position, velocity, acceleration and, when
      torques are not simulated, the measured torque. */
  datatype State = State(pos: Vector, vel: Vector, acc: Vector, measured: Vector)

  /** Every array the loop reads has an entry at `row`: the commanded
      targets when torques are simulated, the measured state and torque
      otherwise (identification.py:113-122). */
  predicate Present(cfg: Config, m: Measurements, row: nat) {
    if cfg.Simulate() then
      row < |m.targetPositions| && row < |m.targetVelocities| && row < |m.targetAccelerations|
    else
      row < |m.positions| && row < |m.velocities| && row < |m.accelerations| && row < |m.torques|
  }

  /** Reading record `row`, an IndexError if an array is too short. */
  function ReadState(cfg: Config, m: Measurements, row: nat): (r: Result<State>)
    ensures r.Success? <==> Present(cfg, m, row)
    ensures r.Failure? ==> r.error == MissingRecord(row)
    ensures r.Success? && cfg.Simulate() ==>
      r.value == State(m.targetPositions[row], m.targetVelocities[row], m.targetAccelerations[row], [])
    ensures r.Success? && !cfg.Simulate() ==>
      r.value == State(m.positions[row], m.velocities[row], m.accelerations[row], m.torques[row])
  {
    if cfg.Simulate() then
      var pos :- Record(m.targetPositions, row);
      var vel :- Record(m.targetVelocities, row);
      var acc :- Record(m.targetAccelerations, row);
      Success(State(pos, vel, acc, []))
    else
      var pos :- Record(m.positions, row);
      var vel :- Record(m.velocities, row);
      var acc :- Record(m.accelerations, row);
      var torq :- Record(m.torques, row);
      Success(State(pos, vel, acc, torq))
  }

  /** Columns of the regressor stack the loop fills. */
  function Width(cfg: Config, ext: Externals): nat {
    if cfg.robotranRegressor then SymbolicWidth else ext.params
  }

  /** The block `idinvbar` writes for the padded state (identification.py:150-153). */
  function SymbolicBlock(ext: Externals, st: State): (y: GeneratedBlock)
    ensures forall i, j | 0 <= i < GeneratedRows && 0 <= j < GeneratedCols ::
      y.rows[i][j] == ext.symbolicRegressor(Pad(st.pos), Pad(st.vel), Pad(st.acc))(i, j)
  {
    Tabulate(GeneratedRows, GeneratedCols, ext.symbolicRegressor(Pad(st.pos), Pad(st.vel), Pad(st.acc)))
  }

  /** The N_OUT x N_PARAMS regressor iDynTree writes; its failure flag only
      produces a message (identification.py:164-169). */
  function NumericBlock(ext: Externals, st: State, torq: Vector): (y: Matrix)
    ensures HasShape(y, ext.outputs, ext.params)
  {
    Tabulate(ext.outputs, ext.params, ext.numericRegressor(st.pos, st.vel, st.acc, torq).1)
  }

  /** The torque of a sample: simulated by inverse dynamics, the zero
      placeholder of the symbolic simulation, or the measured one
      (identification.py:132-144). */
  function Torque(cfg: Config, ext: Externals, st: State): (t: Vector)
    ensures cfg.iDynSimulate ==>
      && |t| == ext.dof
      && forall j | 0 <= j < ext.dof :: t[j] == ext.inverseDynamics(st.pos, st.vel, st.acc)(j)
    ensures !cfg.iDynSimulate && cfg.robotranSimulate ==> |t| == ext.dof && IsZero(t)
    ensures !cfg.Simulate() ==> t == st.measured
  {
    if cfg.iDynSimulate then TabulateVector(ext.dof, ext.inverseDynamics(st.pos, st.vel, st.acc))
    else if cfg.robotranSimulate then Zeros(ext.dof)
    else st.measured
  }

  /** The regressor block as `np.copyto` writes it into `N_DOFS` rows of the
      stack: the generated block has 7 rows, iDynTree's N_OUT, and numpy
      broadcasts only equal counts or a single row. */
  function BlockOf(cfg: Config, ext: Externals, st: State, torq: Vector, k: nat): (r: Result<Matrix>)
    ensures r.Success? <==>
      if cfg.robotranRegressor then ext.dof == GeneratedRows else ext.outputs == ext.dof || ext.outputs == 1
    ensures r.Failure? ==> r.error == BlockShape(k)
    ensures r.Success? ==> HasShape(r.value, ext.dof, Width(cfg, ext))
  {
    if cfg.robotranRegressor then
      BroadcastRows(Prune(SymbolicBlock(ext, st)), ext.dof, SymbolicWidth, BlockShape(k))
    else
      BroadcastRows(NumericBlock(ext, st, torq), ext.dof, ext.params, BlockShape(k))
  }

  /** One iteration of the loop, for sample k (record k + 200).  The errors
      come in the order the Python raises them: a missing record, a block
      `np.copyto` cannot broadcast into `N_DOFS` rows, a torque it cannot
      broadcast into `N_DOFS` entries. */
  function SampleAt(cfg: Config, m: Measurements, ext: Externals, k: nat): (r: Result<Sample>)
    ensures r.Success? ==> HasShape(r.value.block, ext.dof, Width(cfg, ext))
    ensures r.Success? ==> |r.value.torque| == ext.dof
  {
    var st :- ReadState(cfg, m, StartOffset + k);
    var torq := Torque(cfg, ext, st);
    var block :- BlockOf(cfg, ext, st, torq, k);
    var t :- BroadcastVector(torq, ext.dof, TorqueShape(k));
    Success(Sample(block, t))
  }

  /** The loop body as a function of the sample index. */
  function Sampler(cfg: Config, m: Measurements, ext: Externals): nat -> Result<Sample> {
    (k: nat) => SampleAt(cfg, m, ext, k)
  }

  /** The first n iterations: all their samples, or the first error. */
  function Collect(cfg: Config, m: Measurements, ext: Externals, n: nat): (r: Result<seq<Sample>>)
    ensures r.Success? ==> |r.value| == n
    ensures r.Success? ==> forall k | 0 <= k < n :: SampleAt(cfg, m, ext, k) == Success(r.value[k])
    ensures r.Success? <==> forall k | 0 <= k < n :: SampleAt(cfg, m, ext, k).Success?
  {
    var f := Sampler(cfg, m, ext);
    var r := Iterate(f, n);
    assert forall k | 0 <= k < n :: f(k) == SampleAt(cfg, m, ext, k);
    r
  }

  function Blocks(ss: seq<Sample>): seq<seq<Vector>> {
    seq(|ss|, k requires 0 <= k < |ss| => ss[k].block.rows)
  }

  function Torques(ss: seq<Sample>): seq<Vector> {
    seq(|ss|, k requires 0 <= k < |ss| => ss[k].torque)
  }

  /** Every sample has `dof` rows of `width` entries and `dof` torques. */
  predicate SamplesShaped(ss: seq<Sample>, dof: nat, width: nat) {
    forall k | 0 <= k < |ss| :: HasShape(ss[k].block, dof, width) && |ss[k].torque| == dof
  }

  /** The stacks after every sample has been copied in: the filled stack
      holds the blocks one under the other, the torque stack the torques,
      and the stack of the other regressor keeps its uninitialised contents. */
  function Stacked(cfg: Config, ext: Externals, init: Stacks, ss: seq<Sample>): (s: Stacks)
    requires SamplesShaped(ss, ext.dof, Width(cfg, ext))
  {
    ConcatWidth(Blocks(ss), Width(cfg, ext));
    Assemble(cfg, ext, init, Concat(Blocks(ss)), Concat(Torques(ss)))
  }

  /** The stacks with the filled regressor's rows and the torques replaced. */
  function Assemble(cfg: Config, ext: Externals, init: Stacks, rows: seq<Vector>, tau: Vector): Stacks
    requires forall i | 0 <= i < |rows| :: |rows[i]| == Width(cfg, ext)
  {
    var filled := Mat(Width(cfg, ext), rows);
    if cfg.robotranRegressor then Stacks(init.regressor, filled, tau)
    else Stacks(filled, init.regressorSym, tau)
  }

  /** The regressor stack the loop fills. */
  function Filled(cfg: Config, s: Stacks): Matrix {
    if cfg.robotranRegressor then s.regressorSym else s.regressor
  }

  /** What `computeRegressors` leaves behind, from the stacks `__init__`
      allocated. */
  function Computed(cfg: Config, m: Measurements, ext: Externals, init: Stacks): (r: Result<Stacks>)
    requires Shaped(init, ext, SampleCount(m))
    ensures r.Success? ==> Shaped(r.value, ext, SampleCount(m))
    ensures r.Failure? <==> Collect(cfg, m, ext, SampleCount(m)).Failure?
  {
    var ss :- Collect(cfg, m, ext, SampleCount(m));
    StackedShape(cfg, ext, init, ss);
    Success(Stacked(cfg, ext, init, ss))
  }

  /** The loop itself, copying each sample's block and torque into place. */
  method ComputeRegressors(cfg: Config, m: Measurements, ext: Externals, init: Stacks) returns (r: Result<Stacks>)
    requires Shaped(init, ext, SampleCount(m))
    ensures r == Computed(cfg, m, ext, init)
  {
    var n := SampleCount(m);
    var rows := Filled(cfg, init).rows;
    var tau := init.torques;
    ghost var done: seq<Sample> := [];
    Start(cfg, m, ext, init);
    for k := 0 to n
      invariant Progress(cfg, m, ext, init, k, done, rows, tau)
    {
      var sr := SampleAt(cfg, m, ext, k);
      if sr.Failure? {
        Stop(cfg, m, ext, init, k, done, rows, tau);
        return Failure(sr.error);
      }
      var s := sr.value;
      Step(cfg, m, ext, init, k, done, rows, tau, s);
      rows := PlaceAt(rows, ext.dof * k, s.block.rows);
      tau := PlaceAt(tau, ext.dof * k, s.torque);
      done := done + [s];
    }
    Finish(cfg, m, ext, init, done, rows, tau);
    r := Success(Assemble(cfg, ext, init, rows, tau));
  }

  /** After k iterations: the first k samples are copied into the first
      `dof * k` rows, the rest still holds the uninitialised contents. */
  ghost predicate Progress(cfg: Config, m: Measurements, ext: Externals, init: Stacks,
                           k: nat, done: seq<Sample>, rows: seq<Vector>, tau: Vector)
    requires Shaped(init, ext, SampleCount(m))
  {
    k <= SampleCount(m)
    && Collect(cfg, m, ext, k) == Success(done)
    && Laid(ext.dof, Width(cfg, ext), k, done, rows, tau, Filled(cfg, init).rows, init.torques)
  }

  /** `done` lies in the first `dof * k` rows of `rows` and entries of `tau`;
      the rest are those of `rows0` and `tau0`. */
  ghost predicate Laid(dof: nat, width: nat, k: nat, done: seq<Sample>,
                       rows: seq<Vector>, tau: Vector, rows0: seq<Vector>, tau0: Vector)
  {
    SamplesShaped(done, dof, width)
    && |Concat(Blocks(done))| == dof * k
    && |Concat(Torques(done))| == dof * k
    && dof * k <= |rows0| && dof * k <= |tau0|
    && rows == Concat(Blocks(done)) + rows0[dof * k..]
    && tau == Concat(Torques(done)) + tau0[dof * k..]
  }

  /** Copying sample k's block and torque at row `dof * k` extends the layout. */
  lemma LaidStep(dof: nat, width: nat, k: nat, n: nat, done: seq<Sample>,
                 rows: seq<Vector>, tau: Vector, rows0: seq<Vector>, tau0: Vector, s: Sample)
    requires Laid(dof, width, k, done, rows, tau, rows0, tau0)
    requires k < n && |rows0| == dof * n && |tau0| == dof * n
    requires HasShape(s.block, dof, width) && |s.torque| == dof
    ensures dof * k + dof <= |rows| && dof * k + dof <= |tau|
    ensures Laid(dof, width, k + 1, done + [s],
      PlaceAt(rows, dof * k, s.block.rows), PlaceAt(tau, dof * k, s.torque), rows0, tau0)
  {
    PlaceStep(dof, k, n, Concat(Blocks(done)), rows0, s.block.rows);
    PlaceStep(dof, k, n, Concat(Torques(done)), tau0, s.torque);
    BlocksAppend(done, s);
  }

  /** The copy at row `dof * k` of a stack whose first k blocks are filled. */
  lemma PlaceStep<T>(dof: nat, k: nat, n: nat, prefix: seq<T>, old_: seq<T>, block: seq<T>)
    requires |prefix| == dof * k && k < n && |old_| == dof * n && |block| == dof
    ensures dof * k + dof <= |prefix + old_[dof * k..]| && dof * (k + 1) <= |old_|
    ensures |prefix + block| == dof * (k + 1)
    ensures PlaceAt(prefix + old_[dof * k..], dof * k, block) == (prefix + block) + old_[dof * (k + 1)..]
  {
    MulSucc(dof, k);
    MulStrictMono(dof, k, n);
    PlaceAfter(prefix, old_, block);
  }

  /** Before the first iteration nothing is copied. */
  lemma Start(cfg: Config, m: Measurements, ext: Externals, init: Stacks)
    requires Shaped(init, ext, SampleCount(m))
    ensures Progress(cfg, m, ext, init, 0, [], Filled(cfg, init).rows, init.torques)
  {
    assert Filled(cfg, init).rows[0..] == Filled(cfg, init).rows;
    assert init.torques[0..] == init.torques;
  }

  /** One iteration keeps `Progress`. */
  lemma Step(cfg: Config, m: Measurements, ext: Externals, init: Stacks,
             k: nat, done: seq<Sample>, rows: seq<Vector>, tau: Vector, s: Sample)
    requires Shaped(init, ext, SampleCount(m))
    requires Progress(cfg, m, ext, init, k, done, rows, tau)
    requires k < SampleCount(m) && SampleAt(cfg, m, ext, k) == Success(s)
    ensures ext.dof * k + ext.dof <= |rows| && ext.dof * k + ext.dof <= |tau|
    ensures Progress(cfg, m, ext, init, k + 1, done + [s],
      PlaceAt(rows, ext.dof * k, s.block.rows), PlaceAt(tau, ext.dof * k, s.torque))
  {
    LaidStep(ext.dof, Width(cfg, ext), k, SampleCount(m), done, rows, tau,
      Filled(cfg, init).rows, init.torques, s);
    var f := Sampler(cfg, m, ext);
    assert f(k) == Success(s);
    IterateStep(f, k, s);
  }

  /** A failing iteration is the failure of the whole loop. */
  lemma Stop(cfg: Config, m: Measurements, ext: Externals, init: Stacks,
             k: nat, done: seq<Sample>, rows: seq<Vector>, tau: Vector)
    requires Shaped(init, ext, SampleCount(m))
    requires Progress(cfg, m, ext, init, k, done, rows, tau)
    requires k < SampleCount(m) && SampleAt(cfg, m, ext, k).Failure?
    ensures Computed(cfg, m, ext, init) == Failure(SampleAt(cfg, m, ext, k).error)
  {
    var f := Sampler(cfg, m, ext);
    assert f(k) == SampleAt(cfg, m, ext, k);
    assert Iterate(f, k + 1) == Failure(SampleAt(cfg, m, ext, k).error);
    IterateStops(f, k + 1, SampleCount(m));
  }

  /** After the last iteration the stacks are entirely filled. */
  lemma Finish(cfg: Config, m: Measurements, ext: Externals, init: Stacks,
               done: seq<Sample>, rows: seq<Vector>, tau: Vector)
    requires Shaped(init, ext, SampleCount(m))
    requires Progress(cfg, m, ext, init, SampleCount(m), done, rows, tau)
    ensures forall i | 0 <= i < |rows| :: |rows[i]| == Width(cfg, ext)
    ensures Computed(cfg, m, ext, init) == Success(Assemble(cfg, ext, init, rows, tau))
  {
    LaidFull(ext.dof, Width(cfg, ext), SampleCount(m), done, rows, tau, Filled(cfg, init).rows, init.torques);
    ConcatWidth(Blocks(done), Width(cfg, ext));
  }

  lemma LaidFull(dof: nat, width: nat, n: nat, done: seq<Sample>,
                 rows: seq<Vector>, tau: Vector, rows0: seq<Vector>, tau0: Vector)
    requires Laid(dof, width, n, done, rows, tau, rows0, tau0)
    requires |rows0| == dof * n && |tau0| == dof * n
    ensures rows == Concat(Blocks(done)) && tau == Concat(Torques(done))
  {
    assert rows0[dof * n..] == [];
    assert tau0[dof * n..] == [];
  }

  // ---------------------------------------------------------------------
  // Lemmas

  /** Every row of stacked blocks of `width` columns has `width` entries. */
  lemma {:induction false} ConcatWidth(xss: seq<seq<Vector>>, width: nat)
    requires forall k, i | 0 <= k < |xss| && 0 <= i < |xss[k]| :: |xss[k][i]| == width
    ensures forall i | 0 <= i < |Concat(xss)| :: |Concat(xss)[i]| == width
  {
    if |xss| > 0 {
      ConcatWidth(xss[..|xss| - 1], width);
    }
  }

  lemma StackedShape(cfg: Config, ext: Externals, init: Stacks, ss: seq<Sample>)
    requires SamplesShaped(ss, ext.dof, Width(cfg, ext))
    requires Shaped(init, ext, |ss|)
    ensures Shaped(Stacked(cfg, ext, init, ss), ext, |ss|)
  {
    ConcatIndex(Blocks(ss), ext.dof);
    ConcatIndex(Torques(ss), ext.dof);
  }

  /** Copying a block just after the filled prefix extends the prefix. */
  lemma PlaceAfter<T>(prefix: seq<T>, old_: seq<T>, block: seq<T>)
    requires |prefix| + |block| <= |old_|
    ensures PlaceAt(prefix + old_[|prefix|..], |prefix|, block)
      == (prefix + block) + old_[|prefix| + |block|..]
  {
    var dst := prefix + old_[|prefix|..];
    var r := PlaceAt(dst, |prefix|, block);
    var want := (prefix + block) + old_[|prefix| + |block|..];
    assert |r| == |want|;
    forall i | 0 <= i < |r|
      ensures r[i] == want[i]
    {
      if i < |prefix| {
        assert r[i] == dst[i];
      } else if i < |prefix| + |block| {
        assert r[|prefix| + (i - |prefix|)] == block[i - |prefix|];
      } else {
        assert r[i] == dst[i];
      }
    }
  }

  lemma BlocksAppend(ss: seq<Sample>, s: Sample)
    ensures Concat(Blocks(ss + [s])) == Concat(Blocks(ss)) + s.block.rows
    ensures Concat(Torques(ss + [s])) == Concat(Torques(ss)) + s.torque
  {
    assert Blocks(ss + [s]) == Blocks(ss) + [s.block.rows];
    assert Torques(ss + [s]) == Torques(ss) + [s.torque];
    ConcatAppend(Blocks(ss), s.block.rows);
    ConcatAppend(Torques(ss), s.torque);
  }

  /** When one iteration succeeds: every record it reads exists, the
      regressor block broadcasts into `N_DOFS` rows (the symbolic block has 7,
      so only a 7-joint chain fits) and a measured torque has `N_DOFS`
      entries or one. */
  lemma SampleAtSucceeds(cfg: Config, m: Measurements, ext: Externals, k: nat)
    ensures SampleAt(cfg, m, ext, k).Success? <==>
      Present(cfg, m, StartOffset + k)
      && (if cfg.robotranRegressor then ext.dof == GeneratedRows
          else ext.outputs == ext.dof || ext.outputs == 1)
      && (cfg.Simulate()
          || |m.torques[StartOffset + k]| == ext.dof || |m.torques[StartOffset + k]| == 1)
  {
  }

  /** A missing record fails the iteration with that record's row. */
  lemma SampleAtMissing(cfg: Config, m: Measurements, ext: Externals, k: nat)
    requires !Present(cfg, m, StartOffset + k)
    ensures SampleAt(cfg, m, ext, k) == Failure(MissingRecord(StartOffset + k))
  {
  }

  /** Sample k depends on record k + 200 of each array and on nothing else
      of the measurements. */
  lemma SampleAtLocal(cfg: Config, m1: Measurements, m2: Measurements, ext: Externals, k: nat)
    requires SameRecord(m1, m2, StartOffset + k)
    ensures SampleAt(cfg, m1, ext, k) == SampleAt(cfg, m2, ext, k)
  {
    assert ReadState(cfg, m1, StartOffset + k) == ReadState(cfg, m2, StartOffset + k);
  }

  predicate AgreeAt(a: seq<Vector>, b: seq<Vector>, row: nat) {
    (row < |a| <==> row < |b|) && (row < |a| ==> a[row] == b[row])
  }

  /** Two measurement files with the same record at `row`. */
  predicate SameRecord(m1: Measurements, m2: Measurements, row: nat) {
    AgreeAt(m1.positions, m2.positions, row)
    && AgreeAt(m1.velocities, m2.velocities, row)
    && AgreeAt(m1.accelerations, m2.accelerations, row)
    && AgreeAt(m1.torques, m2.torques, row)
    && AgreeAt(m1.targetPositions, m2.targetPositions, row)
    && AgreeAt(m1.targetVelocities, m2.targetVelocities, row)
    && AgreeAt(m1.targetAccelerations, m2.targetAccelerations, row)
  }

  /** With the symbolic regressor, sample k's block is the generated block
      for the zero-padded state of record k + 200 with columns 1, 4 and 6
      removed (identification.py:148-155). */
  lemma SymbolicSample(cfg: Config, m: Measurements, ext: Externals, k: nat)
    requires cfg.robotranRegressor && SampleAt(cfg, m, ext, k).Success?
    ensures ext.dof == GeneratedRows && ReadState(cfg, m, StartOffset + k).Success?
    ensures var st := ReadState(cfg, m, StartOffset + k).value;
      forall i, t | 0 <= i < GeneratedRows && 0 <= t < SymbolicWidth ::
        SampleAt(cfg, m, ext, k).value.block.rows[i][t]
        == ext.symbolicRegressor(Pad(st.pos), Pad(st.vel), Pad(st.acc))(i, KeptColumn(t))
  {
    SampleParts(cfg, m, ext, k);
    var st := ReadState(cfg, m, StartOffset + k).value;
    var torq := Torque(cfg, ext, st);
    SymbolicBlockOf(cfg, ext, st, torq, k);
    assert SampleAt(cfg, m, ext, k).value.block == Prune(SymbolicBlock(ext, st));
    PrunedSymbolic(ext, st);
  }

  /** The entries of the pruned generated block. */
  lemma PrunedSymbolic(ext: Externals, st: State)
    ensures forall i, t | 0 <= i < GeneratedRows && 0 <= t < SymbolicWidth ::
      Prune(SymbolicBlock(ext, st)).rows[i][t]
      == ext.symbolicRegressor(Pad(st.pos), Pad(st.vel), Pad(st.acc))(i, KeptColumn(t))
  {
    var y := SymbolicBlock(ext, st);
    var b := Prune(y);
    forall i, t | 0 <= i < GeneratedRows && 0 <= t < SymbolicWidth
      ensures b.rows[i][t] == ext.symbolicRegressor(Pad(st.pos), Pad(st.vel), Pad(st.acc))(i, KeptColumn(t))
    {
      assert b.rows[i][t] == y.rows[i][KeptColumn(t)];
    }
  }

  /** A successful iteration's block and torque are those `BlockOf` and the
      torque copy compute for the record it read. */
  lemma SampleParts(cfg: Config, m: Measurements, ext: Externals, k: nat)
    requires SampleAt(cfg, m, ext, k).Success?
    ensures ReadState(cfg, m, StartOffset + k).Success?
    ensures var st := ReadState(cfg, m, StartOffset + k).value;
      var torq := Torque(cfg, ext, st);
      BlockOf(cfg, ext, st, torq, k).Success?
      && BroadcastVector(torq, ext.dof, TorqueShape(k)).Success?
      && SampleAt(cfg, m, ext, k).value
         == Sample(BlockOf(cfg, ext, st, torq, k).value, BroadcastVector(torq, ext.dof, TorqueShape(k)).value)
  {
  }

  lemma SymbolicBlockOf(cfg: Config, ext: Externals, st: State, torq: Vector, k: nat)
    requires cfg.robotranRegressor && ext.dof == GeneratedRows
    ensures BlockOf(cfg, ext, st, torq, k) == Success(Prune(SymbolicBlock(ext, st)))
  {
    BroadcastRowsExact(Prune(SymbolicBlock(ext, st)), BlockShape(k));
  }

  /** With iDynTree's regressor, sample k's block is the regressor of record
      k + 200 and its torque (identification.py:157-171). */
  lemma NumericSample(cfg: Config, m: Measurements, ext: Externals, k: nat)
    requires !cfg.robotranRegressor && SampleAt(cfg, m, ext, k).Success?
    requires ext.outputs == ext.dof
    ensures ReadState(cfg, m, StartOffset + k).Success?
    ensures var st := ReadState(cfg, m, StartOffset + k).value;
      SampleAt(cfg, m, ext, k).value.block == NumericBlock(ext, st, Torque(cfg, ext, st))
  {
    SampleParts(cfg, m, ext, k);
    var st := ReadState(cfg, m, StartOffset + k).value;
    BroadcastRowsExact(NumericBlock(ext, st, Torque(cfg, ext, st)), BlockShape(k));
  }

  /** The torque of sample k: inverse dynamics of the commanded state of
      record k + 200 when iDynTree simulates (identification.py:132-141),
      zeros under the symbolic simulation placeholder (142-144), the measured
      record when read and of the right length. */
  lemma SampleTorque(cfg: Config, m: Measurements, ext: Externals, k: nat)
    requires SampleAt(cfg, m, ext, k).Success?
    ensures cfg.iDynSimulate ==>
      && Present(cfg, m, StartOffset + k)
      && |SampleAt(cfg, m, ext, k).value.torque| == ext.dof
      && forall j | 0 <= j < ext.dof ::
        SampleAt(cfg, m, ext, k).value.torque[j]
        == ext.inverseDynamics(m.targetPositions[StartOffset + k], m.targetVelocities[StartOffset + k],
                               m.targetAccelerations[StartOffset + k])(j)
    ensures cfg.robotranSimulate && !cfg.iDynSimulate ==> IsZero(SampleAt(cfg, m, ext, k).value.torque)
    ensures !cfg.Simulate() && |m.torques[StartOffset + k]| == ext.dof ==>
      SampleAt(cfg, m, ext, k).value.torque == m.torques[StartOffset + k]
  {
    SampleParts(cfg, m, ext, k);
    var st := ReadState(cfg, m, StartOffset + k).value;
    var torq := Torque(cfg, ext, st);
    if cfg.iDynSimulate {
      BroadcastVectorExact(torq, TorqueShape(k));
    } else if cfg.robotranSimulate {
      BroadcastVectorExact(torq, TorqueShape(k));
    } else if |m.torques[StartOffset + k]| == ext.dof {
      BroadcastVectorExact(torq, TorqueShape(k));
    }
  }

  /** A failed loop failed at its first failing iteration. */
  lemma CollectFirstError(cfg: Config, m: Measurements, ext: Externals, n: nat)
    requires Collect(cfg, m, ext, n).Failure?
    ensures exists k | 0 <= k < n ::
      SampleAt(cfg, m, ext, k) == Failure(Collect(cfg, m, ext, n).error)
      && forall i | 0 <= i < k :: SampleAt(cfg, m, ext, i).Success?
  {
    var f := Sampler(cfg, m, ext);
    assert Collect(cfg, m, ext, n) == Iterate(f, n);
    IterateFirstError(f, n);
    var k :| 0 <= k < n && f(k) == Failure(Iterate(f, n).error) && forall i | 0 <= i < k :: f(i).Success?;
    assert SampleAt(cfg, m, ext, k) == f(k);
    forall i | 0 <= i < k
      ensures SampleAt(cfg, m, ext, i).Success?
    {
      assert f(i).Success?;
    }
  }

  /** After the loop, rows `N_DOFS*k .. N_DOFS*k + N_DOFS - 1` of the filled
      stack are sample k's block and the same entries of the torque stack
      its torque; the other regressor stack is untouched
      (identification.py:146, 155, 171, 174). */
  lemma StackLayout(cfg: Config, m: Measurements, ext: Externals, init: Stacks)
    requires Shaped(init, ext, SampleCount(m)) && Computed(cfg, m, ext, init).Success?
    ensures var s := Computed(cfg, m, ext, init).value;
      forall k, j | 0 <= k < SampleCount(m) && 0 <= j < ext.dof ::
        Slot(ext.dof, k, j) < |Filled(cfg, s).rows| && Slot(ext.dof, k, j) < |s.torques|
    ensures var s := Computed(cfg, m, ext, init).value;
      forall k, j | 0 <= k < SampleCount(m) && 0 <= j < ext.dof ::
        Filled(cfg, s).rows[Slot(ext.dof, k, j)] == SampleAt(cfg, m, ext, k).value.block.rows[j]
        && s.torques[Slot(ext.dof, k, j)] == SampleAt(cfg, m, ext, k).value.torque[j]
    ensures var s := Computed(cfg, m, ext, init).value;
      if cfg.robotranRegressor then s.regressor == init.regressor else s.regressorSym == init.regressorSym
  {
    var ss := Collect(cfg, m, ext, SampleCount(m)).value;
    assert Computed(cfg, m, ext, init).value == Stacked(cfg, ext, init, ss);
    StackedLayout(cfg, ext, init, ss);
  }

  /** The layout of the stacks built from given samples. */
  lemma StackedLayout(cfg: Config, ext: Externals, init: Stacks, ss: seq<Sample>)
    requires SamplesShaped(ss, ext.dof, Width(cfg, ext))
    ensures var s := Stacked(cfg, ext, init, ss);
      forall k, j | 0 <= k < |ss| && 0 <= j < ext.dof ::
        Slot(ext.dof, k, j) < |Filled(cfg, s).rows| && Slot(ext.dof, k, j) < |s.torques|
    ensures var s := Stacked(cfg, ext, init, ss);
      forall k, j | 0 <= k < |ss| && 0 <= j < ext.dof ::
        Filled(cfg, s).rows[Slot(ext.dof, k, j)] == ss[k].block.rows[j]
        && s.torques[Slot(ext.dof, k, j)] == ss[k].torque[j]
    ensures var s := Stacked(cfg, ext, init, ss);
      if cfg.robotranRegressor then s.regressor == init.regressor else s.regressorSym == init.regressorSym
  {
    ConcatIndex(Blocks(ss), ext.dof);
    ConcatIndex(Torques(ss), ext.dof);
    SlotBound(ext.dof, |ss|);
  }

  /** Under the placeholder simulation the whole torque stack is zero. */
  lemma ZeroTorqueStack(cfg: Config, m: Measurements, ext: Externals, init: Stacks)
    requires cfg.robotranSimulate && !cfg.iDynSimulate
    requires Shaped(init, ext, SampleCount(m)) && Computed(cfg, m, ext, init).Success?
    ensures IsZero(Computed(cfg, m, ext, init).value.torques)
  {
    var ss := Collect(cfg, m, ext, SampleCount(m)).value;
    forall k | 0 <= k < |ss|
      ensures IsZero(Torques(ss)[k])
    {
      SampleTorque(cfg, m, ext, k);
    }
    ConcatZero(Torques(ss));
  }

  lemma {:induction false} ConcatZero(vs: seq<Vector>)
    requires forall k | 0 <= k < |vs| :: IsZero(vs[k])
    ensures IsZero(Concat(vs))
  {
    if |vs| > 0 {
      ConcatZero(vs[..|vs| - 1]);
    }
  }
}
