# Inertial parameter identification: stacking and estimation model

A Dafny model of the index and shape bookkeeping of
`identification/identification.py`, a script that identifies the inertial
parameters of a 7-joint robot arm from recorded motion.

- `__init__` skips the first 200 records of the measurements file. It
  allocates a numeric regressor stack (`N_DOFS*num_samples` x `N_PARAMS`), a
  symbolic regressor stack (`N_DOFS*num_samples` x 45) and a torque stack
  (`N_DOFS*num_samples`).
- `computeRegressors` visits records 200 .. rows-1. For each record it reads
  the state (commanded targets when torques are simulated, measured values
  otherwise) and obtains the torque: iDynTree inverse dynamics, a zero
  placeholder, or the measured torque. It then computes the regressor block
  and copies block and torque into rows `N_DOFS*k ..` of the stacks. The
  block is either the generated symbolic regressor, called on zero-padded
  state vectors with columns 1, 4 and 6 removed, or iDynTree's numeric one.
- `identify` projects onto the identifiable subspace (`YBase = YStd·B`) and
  solves `xBase = pinv(Y)·tau`. It maps back to standard parameters
  `xStd = B·xBase`, estimates `tauEst = Y·xBase` and unstacks `tauEst` into
  one vector per sample.
- `explain` rewrites the generator's parameter description, splits it into
  lines and pairs line i with the model and identified value of
  parameter i.

These exceptions the Python can raise on these paths become a `Failure`:
- numpy's negative-dimension error;
- an IndexError on a missing record or a short vector;
- a broadcasting error of `np.copyto`;
- a shape error of `np.dot`;
- a ZeroDivisionError when unstacking with zero degrees of freedom.

Two exceptions are not modelled: the LinAlgError `np.linalg.pinv` raises
when its SVD does not converge, and the KeyError for an array missing from
the measurements file (see "Left out").

Foreign code is a parameter. The `Externals` datatype carries the regressor
generator's counts, the numeric and symbolic regressors, inverse dynamics,
the subspace basis, the pseudo-inverse, the model parameters and the
description text, each as the values it writes. `Blank` carries whatever
`np.empty` leaves in the stacks.

Modules:
- `Results`: errors, `Result`, and `Iterate`, a loop that stops at its
  first failure.
- `LinAlg`: matrices that keep their width, dot products, and
  associativity.
- `Stacking`: stacking, unstacking and `np.copyto` broadcasting.
- `Symbolic`: padding and column pruning.
- `Text`: `str.replace`, `str.split` and join.
- `Setup`: configuration, measurements and `__init__`.
- `Regressors`: the sample loop, as a function and as a method with a loop
  invariant.
- `Estimation`: `identify`.
- `Explanation`: the parameter table of `explain`.

The code has no check for a file with no sample left after the 200
skipped records:
- with dof > 0 and fewer than 200 records, `np.empty` raises on the
  negative row count (`Setup.Init`);
- with exactly 200 records, it goes on with empty stacks.

## Model

| member | source | states |
|---|---|---|
| Setup.Init | identification/identification.py:81-83 | allocation fails (negative dimension) exactly when there are degrees of freedom and fewer than 200 records; otherwise the three stacks have `N_DOFS*num_samples` rows and `N_PARAMS`, 45 and no columns |
| Setup.InitHeight | identification/identification.py:30-34 | `N_DOFS*(rows-200)` is negative iff dof > 0 and rows < 200, and otherwise equals dof times the number of samples processed |
| Setup.VisitedRowsExact | identification/identification.py:112 | the loop visits records 200, 201, ... in order, one per sample; sample k after `row -= start_offset` is index k; every record from 200 on is visited |
| Results.Iterate | identification/identification.py:112-174 | a loop whose body may raise: on success one result per iteration, each the iteration's own; it succeeds iff every iteration does |
| Results.IterateFirstError | identification/identification.py:112 | a failed loop reports the error of its first failing iteration, every earlier one having succeeded |
| Regressors.ReadState | identification/identification.py:113-122 | reading a record succeeds iff every array read has that row (targets when simulating, positions/velocities/accelerations/torques otherwise); the values are that row's; otherwise an IndexError naming the row |
| Regressors.BlockOf | identification/identification.py:148-171 | the regressor block copies into `N_DOFS` rows iff, for the symbolic block, dof is 7, or for iDynTree's, N_OUT is dof or 1; a copied block is dof x width |
| Regressors.SampleAt | identification/identification.py:112-174 | a successful iteration yields a dof x width block and dof torques |
| Regressors.SampleAtSucceeds | identification/identification.py:112-174 | an iteration succeeds iff the record is present, the block broadcasts into dof rows, and a measured torque has dof entries or one |
| Regressors.SampleAtMissing | identification/identification.py:113-122 | a missing record fails the iteration with that record's IndexError |
| Regressors.SampleAtLocal | identification/identification.py:113-125 | sample k depends on record k+200 and on no other record |
| Regressors.SymbolicSample | identification/identification.py:148-155 | with the symbolic regressor, block entry (i, t) is the generated value for the padded state of record k+200 at column KeptColumn(t) |
| Regressors.NumericSample | identification/identification.py:157-171 | with iDynTree's regressor and N_OUT == dof, the block is iDynTree's regressor for that record and torque |
| Regressors.Torque | identification/identification.py:132-144 | iDynTree's simulation gives the dof inverse-dynamics torques of the state, the symbolic placeholder dof zeros, and otherwise the measured torque |
| Regressors.SampleTorque | identification/identification.py:132-144 | with iDynTree simulating, sample k's torque is the inverse dynamics of the commanded state of record k+200; under the zero placeholder it is zero; with measured torques of dof entries it is the record's torque |
| Regressors.Collect | identification/identification.py:112-174 | the loop succeeds iff every iteration does, and then sample k is iteration k's result |
| Regressors.CollectFirstError | identification/identification.py:112-174 | a failed loop fails with the error of its first failing iteration |
| Regressors.ComputeRegressors | identification/identification.py:85-174 | the imperative loop writing into the preallocated stacks returns exactly the functional result `Computed`, the error of the first failing iteration included |
| Regressors.StackLayout | identification/identification.py:146-174 | after the loop, row `dof*k + j` of the filled stack is row j of sample k's block and torque entry `dof*k + j` is its torque j; the other stack keeps its uninitialised contents |
| Regressors.ZeroTorqueStack | identification/identification.py:142-144 | under the zero placeholder the whole torque stack is zero |
| Stacking.PlaceAt | identification/identification.py:155 | `np.copyto` into a slice writes the block there and leaves every other entry unchanged |
| Stacking.BroadcastRows | identification/identification.py:171 | a 2-D copy succeeds iff each source dimension equals the destination's or is 1; entries follow numpy's broadcasting |
| Stacking.BroadcastVector | identification/identification.py:174 | a 1-D copy succeeds iff the source has n entries or one; entries follow broadcasting |
| Stacking.Unstack | identification/identification.py:253-260 | unstacking succeeds iff the size divides the length (a ZeroDivisionError for size 0 with entries); piece k entry j is entry `size*k + j` |
| Stacking.UnstackConcat | identification/identification.py:253-260 | unstacking stacked pieces of equal size gives the pieces back |
| Stacking.ConcatUnstack | identification/identification.py:253-260 | stacking the pieces of a successful unstack gives the stack back |
| Stacking.ConcatIndex | identification/identification.py:146 | in a stack of equal pieces, entry `size*k + j` is entry j of piece k |
| Stacking.BlocksPartition | identification/identification.py:146 | every stack position is `size*k + j` for exactly one sample k and offset j |
| Symbolic.Pad | identification/identification.py:151-153 | the padded vector has a leading zero, the state, then two trailing zeros |
| Symbolic.PadRoundTrip | identification/identification.py:151-153 | removing the padding gives the state back |
| Symbolic.UnpadRoundTrip | identification/identification.py:151-153 | a vector zero in the padded places is the padding of its middle |
| Symbolic.DeleteColumns | identification/identification.py:154 | `np.delete` along columns keeps the undropped columns in order |
| Symbolic.KeptFromSpec | identification/identification.py:154 | the kept indices are exactly the undropped ones, strictly increasing |
| Symbolic.Prune | identification/identification.py:154 | the pruned block is 7 x 45, column t being generated column KeptColumn(t) |
| Symbolic.KeptColumnsExact | identification/identification.py:154 | the 45 kept columns are the generated columns other than 1, 4 and 6, each once and in order |
| Estimation.Identify | identification/identification.py:181-271 | as written: a successful identification has N_PARAMS model parameters, one standard parameter per basis row, and dof entries of tauEst per estimated torque vector; with measured torques, `tauMeasured` is every torque record of the file |
| Estimation.IdentifyAligned | identification/identification.py:181-271 | line 271 corrected: the same shapes as `Identify`, with the skipped records dropped from the measured torques |
| Estimation.AlignedAgrees | identification/identification.py:262-271 | the corrected identification fails exactly when the one as written does, agrees with it in every other result, and is identical to it when torques are simulated |
| Estimation.IdentifySucceeds | identification/identification.py:201-227 | on allocated stacks, identification fails (shape error) iff B does not have N_PARAMS rows, or has other than 45 columns with the symbolic regressor |
| Estimation.EstimateRows | identification/identification.py:253-260 | estimated torque k, entry j, is tauEst entry `dof*k + j`, the base regressor row dotted with xBase |
| Estimation.EstimateFilledRows | identification/identification.py:249-251 | with iDynTree's regressor, (YStd·B)·xBase equals YStd·xStd row by row |
| Estimation.SampleEstimate | identification/identification.py:244-260 | sample k's estimated torque is its own block times the identified parameters (xBase for the symbolic block, xStd for iDynTree's) and involves no other sample |
| Estimation.ZeroTorqueEstimate | identification/identification.py:219-244 | with an all-zero torque stack, xBase, xStd and every estimated torque are zero, whatever pinv returns |
| Estimation.ConfiguredIdentifiesZero | identification/identification.py:86-95 | the program as configured identifies zero parameters and estimates zero torques from any file it gets through |
| Estimation.ExactRecovery | identification/identification.py:206-244 | if pinv is a left inverse of Y and tau = Y·x, identification returns x and reproduces tau exactly |
| Estimation.TauMeasuredAsWrittenMisaligned | identification/identification.py:271 | as written, a file with one torque per position record gives 200 more measured torques than estimated ones |
| Estimation.TauMeasured | identification/identification.py:262-271 | with the skipped records dropped, measured torques number rows-200 when not simulating |
| Estimation.TauMeasuredAligned | identification/identification.py:262-271 | in the corrected identification, measured and estimated torques have one entry per sample, and measured entry k is the torque sample k was stacked with |
| Explanation.Pairs | identification/identification.py:286-293 | the loop from line i pairs lines with parameters until the identified ones run out, failing when a parameter vector is too short |
| Explanation.Explain | identification/identification.py:283-293 | the table succeeds iff xStd is non-empty and xStdModel covers min(#lines, len(xStd)) entries (else an IndexError); row i is (model, identified, model - identified, line i) |
| Explanation.RewrittenLines | identification/identification.py:286 | joining the lines gives the rewritten description back; no line holds a line break, "Parameter " or "first moment" |
| Explanation.ExplainDescriptions | identification/identification.py:286-290 | every description in the table is a rewritten, single line |
| Text.Split | identification/identification.py:286 | `str.split` yields at least one piece and no piece holds the separator |
| Text.JoinSplit | identification/identification.py:286 | joining the pieces of a split gives the string back |
| Text.SplitJoin | identification/identification.py:286 | splitting a join of separator-free pieces gives the pieces back |
| Text.ReplaceIdentity | identification/identification.py:286 | `str.replace` leaves a string without the pattern unchanged |
| Text.ReplaceFirst | identification/identification.py:286 | `str.replace` keeps the occurrence-free text before the first occurrence, replaces that occurrence and goes on after it |
| Text.ReplaceAbsent | identification/identification.py:286 | after `str.replace` the pattern no longer occurs, nor does a word absent before, when neither word can begin inside the other |
| LinAlg.Apply | identification/identification.py:219-227 | `np.dot(matrix, vector)` succeeds iff aligned; entry i is row i dotted with the vector |
| LinAlg.Product | identification/identification.py:201 | `np.dot` of two matrices succeeds iff aligned; row i is row i of the left factor times the right |
| LinAlg.MatVecAssoc | identification/identification.py:249-251 | (A·B)·x = A·(B·x) |

## Left out

- Loading the model and measurements (`np.load`, URDF files, argument
  parsing), the timers and all console output: I/O. The measurements file
  is a `Measurements` value.
- The numerics of iDynTree (the regressor, inverse dynamics, the subspace
  basis, the model parameters) and of the generated `idinvbar`: foreign
  code. Each is a parameter giving the values written into the caller's
  buffer.
- `np.linalg.pinv`: floating point. It is a parameter giving a matrix of
  the transposed shape; its LinAlgError on a non-converging SVD
  (identification.py:206, 208) is not modelled, as whether the SVD
  converges is a floating-point property.
- A KeyError for an array missing from the measurements file
  (identification.py:114-122): the file is a `Measurements` value whose
  arrays are always present, possibly empty.
- Real arithmetic is exact: no rounding, NaN or infinity.
- The failure flags of `computeRegressor` and
  `computeFixedBaseIdentifiableSubspace`: the Python only prints a message,
  so the model ignores them.
- The `pinv(YBase)` computed but unused when the symbolic regressor is
  selected: it has no effect on the results.
- `paramsLink2Bary` (identification.py:279-280): a foreign in-place
  conversion. `Explanation.Explain` takes the parameter vectors as they are
  after it.
- The column formatting and printing of the table (identification.py:295-312),
  `plot` and the debugger hook: output only.
- iDynTree's handling of state vectors of the wrong length: foreign code.
  The model passes the record's vectors as read.
- The symbolic inverse dynamics the placeholder stands in for: the source
  does not call it.
- `createNoisyURDF.py` and the excitation controller: outside the
  identification pipeline.

## Findings

| source | as written | input that shows it | evidently intended | confidence | as-written member | corrected member |
|---|---|---|---|---|---|---|
| identification/identification.py:271 | when torques are not simulated, `tauMeasured` is every torque record of the file, the 200 skipped ones included | a file of 300 records with 7-entry torques: 100 estimated torque vectors but 300 measured ones, so `tauMeasured - torquesEst` at line 328 raises a ValueError (shapes (300,7) and (100,7) do not broadcast) before anything is plotted; past it, line 337 would plot 300 rows against the 100 times of line 330 | drop the skipped records, as the plot's time axis `times[start_offset:]` (line 330) does | not executed | Estimation.Identify, Estimation.TauMeasuredAsWritten, Estimation.TauMeasuredAsWrittenMisaligned | Estimation.IdentifyAligned, Estimation.TauMeasured, Estimation.TauMeasuredAligned |
