/** Failure-carrying results for the identification pipeline.

    The Python program signals every failure by raising an exception (numpy's
    ValueError on a shape mismatch, IndexError on a missing row, ...).  Here
    each such exception becomes a `Failure` carrying the kind of error. */
module Results {

  /** The exceptions the modelled code can raise. */
  datatype Error =
    | NegativeDimension       // np.empty asked for a negative row count
    | MissingRecord(row: nat) // a measurement array has no entry at `row`
    | BlockShape(row: nat)    // np.copyto could not broadcast a regressor block
    | TorqueShape(row: nat)   // np.copyto could not broadcast a torque vector
    | ProductShape            // np.dot was given non-aligned operands
    | ZeroChunk               // `i % N_DOFS` with N_DOFS == 0
    | ShortVector             // an index past the end of a vector

  datatype Result<+T> = Success(value: T) | Failure(error: Error) {

    predicate IsFailure() {
      Failure?
    }

    function PropagateFailure<U>(): Result<U>
      requires Failure?
    {
      Failure(error)
    }

    function Extract(): T
      requires Success?
    {
      value
    }
  }

  /** Running steps 0, 1, ..., n-1 in order, stopping at the first failure,
      as a loop whose body may raise. */
  function Iterate<T>(f: nat -> Result<T>, n: nat): (r: Result<seq<T>>)
    ensures r.Success? ==> |r.value| == n
    ensures r.Success? ==> forall k | 0 <= k < n :: f(k) == Success(r.value[k])
    ensures r.Success? <==> forall k | 0 <= k < n :: f(k).Success?
  {
    if n == 0 then Success([])
    else
      var prev :- Iterate(f, n - 1);
      var x :- f(n - 1);
      Success(prev + [x])
  }

  /** One more successful step extends the results. */
  lemma IterateStep<T>(f: nat -> Result<T>, k: nat, x: T)
    requires Iterate(f, k).Success? && f(k) == Success(x)
    ensures Iterate(f, k + 1) == Success(Iterate(f, k).value + [x])
  {
  }

  /** A failed step is the failure of every longer run. */
  lemma {:induction false} IterateStops<T>(f: nat -> Result<T>, k: nat, n: nat)
    requires k <= n && Iterate(f, k).Failure?
    ensures Iterate(f, n) == Iterate(f, k)
    decreases n - k
  {
    if k < n {
      IterateStops(f, k, n - 1);
    }
  }

  /** A failed run reports the error of its first failing step. */
  lemma {:induction false} IterateFirstError<T>(f: nat -> Result<T>, n: nat)
    requires Iterate(f, n).Failure?
    ensures exists k | 0 <= k < n ::
      f(k) == Failure(Iterate(f, n).error) && forall i | 0 <= i < k :: f(i).Success?
  {
    if Iterate(f, n - 1).Failure? {
      IterateFirstError(f, n - 1);
    } else {
      assert f(n - 1) == Failure(Iterate(f, n).error);
    }
  }
}
