/**
 * The preconditioned conjugate gradient kernel (`solve_impl` in
 * PreconditionCG.hpp).  The iterate `x` is updated in place and the tag
 * collects a residual history; the loop keeps `r == b - A * x` under exact
 * arithmetic.
 *
 * The C++ loop is `while (true)` and leaves only when the tag's termination
 * test fires; here the number of passes is bounded by a `cap` chosen by the
 * caller.  Where the C++ code would divide by zero (so that every later value
 * is an infinity or a NaN) the model stops with an outcome that names the
 * zero divisor.
 */
module PreconditionedCG {
  import opened LinAlg
  import opened Preconditioners

  /**
   * The solver tag: whether residuals are logged, the residual log itself and
   * the termination test `terminateIteration(iteration, absolute, relative)`,
   * whose body is not part of this model and is therefore a parameter.
   */
  class PcgTag {
    var history: seq<Quotient>
    const logging: bool
    const terminate: (nat, real, Quotient) -> bool

    constructor (logging: bool, terminate: (nat, real, Quotient) -> bool)
      ensures history == [] && this.logging == logging && this.terminate == terminate
    {
      history := [];
      this.logging := logging;
      this.terminate := terminate;
    }

    /** `log_residual`: appends one relative residual. */
    method LogResidual(q: Quotient)
      modifies this
      ensures history == old(history) + [q]
    {
      history := history + [q];
    }
  }

  /** The result of Blaze's `inv(M)`, which throws on a singular matrix. */
  datatype Inversion = Inverted(Minv: Matrix) | NotInvertible

  datatype Outcome =
    | Terminated(iteration: nat)            // `terminateIteration` returned true in pass `iteration`
    | CapReached                            // `cap` passes ran without the test firing
    | ZeroCurvature(iteration: nat)         // `trans(p) * Ap == 0` in pass `iteration`: alpha divides by zero
    | ZeroPreconditionedResidual(iteration: nat) // `trans(z) * r == 0` in pass `iteration`: beta divides by zero
    | SingularPreconditioner                // `inv(D)` or `inv(M)` has no inverse to return
    | SizeMismatch                          // `Minv * r` has mismatched sizes

  predicate IsError(o: Outcome)
  {
    o.SingularPreconditioner? || o.SizeMismatch?
  }

  /** `b - A * x`. */
  function Residual(A: Matrix, b: Vector, x: Vector): (r: Vector)
    requires |A| == |b| && HasColumns(A, |x|)
    ensures |r| == |b|
  {
    Sub(b, MatVec(A, x))
  }

  /** The relative residuals `absolute / absolute_0` in the order they were logged. */
  function RelativeResiduals(absolute: seq<real>, absolute0: real): (log: seq<Quotient>)
    ensures |log| == |absolute|
    ensures forall i :: 0 <= i < |absolute| ==> log[i] == Divide(absolute[i], absolute0)
  {
    if |absolute| == 0 then [] else RelativeResiduals(absolute[..|absolute| - 1], absolute0) + [Divide(absolute[|absolute| - 1], absolute0)]
  }

  /**
   * The tag's log after a run that started from the log `before`: the entry
   * written before the loop, then one entry per completed pass.
   */
  function ExpectedLog(logging: bool, before: seq<Quotient>, absolute0: real, absolute: seq<real>): (log: seq<Quotient>)
    ensures logging ==> |log| == |before| + |absolute| + 1 && log[|before|] == Divide(absolute0, absolute0)
    ensures logging ==> log[..|before|] == before
    ensures logging && absolute0 != 0.0 ==> log[|before|] == Finite(1.0)
    ensures !logging ==> log == before
  {
    if logging then before + [Divide(absolute0, absolute0)] + RelativeResiduals(absolute, absolute0) else before
  }

  /** One more completed pass appends exactly its relative residual, and only when logging. */
  lemma ExpectedLogPass(logging: bool, before: seq<Quotient>, absolute0: real, absolute: seq<real>, a: real)
    ensures ExpectedLog(logging, before, absolute0, absolute + [a])
         == ExpectedLog(logging, before, absolute0, absolute) + (if logging then [Divide(a, absolute0)] else [])
  {
    assert (absolute + [a])[..|absolute|] == absolute;
  }

  /**
   * The pair of updates `x += alpha * p; r -= alpha * Ap` keeps `r` the
   * residual of `x` when `Ap == A * p`.
   */
  lemma ResidualUpdate(A: Matrix, b: Vector, x: Vector, alpha: real, p: Vector)
    requires |A| == |b| && |x| == |p| && HasColumns(A, |x|)
    ensures Residual(A, b, Add(x, Scale(alpha, p))) == Sub(Residual(A, b, x), Scale(alpha, MatVec(A, p)))
  {
    MatVecAxpy(A, x, alpha, p);
    var lhs := Residual(A, b, Add(x, Scale(alpha, p)));
    var rhs := Sub(Residual(A, b, x), Scale(alpha, MatVec(A, p)));
    forall i | 0 <= i < |b|
      ensures lhs[i] == rhs[i]
    {
    }
  }

  /** Logs the relative residual of one completed pass, when the tag logs. */
  method LogPass(tag: PcgTag, ghost before: seq<Quotient>, absolute0: real, ghost absolute: seq<real>, a: real)
    requires tag.history == ExpectedLog(tag.logging, before, absolute0, absolute)
    modifies tag
    ensures tag.history == ExpectedLog(tag.logging, before, absolute0, absolute + [a])
  {
    ExpectedLogPass(tag.logging, before, absolute0, absolute, a);
    if tag.logging {
      tag.LogResidual(Divide(a, absolute0));
    }
  }

  // ------------------------------------------------------------ the recurrence

  /** The vectors the loop carries from one pass to the next. */
  datatype PcgState = PcgState(x: Vector, r: Vector, z: Vector, p: Vector)

  /** The loop's vectors after some number of passes, unless a pass divided by zero. */
  datatype Run = Continued(state: PcgState) | DividedByZero

  predicate Sized(s: PcgState, n: nat)
  {
    |s.x| == n && |s.r| == n && |s.z| == n && |s.p| == n
  }

  /** The state before the first pass: `r = b - A * x`, `z = Minv * r`, `p(z)`. */
  function Initial(A: Matrix, b: Vector, Minv: Matrix, x0: Vector): (s: PcgState)
    requires IsSquare(A, |b|) && |x0| == |b| && IsSquare(Minv, |b|)
    ensures Sized(s, |b|) && s.x == x0 && s.r == Residual(A, b, x0)
    ensures s.z == MatVec(Minv, s.r) && s.p == s.z
  {
    var r := Residual(A, b, x0);
    PcgState(x0, r, MatVec(Minv, r), MatVec(Minv, r))
  }

  /** `trans(p) * Ap`, the divisor of `alpha`. */
  function Curvature(A: Matrix, s: PcgState): real
    requires IsSquare(A, |A|) && Sized(s, |A|)
  {
    Dot(s.p, MatVec(A, s.p))
  }

  /**
   * The first half of a pass, `x += alpha * p; r -= alpha * Ap` with
   * `alpha = trans(r) * z / (trans(p) * Ap)`; `z` and `p` are not touched.
   */
  function Update(A: Matrix, s: PcgState): (u: PcgState)
    requires IsSquare(A, |A|) && Sized(s, |A|) && Curvature(A, s) != 0.0
    ensures Sized(u, |A|) && u.z == s.z && u.p == s.p
  {
    var Ap := MatVec(A, s.p);
    var alpha := Dot(s.r, s.z) / Dot(s.p, Ap);
    PcgState(Add(s.x, Scale(alpha, s.p)), Sub(s.r, Scale(alpha, Ap)), s.z, s.p)
  }

  /**
   * A whole pass: the update, then `z = Minv * r` and `p = z + beta * p` with
   * `beta = trans(z) * r / precondition_residual_prev`.  A pass whose `alpha`
   * or `beta` divides by zero does not continue.
   */
  function Pass(A: Matrix, Minv: Matrix, s: PcgState): (next: Run)
    requires IsSquare(A, |A|) && IsSquare(Minv, |A|) && Sized(s, |A|)
    ensures next.Continued? ==> Sized(next.state, |A|)
  {
    if Curvature(A, s) == 0.0 || Dot(s.z, s.r) == 0.0 then DividedByZero
    else
      var u := Update(A, s);
      var z := MatVec(Minv, u.r);
      Continued(PcgState(u.x, u.r, z, Add(z, Scale(Dot(z, u.r) / Dot(s.z, s.r), s.p))))
  }

  /** The state after `k` whole passes from the iterate `x0`. */
  function PcgRun(A: Matrix, b: Vector, Minv: Matrix, x0: Vector, k: nat): (run: Run)
    requires IsSquare(A, |b|) && |x0| == |b| && IsSquare(Minv, |b|)
    ensures run.Continued? ==> Sized(run.state, |b|)
  {
    if k == 0 then Continued(Initial(A, b, Minv, x0))
    else
      var before := PcgRun(A, b, Minv, x0, k - 1);
      if before.DividedByZero? then DividedByZero else Pass(A, Minv, before.state)
  }

  /** The update keeps `r` the residual `b - A * x` of the new `x`. */
  lemma UpdateResidual(A: Matrix, b: Vector, s: PcgState)
    requires IsSquare(A, |b|) && Sized(s, |b|) && Curvature(A, s) != 0.0
    requires s.r == Residual(A, b, s.x)
    ensures Update(A, s).r == Residual(A, b, Update(A, s).x)
  {
    ResidualUpdate(A, b, s.x, Dot(s.r, s.z) / Curvature(A, s), s.p);
  }

  /** Along the whole run, `r` is the residual of `x`. */
  lemma {:induction false} RunResidual(A: Matrix, b: Vector, Minv: Matrix, x0: Vector, k: nat)
    requires IsSquare(A, |b|) && |x0| == |b| && IsSquare(Minv, |b|)
    ensures var run := PcgRun(A, b, Minv, x0, k);
            run.Continued? ==> run.state.r == Residual(A, b, run.state.x)
  {
    if k > 0 {
      RunResidual(A, b, Minv, x0, k - 1);
      var before := PcgRun(A, b, Minv, x0, k - 1);
      if before.Continued? && Pass(A, Minv, before.state).Continued? {
        UpdateResidual(A, b, before.state);
      }
    }
  }

  /**
   * When `trans(p) * r == trans(z) * r`, the update makes the new residual
   * orthogonal to the direction `p` it moved along: `alpha` is exactly the
   * step that cancels `trans(p) * r`.
   */
  lemma UpdateOrthogonal(A: Matrix, s: PcgState)
    requires IsSquare(A, |A|) && Sized(s, |A|) && Curvature(A, s) != 0.0
    requires Dot(s.p, s.r) == Dot(s.z, s.r)
    ensures Dot(s.p, Update(A, s).r) == 0.0
  {
    var Ap := MatVec(A, s.p);
    var alpha := Dot(s.r, s.z) / Dot(s.p, Ap);
    DotSub(s.p, s.r, Scale(alpha, Ap));
    DotScale(s.p, alpha, Ap);
    DotSymmetric(s.r, s.z);
  }

  /**
   * A whole pass keeps `trans(p) * r == trans(z) * r`: the new `p` is the new
   * `z` plus a multiple of the old `p`, which the new `r` is orthogonal to.
   */
  lemma PassConjugacy(A: Matrix, Minv: Matrix, s: PcgState)
    requires IsSquare(A, |A|) && IsSquare(Minv, |A|) && Sized(s, |A|)
    requires Dot(s.p, s.r) == Dot(s.z, s.r)
    ensures var next := Pass(A, Minv, s);
            next.Continued? ==> Dot(next.state.p, next.state.r) == Dot(next.state.z, next.state.r)
  {
    if Pass(A, Minv, s).Continued? {
      var u := Update(A, s);
      UpdateOrthogonal(A, s);
      var z := MatVec(Minv, u.r);
      var beta := Dot(z, u.r) / Dot(s.z, s.r);
      DotSymmetric(Add(z, Scale(beta, s.p)), u.r);
      DotAdd(u.r, z, Scale(beta, s.p));
      DotScale(u.r, beta, s.p);
      DotSymmetric(u.r, s.p);
      DotSymmetric(u.r, z);
    }
  }

  /**
   * Along the whole run `trans(p) * r == trans(z) * r`, so every update
   * leaves a residual orthogonal to the direction it used.
   */
  lemma {:induction false} RunOrthogonal(A: Matrix, b: Vector, Minv: Matrix, x0: Vector, k: nat)
    requires IsSquare(A, |b|) && |x0| == |b| && IsSquare(Minv, |b|)
    ensures var run := PcgRun(A, b, Minv, x0, k);
            run.Continued? ==> Dot(run.state.p, run.state.r) == Dot(run.state.z, run.state.r)
    ensures var run := PcgRun(A, b, Minv, x0, k);
            run.Continued? && Curvature(A, run.state) != 0.0 ==> Dot(run.state.p, Update(A, run.state).r) == 0.0
  {
    var run := PcgRun(A, b, Minv, x0, k);
    if k > 0 {
      RunOrthogonal(A, b, Minv, x0, k - 1);
      var before := PcgRun(A, b, Minv, x0, k - 1);
      if before.Continued? {
        PassConjugacy(A, Minv, before.state);
      }
    }
    if run.Continued? && Curvature(A, run.state) != 0.0 {
      UpdateOrthogonal(A, run.state);
    }
  }

  /**
   * `alpha = trans(r) * z / (trans(p) * Ap); x += alpha * p; r -= alpha * Ap`:
   * the update of the recurrence, applied to `x` in place.
   */
  method Descend(x: DenseVector, A: Matrix, b: Vector, r: Vector, z: Vector, p: Vector, Ap: Vector, curvature: real)
    returns (r': Vector)
    requires IsSquare(A, |b|) && Sized(PcgState(x.values, r, z, p), |b|)
    requires r == Residual(A, b, x.values) && Ap == MatVec(A, p) && curvature == Dot(p, Ap) && curvature != 0.0
    modifies x
    ensures x.values == Update(A, PcgState(old(x.values), r, z, p)).x
    ensures r' == Update(A, PcgState(old(x.values), r, z, p)).r && r' == Residual(A, b, x.values)
  {
    var alpha := Dot(r, z) / curvature;
    ResidualUpdate(A, b, x.values, alpha, p);
    x.values := Add(x.values, Scale(alpha, p));
    r' := Sub(r, Scale(alpha, Ap));
  }

  /**
   * `beta = trans(z) * r / precondition_residual_prev; p = z + beta * p`, once
   * `z = Minv * r` has been formed: this completes pass `k` of the recurrence.
   */
  method Redirect(A: Matrix, Minv: Matrix, ghost s: PcgState, x: Vector, r: Vector, z: Vector, p: Vector, previous: real)
    returns (p': Vector)
    requires IsSquare(A, |A|) && IsSquare(Minv, |A|) && Sized(s, |A|) && Curvature(A, s) != 0.0
    requires x == Update(A, s).x && r == Update(A, s).r && z == MatVec(Minv, r) && p == s.p
    requires previous == Dot(s.z, s.r) && previous != 0.0
    ensures Pass(A, Minv, s) == Continued(PcgState(x, r, z, p'))
  {
    var beta := Dot(z, r) / previous;
    p' := Add(z, Scale(beta, p));
  }

  /**
   * `trace[i]` is the state after `i` passes: the trace starts from the
   * initial state and each state is the pass of the one before it.
   */
  ghost predicate IsTrace(A: Matrix, b: Vector, Minv: Matrix, x0: Vector, trace: seq<PcgState>)
    requires IsSquare(A, |b|) && |x0| == |b| && IsSquare(Minv, |b|)
  {
    && |trace| > 0 && trace[0] == Initial(A, b, Minv, x0)
    && (forall i :: 0 <= i < |trace| ==> Sized(trace[i], |b|))
    && (forall i {:trigger Pass(A, Minv, trace[i])} ::
          0 <= i < |trace| - 1 ==> Pass(A, Minv, trace[i]) == Continued(trace[i + 1]))
  }

  lemma TraceExtend(A: Matrix, b: Vector, Minv: Matrix, x0: Vector, trace: seq<PcgState>, next: PcgState)
    requires IsSquare(A, |b|) && |x0| == |b| && IsSquare(Minv, |b|) && IsTrace(A, b, Minv, x0, trace)
    requires Pass(A, Minv, trace[|trace| - 1]) == Continued(next)
    ensures IsTrace(A, b, Minv, x0, trace + [next])
  {
    var extended := trace + [next];
    assert forall i :: 0 <= i < |trace| ==> extended[i] == trace[i];
  }

  /** A trace lists the states of the run. */
  lemma {:induction false} TraceRun(A: Matrix, b: Vector, Minv: Matrix, x0: Vector, trace: seq<PcgState>, k: nat)
    requires IsSquare(A, |b|) && |x0| == |b| && IsSquare(Minv, |b|) && IsTrace(A, b, Minv, x0, trace)
    requires k < |trace|
    ensures PcgRun(A, b, Minv, x0, k) == Continued(trace[k])
  {
    if k > 0 {
      TraceRun(A, b, Minv, x0, trace, k - 1);
    }
  }

  /**
   * Each of the first `passes` passes logged `trans(r) * r` of the `r` it
   * left, which the next state of the trace holds.
   */
  ghost predicate LoggedAlong(trace: seq<PcgState>, residuals: seq<real>, passes: nat)
    requires passes < |trace| && passes <= |residuals|
  {
    forall i {:trigger residuals[i]} :: 0 <= i < passes ==> residuals[i] == Dot(trace[i + 1].r, trace[i + 1].r)
  }

  /** A value logged after the first `passes` leaves what they logged alone. */
  lemma LoggedKeep(trace: seq<PcgState>, residuals: seq<real>, passes: nat, a: real)
    requires passes < |trace| && passes <= |residuals| && LoggedAlong(trace, residuals, passes)
    ensures LoggedAlong(trace, residuals + [a], passes)
  {
    var extended := residuals + [a];
    forall i | 0 <= i < passes
      ensures extended[i] == Dot(trace[i + 1].r, trace[i + 1].r)
    {
      var logged := residuals[i];
      assert extended[i] == logged;
    }
  }

  /** Appending the state a pass reached to the trace covers the value that pass logged. */
  lemma LoggedExtend(trace: seq<PcgState>, next: PcgState, residuals: seq<real>)
    requires 0 < |trace| == |residuals| && LoggedAlong(trace, residuals, |trace| - 1)
    requires residuals[|trace| - 1] == Dot(next.r, next.r)
    ensures LoggedAlong(trace + [next], residuals, |trace|)
  {
    var extended := trace + [next];
    forall i | 0 <= i < |trace|
      ensures residuals[i] == Dot(extended[i + 1].r, extended[i + 1].r)
    {
      var logged := residuals[i];
      if i < |trace| - 1 {
        assert extended[i + 1] == trace[i + 1];
      } else {
        assert extended[i + 1] == next;
      }
    }
  }

  /**
   * Entry `i` of `residuals` is `trans(r) * r` for the `r` of the recurrence
   * after `i` passes and the update of pass `i`: the value line 133 computes
   * and lines 136 and 139 use.
   */
  ghost predicate LoggedRun(A: Matrix, b: Vector, Minv: Matrix, x0: Vector, residuals: seq<real>)
    requires IsSquare(A, |b|) && |x0| == |b| && IsSquare(Minv, |b|)
  {
    forall i :: 0 <= i < |residuals| ==>
      var run := PcgRun(A, b, Minv, x0, i);
      run.Continued? && Curvature(A, run.state) != 0.0 &&
      residuals[i] == Dot(Update(A, run.state).r, Update(A, run.state).r)
  }

  /**
   * What the passes from the states of a trace compute is what the
   * recurrence computes; every pass but the last one of the trace made its
   * update, and so did the last one if it logged.
   */
  lemma TraceLogged(A: Matrix, b: Vector, Minv: Matrix, x0: Vector, trace: seq<PcgState>, residuals: seq<real>)
    requires IsSquare(A, |b|) && |x0| == |b| && IsSquare(Minv, |b|) && IsTrace(A, b, Minv, x0, trace)
    requires |trace| - 1 <= |residuals| <= |trace| && LoggedAlong(trace, residuals, |trace| - 1)
    requires var last := trace[|trace| - 1];
             |residuals| == |trace| ==>
               Curvature(A, last) != 0.0 &&
               residuals[|trace| - 1] == Dot(Residual(A, b, Update(A, last).x), Residual(A, b, Update(A, last).x))
    ensures LoggedRun(A, b, Minv, x0, residuals)
  {
    forall i | 0 <= i < |residuals|
      ensures PcgRun(A, b, Minv, x0, i) == Continued(trace[i]) && Curvature(A, trace[i]) != 0.0
      ensures residuals[i] == Dot(Update(A, trace[i]).r, Update(A, trace[i]).r)
    {
      TraceRun(A, b, Minv, x0, trace, i);
      if i < |trace| - 1 {
        assert Pass(A, Minv, trace[i]) == Continued(trace[i + 1]);
        var logged := residuals[i];
      } else {
        RunResidual(A, b, Minv, x0, i);
        UpdateResidual(A, b, trace[i]);
      }
    }
  }

  /** How many whole passes the loop completed before it stopped with `outcome`. */
  function CompletedPasses(outcome: Outcome, cap: nat): nat
  {
    match outcome
    case Terminated(i) => i
    case ZeroCurvature(i) => i
    case ZeroPreconditionedResidual(i) => i
    case CapReached => cap
    case SingularPreconditioner => 0
    case SizeMismatch => 0
  }

  /**
   * The iterate the loop leaves behind is the one the recurrence computes:
   * the state after the completed passes, advanced by the update of the pass
   * that stopped the loop when that pass got past `x += alpha * p`.
   */
  ghost predicate FollowsRun(A: Matrix, b: Vector, Minv: Matrix, x0: Vector, x: Vector,
                             cap: nat, outcome: Outcome)
    requires IsSquare(A, |b|) && |x0| == |b| && IsSquare(Minv, |b|)
  {
    var run := PcgRun(A, b, Minv, x0, CompletedPasses(outcome, cap));
    && run.Continued?
    && (outcome.ZeroCurvature? ==> Curvature(A, run.state) == 0.0 && x == run.state.x)
    && (outcome.CapReached? ==> x == run.state.x)
    && (outcome.Terminated? || outcome.ZeroPreconditionedResidual? ==>
          Curvature(A, run.state) != 0.0 && x == Update(A, run.state).x)
    && (outcome.ZeroPreconditionedResidual? ==> Dot(run.state.z, run.state.r) == 0.0)
  }

  /**
   * `solve_impl`: builds `M` from the preconditioner name (starting from the
   * empty matrix a default-constructed `M` holds), inverts it with `inverse`,
   * and runs the iteration on `x`.  The ghost result `residuals` lists
   * `trans(r) * r` after each completed pass.  The name defaults to `""` in
   * the source, so a call without one, such as the plain `solve(A, b, tag)`,
   * builds the incomplete Cholesky preconditioner.
   */
  method Solve(x: DenseVector, A: Matrix, b: Vector, tag: PcgTag, name: string, factor: Matrix,
               inverse: Matrix -> Inversion, cap: nat)
    returns (outcome: Outcome, ghost residuals: seq<real>)
    requires IsSquare(A, |b|) && Symmetric(A) && |x.values| == |b| && IsSquare(factor, |b|)
    modifies x, tag
    ensures |x.values| == |b|
    // the two ways of failing before the loop
    ensures var sel := PreconditionerMatrix(name, A, factor, []);
            outcome.SingularPreconditioner? <==> sel.SingularDiagonal? || inverse(sel.M).NotInvertible?
    ensures var sel := PreconditionerMatrix(name, A, factor, []);
            outcome.SizeMismatch? <==>
              sel.Built? && inverse(sel.M).Inverted? && !IsSquare(inverse(sel.M).Minv, |b|)
    ensures IsError(outcome) ==> x.values == old(x.values) && tag.history == old(tag.history) && residuals == []
    ensures !IsError(outcome) ==> IterationResult(A, b, old(x.values), x.values, tag.terminate, cap, outcome, residuals)
    // the iterate is the recurrence's, with `Minv` the inverse of the selected preconditioner
    ensures var sel := PreconditionerMatrix(name, A, factor, []);
            !IsError(outcome) ==>
              sel.Built? && inverse(sel.M).Inverted? &&
              FollowsRun(A, b, inverse(sel.M).Minv, old(x.values), x.values, cap, outcome) &&
              LoggedRun(A, b, inverse(sel.M).Minv, old(x.values), residuals)
    ensures var r0 := Residual(A, b, old(x.values));
            tag.history == ExpectedLog(tag.logging && !IsError(outcome), old(tag.history), Dot(r0, r0), residuals)
  {
    residuals := [];
    var selection := PreconditionerMatrix(name, A, factor, []);
    if selection.SingularDiagonal? {
      return SingularPreconditioner, residuals;
    }
    var inversion := inverse(selection.M);
    if inversion.NotInvertible? {
      return SingularPreconditioner, residuals;
    }
    if !IsSquare(inversion.Minv, |b|) {
      return SizeMismatch, residuals;
    }
    outcome, residuals := Iterate(x, A, b, tag, inversion.Minv, cap);
  }

  /**
   * What the loop guarantees once it has stopped, for the iterate `x0` it
   * started from and the iterate `x` it left behind.
   */
  ghost predicate IterationResult(A: Matrix, b: Vector, x0: Vector, x: Vector,
                                  terminate: (nat, real, Quotient) -> bool, cap: nat,
                                  outcome: Outcome, residuals: seq<real>)
    requires IsSquare(A, |b|) && |x0| == |b| && |x| == |b|
  {
    var r0 := Residual(A, b, x0);
    var a0 := Dot(r0, r0);
    && !IsError(outcome)
    // how many passes completed
    && (outcome.Terminated? ==> |residuals| == outcome.iteration + 1)
    && (outcome.CapReached? ==> |residuals| == cap)
    && (outcome.ZeroCurvature? ==> |residuals| == outcome.iteration < cap)
    && (outcome.ZeroPreconditionedResidual? ==> |residuals| == outcome.iteration + 1)
    // the residual invariant, as seen from the last logged value
    && (|residuals| == 0 ==> x == x0)
    && (|residuals| > 0 ==> residuals[|residuals| - 1] == Dot(Residual(A, b, x), Residual(A, b, x)))
    // the termination test: false in every earlier pass, true in the last one when it ended the loop
    && NeverTerminated(terminate, residuals, a0, if outcome.Terminated? then outcome.iteration else |residuals|)
    && (outcome.Terminated? ==>
          terminate(outcome.iteration, residuals[outcome.iteration], Divide(residuals[outcome.iteration], a0)))
  }

  /** `terminateIteration` returned false in each of the first `passes` passes. */
  ghost predicate NeverTerminated(terminate: (nat, real, Quotient) -> bool, residuals: seq<real>, a0: real, passes: nat)
    requires passes <= |residuals|
  {
    forall i :: 0 <= i < passes ==> !terminate(i, residuals[i], Divide(residuals[i], a0))
  }

  lemma NeverTerminatedExtend(terminate: (nat, real, Quotient) -> bool, residuals: seq<real>, a0: real, a: real)
    requires NeverTerminated(terminate, residuals, a0, |residuals|)
    ensures NeverTerminated(terminate, residuals + [a], a0, |residuals|)
    ensures !terminate(|residuals|, a, Divide(a, a0)) ==> NeverTerminated(terminate, residuals + [a], a0, |residuals| + 1)
  {
    var extended := residuals + [a];
    assert forall i :: 0 <= i < |residuals| ==> extended[i] == residuals[i];
  }

  /** The loop stopped at pass `k` of the run, in one of the ways `outcome` names. */
  lemma StoppedAt(A: Matrix, b: Vector, Minv: Matrix, x0: Vector, x: Vector, cap: nat, outcome: Outcome,
                  trace: seq<PcgState>, s: PcgState)
    requires IsSquare(A, |b|) && |x0| == |b| && IsSquare(Minv, |b|) && IsTrace(A, b, Minv, x0, trace)
    requires s == trace[|trace| - 1] && CompletedPasses(outcome, cap) == |trace| - 1
    requires outcome.ZeroCurvature? ==> Curvature(A, s) == 0.0 && x == s.x
    requires outcome.CapReached? ==> x == s.x
    requires outcome.Terminated? || outcome.ZeroPreconditionedResidual? ==> Curvature(A, s) != 0.0 && x == Update(A, s).x
    requires outcome.ZeroPreconditionedResidual? ==> Dot(s.z, s.r) == 0.0
    ensures FollowsRun(A, b, Minv, x0, x, cap, outcome)
  {
    TraceRun(A, b, Minv, x0, trace, |trace| - 1);
  }

  /** The `while (true)` loop of `solve_impl` with the inverted preconditioner `Minv`. */
  method Iterate(x: DenseVector, A: Matrix, b: Vector, tag: PcgTag, Minv: Matrix, cap: nat)
    returns (outcome: Outcome, ghost residuals: seq<real>)
    requires IsSquare(A, |b|) && |x.values| == |b| && IsSquare(Minv, |b|)
    modifies x, tag
    ensures |x.values| == |b|
    ensures IterationResult(A, b, old(x.values), x.values, tag.terminate, cap, outcome, residuals)
    ensures FollowsRun(A, b, Minv, old(x.values), x.values, cap, outcome)
    ensures LoggedRun(A, b, Minv, old(x.values), residuals)
    ensures var r0 := Residual(A, b, old(x.values));
            tag.history == ExpectedLog(tag.logging, old(tag.history), Dot(r0, r0), residuals)
  {
    ghost var trace;
    outcome, residuals, trace := Loop(x, A, b, tag, Minv, cap);
    TraceLogged(A, b, Minv, old(x.values), trace, residuals);
    StoppedAt(A, b, Minv, old(x.values), x.values, cap, outcome, trace, trace[|trace| - 1]);
  }

  /**
   * Lines 127-137 of pass `|residuals|`: the update of `x` and `r`, then
   * `absolute_residual = trans(r) * r`, logged when the tag logs.
   */
  method Measure(x: DenseVector, A: Matrix, b: Vector, tag: PcgTag, ghost residuals: seq<real>,
                 r: Vector, z: Vector, p: Vector, Ap: Vector, curvature: real, absolute0: real, ghost history0: seq<Quotient>)
    returns (r': Vector, absolute: real)
    requires IsSquare(A, |b|) && Sized(PcgState(x.values, r, z, p), |b|)
    requires r == Residual(A, b, x.values) && Ap == MatVec(A, p) && curvature == Dot(p, Ap) && curvature != 0.0
    requires tag.history == ExpectedLog(tag.logging, history0, absolute0, residuals)
    requires NeverTerminated(tag.terminate, residuals, absolute0, |residuals|)
    modifies x, tag
    ensures x.values == Update(A, PcgState(old(x.values), r, z, p)).x
    ensures r' == Update(A, PcgState(old(x.values), r, z, p)).r && r' == Residual(A, b, x.values) && absolute == Dot(r', r')
    ensures tag.history == ExpectedLog(tag.logging, history0, absolute0, residuals + [absolute])
    ensures NeverTerminated(tag.terminate, residuals + [absolute], absolute0, |residuals|)
    ensures !tag.terminate(|residuals|, absolute, Divide(absolute, absolute0)) ==>
              NeverTerminated(tag.terminate, residuals + [absolute], absolute0, |residuals| + 1)
  {
    r' := Descend(x, A, b, r, z, p, Ap, curvature);
    absolute := Dot(r', r');
    LogPass(tag, history0, absolute0, residuals, absolute);
    NeverTerminatedExtend(tag.terminate, residuals, absolute0, absolute);
  }

  /**
   * The loop itself.  The ghost result `trace` lists the loop's vectors at
   * the start of each pass, and the last of them is where it stopped.
   */
  method Loop(x: DenseVector, A: Matrix, b: Vector, tag: PcgTag, Minv: Matrix, cap: nat)
    returns (outcome: Outcome, ghost residuals: seq<real>, ghost trace: seq<PcgState>)
    requires IsSquare(A, |b|) && |x.values| == |b| && IsSquare(Minv, |b|)
    modifies x, tag
    ensures |x.values| == |b|
    ensures IterationResult(A, b, old(x.values), x.values, tag.terminate, cap, outcome, residuals)
    ensures var r0 := Residual(A, b, old(x.values));
            tag.history == ExpectedLog(tag.logging, old(tag.history), Dot(r0, r0), residuals)
    ensures IsTrace(A, b, Minv, old(x.values), trace) && CompletedPasses(outcome, cap) == |trace| - 1
    ensures |trace| - 1 <= |residuals| <= |trace| && LoggedAlong(trace, residuals, |trace| - 1)
    ensures var s := trace[|trace| - 1];
            && (outcome.ZeroCurvature? ==> Curvature(A, s) == 0.0 && x.values == s.x)
            && (outcome.CapReached? ==> x.values == s.x)
            && (outcome.Terminated? || outcome.ZeroPreconditionedResidual? ==>
                  Curvature(A, s) != 0.0 && x.values == Update(A, s).x)
            && (outcome.ZeroPreconditionedResidual? ==> Dot(s.z, s.r) == 0.0)
  {
    var n := |b|;
    residuals := [];
    ghost var x0 := x.values;
    var r := Residual(A, b, x.values);
    var z := MatVec(Minv, r);
    var p := z;
    var absolute0 := Dot(r, r);
    var absolute := absolute0;
    if tag.logging {
      tag.LogResidual(Divide(absolute, absolute0));
    }
    ghost var history0 := old(tag.history);

    var iteration: nat := 0;
    trace := [PcgState(x.values, r, z, p)];
    outcome := CapReached;
    while iteration < cap
      invariant outcome == CapReached
      invariant |x.values| == n && |r| == n && |z| == n && |p| == n
      invariant r == Residual(A, b, x.values)
      invariant absolute0 == Dot(Residual(A, b, x0), Residual(A, b, x0))
      invariant |residuals| == iteration <= cap
      invariant iteration == 0 ==> x.values == x0
      invariant IsTrace(A, b, Minv, x0, trace) && |trace| == iteration + 1
      invariant trace[iteration] == PcgState(x.values, r, z, p)
      invariant iteration > 0 ==> residuals[iteration - 1] == Dot(r, r)
      invariant LoggedAlong(trace, residuals, iteration)
      invariant NeverTerminated(tag.terminate, residuals, absolute0, iteration)
      invariant tag.history == ExpectedLog(tag.logging, history0, absolute0, residuals)
    {
      var Ap := MatVec(A, p);
      var curvature := Dot(p, Ap);
      if curvature == 0.0 {
        outcome := ZeroCurvature(iteration);
        break;
      }
      ghost var s := PcgState(x.values, r, z, p);
      var previous := Dot(z, r);
      r, absolute := Measure(x, A, b, tag, residuals, r, z, p, Ap, curvature, absolute0, history0);
      LoggedKeep(trace, residuals, iteration, absolute);
      residuals := residuals + [absolute];
      if tag.terminate(iteration, absolute, Divide(absolute, absolute0)) {
        outcome := Terminated(iteration);
        break;
      }

      z := MatVec(Minv, r);
      if previous == 0.0 {
        outcome := ZeroPreconditionedResidual(iteration);
        break;
      }
      p := Redirect(A, Minv, s, x.values, r, z, p, previous);
      TraceExtend(A, b, Minv, x0, trace, PcgState(x.values, r, z, p));
      LoggedExtend(trace, PcgState(x.values, r, z, p), residuals);
      trace := trace + [PcgState(x.values, r, z, p)];
      iteration := iteration + 1;
    }
  }
}
