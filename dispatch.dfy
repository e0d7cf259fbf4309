/**
 * The entry points of solve.hpp.  `solve_inplace` checks the dimensions of
 * its arguments and hands the caller's `x` to the solver selected by the tag;
 * `solve` allocates a zero initial guess and runs `solve_inplace` on it.
 *
 * Which `detail::solve_impl` the tag selects is decided at compile time in
 * C++; here the tag carries it as a function from the request to its effect:
 * the final contents of `x` and the entries the solver appends to the tag's
 * residual log.
 */
module Dispatch {
  import opened LinAlg

  /** The overload called, with the arguments it forwards to the solver. */
  datatype Request =
    | Plain(x: Vector, A: Matrix, b: Vector)
    | WithPreconditioner(x: Vector, A: Matrix, b: Vector, name: string)
    | Subspace(x: Vector, A: Matrix, b: Vector, n: nat)

  /** What one solver call leaves behind: the new `x` and what it logged. */
  datatype Effect = Effect(x: Vector, logged: seq<Quotient>)

  /** The dynamic type of the tag, as the `typeid` comparisons of the Krylov `solve` see it. */
  datatype TagKind = ArnoldiTag | LanczosTag | OtherTag

  /** A solver tag: its kind, the solver it selects and its residual log. */
  class IterativeTag {
    const kind: TagKind
    const kernel: Request -> Effect
    var history: seq<Quotient>

    constructor (kind: TagKind, kernel: Request -> Effect)
      ensures this.kind == kind && this.kernel == kernel && history == []
    {
      this.kind := kind;
      this.kernel := kernel;
      history := [];
    }

    /** `detail::solve_impl`: the solver runs on `x` and appends to the log. */
    method Run(x: DenseVector, request: Request)
      modifies x, this
      ensures x.values == kernel(request).x
      ensures history == old(history) + kernel(request).logged
    {
      var effect := kernel(request);
      x.values := effect.x;
      history := history + effect.logged;
    }
  }

  /**
   * The assertions of the plain and the preconditioned `solve_inplace`:
   * `A.columns() == b.size()`, `x.size() == b.size()`, `A.rows() == A.columns()`.
   */
  predicate PlainChecks(A: Matrix, b: Vector, size: nat)
  {
    HasColumns(A, |b|) && size == |b| && |A| == |b|
  }

  /** The assertions of the Krylov `solve_inplace`: `A.columns() == b.size()` and `n >= 1`. */
  predicate SubspaceChecks(A: Matrix, b: Vector, n: nat)
  {
    HasColumns(A, |b|) && n >= 1
  }

  /** The plain checks are exactly "`A` is square of `b`'s size and so is `x`". */
  lemma PlainChecksSquare(A: Matrix, b: Vector, size: nat)
    ensures PlainChecks(A, b, size) <==> IsSquare(A, |b|) && size == |b|
  {
  }

  /**
   * The Krylov overload checks less: every admissible plain call is an
   * admissible Krylov call for any `n >= 1`, but not conversely, since it
   * accepts a non-square `A` and an `x` of any length.
   */
  lemma SubspaceChecksWeaker(A: Matrix, b: Vector, size: nat, n: nat)
    requires n >= 1
    ensures PlainChecks(A, b, size) ==> SubspaceChecks(A, b, n)
    ensures var wide: Matrix := [[1.0, 2.0]];
            SubspaceChecks(wide, [0.0, 0.0], n) && !PlainChecks(wide, [0.0, 0.0], 0)
  {
    var wide: Matrix := [[1.0, 2.0]];
    assert |wide[0]| == 2;
    assert |wide| != 2;
  }

  /** `solve_inplace(x, A, b, tag)`. */
  method SolveInplace(x: DenseVector, A: Matrix, b: Vector, tag: IterativeTag)
    requires PlainChecks(A, b, |x.values|)
    modifies x, tag
    ensures x.values == tag.kernel(Plain(old(x.values), A, b)).x
    ensures tag.history == old(tag.history) + tag.kernel(Plain(old(x.values), A, b)).logged
  {
    tag.Run(x, Plain(x.values, A, b));
  }

  /** `solve_inplace(x, A, b, tag, Preconditioner)`: the name reaches the solver unchanged. */
  method SolveInplaceWith(x: DenseVector, A: Matrix, b: Vector, tag: IterativeTag, name: string)
    requires PlainChecks(A, b, |x.values|)
    modifies x, tag
    ensures x.values == tag.kernel(WithPreconditioner(old(x.values), A, b, name)).x
    ensures tag.history == old(tag.history) + tag.kernel(WithPreconditioner(old(x.values), A, b, name)).logged
  {
    tag.Run(x, WithPreconditioner(x.values, A, b, name));
  }

  /** `solve_inplace(x, A, b, tag, n)`: neither the size of `x` nor the shape of `A` is checked. */
  method SolveInplaceSubspace(x: DenseVector, A: Matrix, b: Vector, tag: IterativeTag, n: nat)
    requires SubspaceChecks(A, b, n)
    modifies x, tag
    ensures x.values == tag.kernel(Subspace(old(x.values), A, b, n)).x
    ensures tag.history == old(tag.history) + tag.kernel(Subspace(old(x.values), A, b, n)).logged
  {
    tag.Run(x, Subspace(x.values, A, b, n));
  }

  /** `solve(A, b, tag)`: the solver starts from `b.size()` zeros, and its result is returned. */
  method Solve(A: Matrix, b: Vector, tag: IterativeTag) returns (x: Vector)
    requires IsSquare(A, |b|)
    modifies tag
    ensures x == tag.kernel(Plain(Zeros(|b|), A, b)).x
    ensures tag.history == old(tag.history) + tag.kernel(Plain(Zeros(|b|), A, b)).logged
  {
    var buffer := new DenseVector(Zeros(|b|));
    SolveInplace(buffer, A, b, tag);
    x := buffer.values;
  }

  /** `solve(A, b, tag, Preconditioner)`. */
  method SolveWith(A: Matrix, b: Vector, tag: IterativeTag, name: string) returns (x: Vector)
    requires IsSquare(A, |b|)
    modifies tag
    ensures x == tag.kernel(WithPreconditioner(Zeros(|b|), A, b, name)).x
    ensures tag.history == old(tag.history) + tag.kernel(WithPreconditioner(Zeros(|b|), A, b, name)).logged
  {
    var buffer := new DenseVector(Zeros(|b|));
    SolveInplaceWith(buffer, A, b, tag, name);
    x := buffer.values;
  }

  /**
   * `solve(A, b, tag, n)`: whatever the kind of the tag, the initial guess
   * has `n` entries, not `b.size()`, and the three branches agree.
   */
  method SolveSubspace(A: Matrix, b: Vector, tag: IterativeTag, n: nat) returns (x: Vector)
    requires SubspaceChecks(A, b, n)
    modifies tag
    ensures x == tag.kernel(Subspace(Zeros(n), A, b, n)).x
    ensures tag.history == old(tag.history) + tag.kernel(Subspace(Zeros(n), A, b, n)).logged
  {
    if tag.kind == ArnoldiTag {
      var buffer := new DenseVector(Zeros(n));
      SolveInplaceSubspace(buffer, A, b, tag, n);
      x := buffer.values;
    } else if tag.kind == LanczosTag {
      var buffer := new DenseVector(Zeros(n));
      SolveInplaceSubspace(buffer, A, b, tag, n);
      x := buffer.values;
    } else {
      var buffer := new DenseVector(Zeros(n));
      SolveInplaceSubspace(buffer, A, b, tag, n);
      x := buffer.values;
    }
  }
}
