/**
 * Construction of the preconditioner matrix `M` for the preconditioned
 * conjugate gradient kernel (`copyStrictlyLowerPart` and
 * `preconditioner_matrix` in PreconditionCG.hpp).  `A` is split as
 * `A = L + D + U` with `D` its diagonal and `L` its strictly lower triangle.
 * The Cholesky factor that `llh` would compute is taken as an input, and the
 * only matrix this module inverts is the diagonal `D`.
 */
module Preconditioners {
  import opened LinAlg

  // ---------------------------------------------------------------- the parts of A

  /** `D`: the diagonal of `A` copied into a zero matrix (`band<0L>(D) = band<0L>(A)`). */
  function DiagonalPart(A: Matrix): (D: Matrix)
    requires IsSquare(A, |A|)
    ensures IsSquare(D, |A|)
    ensures forall i, j :: 0 <= i < |A| && 0 <= j < |A| ==> D[i][j] == if i == j then A[i][i] else 0.0
  {
    seq(|A|, i requires 0 <= i < |A| => seq(|A|, j requires 0 <= j < |A| => if i == j then A[i][i] else 0.0))
  }

  /** `L`: the entries strictly below the diagonal, zero elsewhere. */
  function StrictlyLowerPart(A: Matrix): (L: Matrix)
    requires IsSquare(A, |A|)
    ensures IsSquare(L, |A|)
    ensures forall i, j :: 0 <= i < |A| && 0 <= j < |A| ==> L[i][j] == if j < i then A[i][j] else 0.0
  {
    seq(|A|, i requires 0 <= i < |A| => seq(|A|, j requires 0 <= j < |A| => if j < i then A[i][j] else 0.0))
  }

  predicate NonZeroDiagonal(A: Matrix)
    requires IsSquare(A, |A|)
  {
    forall i :: 0 <= i < |A| ==> A[i][i] != 0.0
  }

  predicate IsDiagonal(A: Matrix)
    requires IsSquare(A, |A|)
  {
    forall i, j :: 0 <= i < |A| && 0 <= j < |A| && i != j ==> A[i][j] == 0.0
  }

  /** `inv(D)`: the reciprocals of the diagonal of `A` on the diagonal. */
  function DiagonalInverse(A: Matrix): (W: Matrix)
    requires IsSquare(A, |A|) && NonZeroDiagonal(A)
    ensures IsSquare(W, |A|) && IsDiagonal(W)
    ensures forall i :: 0 <= i < |A| ==> W[i][i] * A[i][i] == 1.0
  {
    seq(|A|, i requires 0 <= i < |A| => seq(|A|, j requires 0 <= j < |A| => if i == j then 1.0 / A[i][i] else 0.0))
  }

  /** `DiagonalInverse(A)` is the inverse of `D`: `D * inv(D) == I`. */
  lemma DiagonalInverseIsInverse(A: Matrix)
    requires IsSquare(A, |A|) && NonZeroDiagonal(A)
    ensures MatMul(DiagonalPart(A), DiagonalInverse(A)) == Identity(|A|)
  {
    var n := |A|;
    var P := MatMul(DiagonalPart(A), DiagonalInverse(A));
    forall i, j | 0 <= i < n && 0 <= j < n
      ensures P[i][j] == Identity(n)[i][j]
    {
      var W := DiagonalInverse(A);
      DotSelect(DiagonalPart(A)[i], Column(W, j), j);
    }
    MatrixExtensionality(P, Identity(n));
  }

  // ---------------------------------------------------------------- copyStrictlyLowerPart

  /** The entries of a two-dimensional array, row by row. */
  function Entries(a: array2<real>): (M: Matrix)
    reads a
    ensures |M| == a.Length0 && HasColumns(M, a.Length1)
  {
    seq(a.Length0, i requires 0 <= i < a.Length0 reads a =>
      seq(a.Length1, j requires 0 <= j < a.Length1 reads a => a[i, j]))
  }

  /**
   * Resizes the target to the shape of `src`, resets it to zero and copies the
   * strictly lower triangle of `src` into it.  Every index `(i, j)` with
   * `j < i < rows` must lie inside `src`, which holds when `rows <= columns + 1`.
   */
  method CopyStrictlyLowerPart(src: array2<real>) returns (dst: array2<real>)
    requires src.Length0 <= src.Length1 + 1
    ensures fresh(dst)
    ensures dst.Length0 == src.Length0 && dst.Length1 == src.Length1
    ensures forall i, j :: 0 <= i < dst.Length0 && 0 <= j < dst.Length1 ==>
              dst[i, j] == if j < i then src[i, j] else 0.0
    ensures src.Length0 == src.Length1 ==> Entries(dst) == StrictlyLowerPart(Entries(src))
  {
    dst := new real[src.Length0, src.Length1]((i, j) => 0.0);
    var i := 1;
    while i < src.Length0
      invariant 1 <= i && (src.Length0 > 0 ==> i <= src.Length0)
      invariant forall r, c :: 0 <= r < dst.Length0 && 0 <= c < dst.Length1 ==>
                  dst[r, c] == if c < r && r < i then src[r, c] else 0.0
    {
      var j := 0;
      while j < i
        invariant 0 <= j <= i
        invariant forall r, c :: 0 <= r < dst.Length0 && 0 <= c < dst.Length1 ==>
                    dst[r, c] == if c < r && (r < i || (r == i && c < j)) then src[r, c] else 0.0
      {
        dst[i, j] := src[i, j];
        j := j + 1;
      }
      i := i + 1;
    }
    if src.Length0 == src.Length1 {
      MatrixExtensionality(Entries(dst), StrictlyLowerPart(Entries(src)));
    }
  }

  // ---------------------------------------------------------------- the four preconditioners

  /** Jacobi: `M = D`. */
  function Jacobi(A: Matrix): (M: Matrix)
    requires IsSquare(A, |A|)
    ensures IsSquare(M, |A|) && IsDiagonal(M)
    ensures forall i :: 0 <= i < |A| ==> M[i][i] == A[i][i]
  {
    DiagonalPart(A)
  }

  /** `D + L`. */
  function LowerFactor(A: Matrix): (X: Matrix)
    requires IsSquare(A, |A|)
    ensures IsSquare(X, |A|)
  {
    MatAdd(DiagonalPart(A), StrictlyLowerPart(A))
  }

  /** `D + trans(L)`. */
  function UpperFactor(A: Matrix): (Z: Matrix)
    requires IsSquare(A, |A|)
    ensures IsSquare(Z, |A|)
  {
    MatAdd(DiagonalPart(A), Transpose(StrictlyLowerPart(A)))
  }

  /** `(D + L) * inv(D)`. */
  function ScaledLower(A: Matrix): (Y: Matrix)
    requires IsSquare(A, |A|) && NonZeroDiagonal(A)
    ensures IsSquare(Y, |A|)
  {
    MatMul(LowerFactor(A), DiagonalInverse(A))
  }

  /** Symmetric Gauss-Seidel: `M = (D + L) * inv(D) * (D + trans(L))`. */
  function SymmetricGaussSeidel(A: Matrix): (M: Matrix)
    requires IsSquare(A, |A|) && NonZeroDiagonal(A)
    ensures IsSquare(M, |A|)
  {
    MatMul(ScaledLower(A), UpperFactor(A))
  }

  /** SSOR without a relaxation parameter: `M = (D + L) * inv(D) * trans(D + L)`. */
  function Ssor(A: Matrix): (M: Matrix)
    requires IsSquare(A, |A|) && NonZeroDiagonal(A)
    ensures IsSquare(M, |A|)
  {
    MatMul(ScaledLower(A), Transpose(LowerFactor(A)))
  }

  /** `K`: the Cholesky factor with a zero wherever `A` has a zero (the `map` over `A` and `L`). */
  function CholeskyMasked(A: Matrix, factor: Matrix): (K: Matrix)
    requires IsSquare(A, |A|) && IsSquare(factor, |A|)
    ensures IsSquare(K, |A|)
  {
    seq(|A|, i requires 0 <= i < |A| =>
      seq(|A|, j requires 0 <= j < |A| => if A[i][j] == 0.0 then 0.0 else factor[i][j]))
  }

  /** Incomplete Cholesky: `M = K * trans(K)`. */
  function IncompleteCholesky(A: Matrix, factor: Matrix): (M: Matrix)
    requires IsSquare(A, |A|) && IsSquare(factor, |A|)
    ensures IsSquare(M, |A|)
  {
    var K := CholeskyMasked(A, factor);
    MatMul(K, Transpose(K))
  }

  // ---------------------------------------------------------------- preconditioner_matrix

  const JacobiName: string := "Jacobi"
  const SymmetricGaussSeidelName: string := "Symmetric_Gauss_Seidel"
  const SsorName: string := "SSOR"
  const IncompleteCholeskyName: string := "incomplete_Cholesky"

  predicate IsKnownName(name: string)
  {
    name == JacobiName || name == SymmetricGaussSeidelName || name == SsorName
    || name == IncompleteCholeskyName || name == ""
  }

  /**
   * What `preconditioner_matrix` leaves in its out-parameter `M`, or
   * `SingularDiagonal` when `inv(D)` fails on a zero diagonal entry.
   */
  datatype Selection = Built(M: Matrix) | SingularDiagonal

  /**
   * The selector as written: four independent tests on `name`, each of which
   * overwrites `M` when it matches.  `M` is the out-parameter's value on entry,
   * and `factor` is the Cholesky factor of `A` that `llh` computes.
   */
  function PreconditionerMatrix(name: string, A: Matrix, factor: Matrix, M: Matrix): (r: Selection)
    requires IsSquare(A, |A|) && IsSquare(factor, |A|)
    ensures !IsKnownName(name) ==> r == Built(M)
    ensures name == JacobiName ==>
              (r.Built? && IsSquare(r.M, |A|) && IsDiagonal(r.M)
               && forall i :: 0 <= i < |A| ==> r.M[i][i] == A[i][i])
    ensures (name == SymmetricGaussSeidelName || name == SsorName) ==>
              (r.SingularDiagonal? <==> !NonZeroDiagonal(A))
    ensures r.SingularDiagonal? ==> name == SymmetricGaussSeidelName || name == SsorName
    ensures IsKnownName(name) && r.Built? ==> IsSquare(r.M, |A|) && Symmetric(r.M)
    // which matrix each known name builds; the two Gauss-Seidel names build the same one
    ensures name == JacobiName ==> r == Built(Jacobi(A))
    ensures (name == SymmetricGaussSeidelName || name == SsorName) && NonZeroDiagonal(A) ==>
              r == Built(SymmetricGaussSeidel(A))
    ensures (name == IncompleteCholeskyName || name == "") ==> r == Built(IncompleteCholesky(A, factor))
  {
    var afterJacobi := if name == JacobiName then Jacobi(A) else M;
    if name == SymmetricGaussSeidelName && !NonZeroDiagonal(A) then SingularDiagonal
    else
      var afterGaussSeidel := if name == SymmetricGaussSeidelName then SymmetricGaussSeidel(A) else afterJacobi;
      if name == SsorName && !NonZeroDiagonal(A) then SingularDiagonal
      else
        var afterSsor := if name == SsorName then SsorIsGaussSeidel(A); Ssor(A) else afterGaussSeidel;
        var afterCholesky := if name == IncompleteCholeskyName || name == "" then IncompleteCholesky(A, factor) else afterSsor;
        KnownPreconditionersSymmetric(A, factor);
        Built(afterCholesky)
  }

  // ---------------------------------------------------------------- properties

  lemma MatrixExtensionality(A: Matrix, B: Matrix)
    requires |A| == |B| && forall i :: 0 <= i < |A| ==> |A[i]| == |B[i]|
    requires forall i, j :: 0 <= i < |A| && 0 <= j < |A[i]| ==> A[i][j] == B[i][j]
    ensures A == B
  {
    forall i | 0 <= i < |A| ensures A[i] == B[i] {
      assert A[i] == B[i];
    }
  }

  /** For a diagonal `A` the Jacobi preconditioner is `A` itself. */
  lemma JacobiOfDiagonal(A: Matrix)
    requires IsSquare(A, |A|) && IsDiagonal(A)
    ensures Jacobi(A) == A
  {
    MatrixExtensionality(Jacobi(A), A);
  }

  /** Each of the four formulas yields a symmetric matrix. */
  lemma KnownPreconditionersSymmetric(A: Matrix, factor: Matrix)
    requires IsSquare(A, |A|) && IsSquare(factor, |A|)
    ensures Symmetric(Jacobi(A))
    ensures NonZeroDiagonal(A) ==> Symmetric(SymmetricGaussSeidel(A)) && Symmetric(Ssor(A))
    ensures Symmetric(IncompleteCholesky(A, factor))
  {
    if NonZeroDiagonal(A) {
      GaussSeidelSymmetric(A);
      SsorIsGaussSeidel(A);
    }
    IncompleteCholeskySymmetric(A, factor);
  }

  /** `trans(D + L) == D + trans(L)` because `D` is diagonal, so SSOR and Symmetric Gauss-Seidel coincide. */
  lemma SsorIsGaussSeidel(A: Matrix)
    requires IsSquare(A, |A|) && NonZeroDiagonal(A)
    ensures Ssor(A) == SymmetricGaussSeidel(A)
  {
    MatrixExtensionality(Transpose(LowerFactor(A)), UpperFactor(A));
  }

  /** The Symmetric Gauss-Seidel matrix is symmetric: it is `X * W * trans(X)` with `W` diagonal. */
  lemma GaussSeidelSymmetric(A: Matrix)
    requires IsSquare(A, |A|) && NonZeroDiagonal(A)
    ensures Symmetric(SymmetricGaussSeidel(A))
  {
    SsorIsGaussSeidel(A);
    DiagonalCongruenceSymmetric(LowerFactor(A), DiagonalInverse(A));
  }

  /** Right-multiplying by a diagonal `W` scales column `k` by `W[k][k]`. */
  lemma DiagonalScaleEntry(X: Matrix, W: Matrix, i: nat, k: nat)
    requires IsSquare(X, |X|) && IsSquare(W, |X|) && IsDiagonal(W) && i < |X| && k < |X|
    ensures MatMul(X, W)[i][k] == X[i][k] * W[k][k]
  {
    DotSelect(X[i], Column(W, k), k);
  }

  /** `X * W * trans(X)` is symmetric for every diagonal `W`. */
  lemma DiagonalCongruenceSymmetric(X: Matrix, W: Matrix)
    requires IsSquare(X, |X|) && IsSquare(W, |X|) && IsDiagonal(W)
    ensures Symmetric(MatMul(MatMul(X, W), Transpose(X)))
  {
    forall i, j | 0 <= i < |X| && 0 <= j < |X|
      ensures MatMul(MatMul(X, W), Transpose(X))[i][j] == MatMul(MatMul(X, W), Transpose(X))[j][i]
    {
      DiagonalCongruenceEntry(X, W, i, j);
    }
  }

  lemma DiagonalCongruenceEntry(X: Matrix, W: Matrix, i: nat, j: nat)
    requires IsSquare(X, |X|) && IsSquare(W, |X|) && IsDiagonal(W) && i < |X| && j < |X|
    ensures MatMul(MatMul(X, W), Transpose(X))[i][j] == MatMul(MatMul(X, W), Transpose(X))[j][i]
  {
    forall k | 0 <= k < |X|
      ensures MatMul(X, W)[i][k] * X[j][k] == MatMul(X, W)[j][k] * X[i][k]
    {
      DiagonalScaleEntry(X, W, i, k);
      DiagonalScaleEntry(X, W, j, k);
      ScaledProductsCommute(MatMul(X, W)[i][k], X[j][k], MatMul(X, W)[j][k], X[i][k], X[i][k], X[j][k], W[k][k]);
    }
    assert Column(Transpose(X), j) == X[j];
    assert Column(Transpose(X), i) == X[i];
    DotTermwise(MatMul(X, W)[i], X[j], MatMul(X, W)[j], X[i]);
  }

  /** `(a w) b == (b w) a`. */
  lemma ScaledProductsCommute(yi: real, zj: real, yj: real, zi: real, a: real, b: real, w: real)
    requires yi == a * w && yj == b * w && zj == b && zi == a
    ensures yi * zj == yj * zi
  {
  }

  /** `K * trans(K)` is symmetric whatever `K` is. */
  lemma IncompleteCholeskySymmetric(A: Matrix, factor: Matrix)
    requires IsSquare(A, |A|) && IsSquare(factor, |A|)
    ensures Symmetric(IncompleteCholesky(A, factor))
  {
    var K := CholeskyMasked(A, factor);
    var M := IncompleteCholesky(A, factor);
    forall i, j | 0 <= i < |A| && 0 <= j < |A|
      ensures M[i][j] == M[j][i]
    {
      assert Column(Transpose(K), j) == K[j];
      assert Column(Transpose(K), i) == K[i];
      DotSymmetric(K[i], K[j]);
    }
  }

  /** The incomplete factor keeps `A`'s zero pattern and otherwise agrees with the Cholesky factor. */
  lemma CholeskyMaskPattern(A: Matrix, factor: Matrix, i: nat, j: nat)
    requires IsSquare(A, |A|) && IsSquare(factor, |A|) && i < |A| && j < |A|
    ensures A[i][j] == 0.0 ==> CholeskyMasked(A, factor)[i][j] == 0.0
    ensures A[i][j] != 0.0 ==> CholeskyMasked(A, factor)[i][j] == factor[i][j]
  {
  }
}
