# BlazeIterative solver core in Dafny

This project models the core of BlazeIterative, a collection of iterative
solvers for `A x = b` built on the Blaze linear-algebra library. The model
covers four parts:

- **Dispatch** (`dispatch.dfy`, solve.hpp). The `solve_inplace` overloads
  check the dimensions of their arguments and hand the caller's `x` to the
  solver that the tag selects. The `solve` overloads start that solver from
  a zero vector and return it. The solver is a function held by the tag. It
  maps the request (overload, `x`, `A`, `b`, preconditioner name or `n`) to
  the new `x` and the entries appended to the tag's log.
- **Preconditioners** (`preconditioners.dfy`, the first half of
  PreconditionCG.hpp). `copyStrictlyLowerPart` is an in-place copy into a
  2-D array. The Jacobi, symmetric Gauss-Seidel, SSOR and incomplete
  Cholesky matrices are pure functions. `preconditioner_matrix` is the
  name-driven chain of four independent tests.
- **Preconditioned conjugate gradient** (`pcg.dfy`, `solve_impl` in
  PreconditionCG.hpp). The loop updates the caller's `x` in place and
  appends relative residuals to the tag's log. It keeps `r == b - A x`.
- **GMRES** (`gmres.dfy`, GMRES.hpp):
  - `givens_rotation` is a pure function.
  - `apply_givens_rotation` works in place on an `array`. It is proved
    against the functions `ApplyStored` and `Eliminate`.
  - `arnoldi` is a method whose loop is proved against the
    Gram-Schmidt function `Sweep`.
  - The outer loop of `solve_impl` is a method. Its state is a `Krylov`
    value: the basis `Q`, the columns of `H`, `cs`, `sn`, `beta`, and the
    numerators of `err`.
  - The loop invariant says:
    - the basis is orthonormal;
    - every column of `H` is zero below its diagonal;
    - every stored rotation is a unit rotation or `(0, 0)`;
    - `beta` is never longer than the initial residual, and exactly as long
      while the rotations are unit ones.

`linalg.dfy` holds the vector and matrix operations these use. It also holds
`DenseVector`, a class standing for Blaze's caller-owned `DynamicVector`.

Arithmetic is exact (`real`). Square roots are a parameter `sqrt` with
`IsSqrt(sqrt)`: `sqrt(x) >= 0` and `sqrt(x) * sqrt(x) == x` for `x >= 0`. A
floating-point division that can divide by zero yields a `Quotient`. That is
either `Finite(v)` or `NotFinite` for an infinity or NaN. A `NotFinite`
never satisfies `<= eps`. The quotients compared here have non-negative
numerators, so their infinities are positive, and `<= eps` is false for a
positive infinity and for a NaN.

Textbook GMRES rotates `beta` by the rotation just computed. The code at
include/solvers/GMRES.hpp:121-122 reads `cs[k]` and `sn[k]`, which it never
writes. The model follows the code (see Findings).

## Model

| member | source | states |
|---|---|---|
| LinAlg.Norm | include/solvers/GMRES.hpp:33 | `norm(q)` is the non-negative root of `q . q`, and zero exactly when `q . q` is zero |
| Dispatch.IterativeTag.Run | include/BlazeIterative/solve.hpp:44 | the selected `solve_impl` leaves `x` as the solver computes it and appends what it logs, changing nothing else |
| Dispatch.PlainChecksSquare | include/BlazeIterative/solve.hpp:39-41 | the three assertions of the plain overloads hold exactly when `A` is square of `b`'s size and `x` has `b`'s size |
| Dispatch.SubspaceChecksWeaker | include/BlazeIterative/solve.hpp:85-86 | the Krylov overload accepts every call the plain ones accept, and also a non-square `A` with an `x` of any length |
| Dispatch.SolveInplace | include/BlazeIterative/solve.hpp:27-45 | under the three dimension checks, `x` and the tag's log end as the solver leaves them for the caller's `x`; only `x` and the tag change |
| Dispatch.SolveInplaceWith | include/BlazeIterative/solve.hpp:48-67 | as `SolveInplace`, and the preconditioner name reaches the solver unchanged |
| Dispatch.SolveInplaceSubspace | include/BlazeIterative/solve.hpp:72-90 | only `A.columns() == b.size()` and `n >= 1` are demanded, and `n` is forwarded |
| Dispatch.Solve | include/BlazeIterative/solve.hpp:110-117 | the result is the solver's `x` started from `b.size()` zeros |
| Dispatch.SolveWith | include/BlazeIterative/solve.hpp:136-146 | the result is the solver's `x` started from `b.size()` zeros, with the name forwarded unchanged |
| Dispatch.SolveSubspace | include/BlazeIterative/solve.hpp:152-170 | whatever the tag's kind, the solver starts from `n` zeros (not `b.size()`), and the three branches give the same result |
| Preconditioners.DiagonalPart | include/BlazeIterative/solvers/PreconditionCG.hpp:46-47 | `D` is square of `A`'s size, holds `A`'s diagonal, and is zero off it |
| Preconditioners.StrictlyLowerPart | include/BlazeIterative/solvers/PreconditionCG.hpp:17-37 | `L(i,j)` is `A(i,j)` below the diagonal and zero on and above it |
| Preconditioners.CopyStrictlyLowerPart | include/BlazeIterative/solvers/PreconditionCG.hpp:17-37 | the fresh `dst` has `src`'s dimensions, copies every entry below the diagonal and is zero elsewhere; for a square `src` it is `StrictlyLowerPart` |
| Preconditioners.DiagonalInverse | include/BlazeIterative/solvers/PreconditionCG.hpp:60 | `inv(D)` is diagonal and each diagonal entry times `A(i,i)` is one |
| Preconditioners.DiagonalInverseIsInverse | include/BlazeIterative/solvers/PreconditionCG.hpp:60 | `D * inv(D)` is the identity when the diagonal has no zero |
| Preconditioners.SymmetricGaussSeidel | include/BlazeIterative/solvers/PreconditionCG.hpp:60 | `(D+L) inv(D) (D+trans(L))` is square of `A`'s size; `GaussSeidelSymmetric` proves it symmetric |
| Preconditioners.Ssor | include/BlazeIterative/solvers/PreconditionCG.hpp:70 | `(D+L) inv(D) trans(D+L)` is square of `A`'s size; `SsorIsGaussSeidel` proves it equal to the symmetric Gauss-Seidel matrix |
| Preconditioners.CholeskyMasked | include/BlazeIterative/solvers/PreconditionCG.hpp:82 | `K` is square of `A`'s size; `CholeskyMaskPattern` gives its entries |
| Preconditioners.IncompleteCholesky | include/BlazeIterative/solvers/PreconditionCG.hpp:83 | `K trans(K)` is square of `A`'s size; `IncompleteCholeskySymmetric` proves it symmetric |
| Preconditioners.Jacobi | include/BlazeIterative/solvers/PreconditionCG.hpp:44-49 | `M` is diagonal with `M(i,i) == A(i,i)` |
| Preconditioners.JacobiOfDiagonal | include/BlazeIterative/solvers/PreconditionCG.hpp:44-49 | the Jacobi matrix of a diagonal matrix is that matrix |
| Preconditioners.SsorIsGaussSeidel | include/BlazeIterative/solvers/PreconditionCG.hpp:52-71 | `(D+L) inv(D) trans(D+L)` equals `(D+L) inv(D) (D+trans(L))`: SSOR and symmetric Gauss-Seidel agree |
| Preconditioners.GaussSeidelSymmetric | include/BlazeIterative/solvers/PreconditionCG.hpp:52-61 | the symmetric Gauss-Seidel matrix is symmetric |
| Preconditioners.DiagonalCongruenceSymmetric | include/BlazeIterative/solvers/PreconditionCG.hpp:60 | `X W trans(X)` is symmetric for every diagonal `W` |
| Preconditioners.IncompleteCholeskySymmetric | include/BlazeIterative/solvers/PreconditionCG.hpp:74-85 | `K trans(K)` is symmetric |
| Preconditioners.CholeskyMaskPattern | include/BlazeIterative/solvers/PreconditionCG.hpp:82 | `K(i,j)` is zero where `A(i,j)` is zero and equals the Cholesky factor elsewhere |
| Preconditioners.KnownPreconditionersSymmetric | include/BlazeIterative/solvers/PreconditionCG.hpp:41-87 | each of the four named preconditioners is symmetric |
| Preconditioners.PreconditionerMatrix | include/BlazeIterative/solvers/PreconditionCG.hpp:41-87 | an unknown name leaves `M` as passed in. `"Jacobi"` builds the Jacobi matrix, with `A`'s diagonal. `"Symmetric_Gauss_Seidel"` and `"SSOR"` fail exactly on a zero diagonal entry; otherwise both build the same symmetric Gauss-Seidel matrix. `"incomplete_Cholesky"` and `""` build the incomplete Cholesky matrix. Every matrix a known name builds is symmetric |
| PreconditionedCG.Residual | include/BlazeIterative/solvers/PreconditionCG.hpp:111 | `b - A x` has `b`'s size; `ResidualUpdate` shows the loop's updates keep it |
| PreconditionedCG.PcgTag.LogResidual | include/BlazeIterative/solvers/PreconditionCG.hpp:135-137 | `log_residual` appends one entry and keeps the rest |
| PreconditionedCG.RelativeResiduals | include/BlazeIterative/solvers/PreconditionCG.hpp:133-137 | entry `i` of the log is `absolute[i] / absolute_0` |
| PreconditionedCG.ExpectedLog | include/BlazeIterative/solvers/PreconditionCG.hpp:119-121 | with logging, the log gains `absolute_0 / absolute_0` (one when non-zero) followed by one entry per pass; without it, the log is unchanged |
| PreconditionedCG.ExpectedLogPass | include/BlazeIterative/solvers/PreconditionCG.hpp:135-137 | a completed pass appends exactly its relative residual, and only when logging |
| PreconditionedCG.ResidualUpdate | include/BlazeIterative/solvers/PreconditionCG.hpp:129-130 | `x += alpha p; r -= alpha A p` keeps `r == b - A x` |
| PreconditionedCG.LogPass | include/BlazeIterative/solvers/PreconditionCG.hpp:135-137 | the tag's log stays the expected log of the passes completed |
| PreconditionedCG.NeverTerminatedExtend | include/BlazeIterative/solvers/PreconditionCG.hpp:139-141 | a pass whose termination test is false extends the run of passes that did not stop |
| PreconditionedCG.Initial | include/BlazeIterative/solvers/PreconditionCG.hpp:111-113 | before the loop `x` is the caller's, `r == b - A x`, `z == Minv r` and `p == z` |
| PreconditionedCG.Update | include/BlazeIterative/solvers/PreconditionCG.hpp:125-130 | `x += alpha p; r -= alpha A p` leaves `z` and `p` alone; `UpdateResidual` and `UpdateOrthogonal` give what it means |
| PreconditionedCG.Pass | include/BlazeIterative/solvers/PreconditionCG.hpp:125-147 | a pass that divides by zero in `alpha` or `beta` does not continue; one that continues keeps every size |
| PreconditionedCG.PcgRun | include/BlazeIterative/solvers/PreconditionCG.hpp:111-147 | the recurrence after `k` passes keeps every size; `RunResidual` and `RunOrthogonal` give what it keeps |
| PreconditionedCG.UpdateResidual | include/BlazeIterative/solvers/PreconditionCG.hpp:129-130 | the update keeps `r` the residual `b - A x` of the new `x` |
| PreconditionedCG.RunResidual | include/BlazeIterative/solvers/PreconditionCG.hpp:111-147 | after every number of passes of the recurrence, `r == b - A x` |
| PreconditionedCG.UpdateOrthogonal | include/BlazeIterative/solvers/PreconditionCG.hpp:127-130 | when `p . r == z . r`, `alpha` is the step that makes the new `r` orthogonal to `p` |
| PreconditionedCG.PassConjugacy | include/BlazeIterative/solvers/PreconditionCG.hpp:125-145 | a whole pass keeps `p . r == z . r`, because the new `p` is the new `z` plus a multiple of the old `p` |
| PreconditionedCG.RunOrthogonal | include/BlazeIterative/solvers/PreconditionCG.hpp:111-147 | along the whole recurrence `p . r == z . r`, so every update leaves a residual orthogonal to the direction it moved along |
| PreconditionedCG.Descend | include/BlazeIterative/solvers/PreconditionCG.hpp:127-130 | the in-place update of `x` and the new `r` are the recurrence's `Update`, and `r` is again `b - A x` |
| PreconditionedCG.Redirect | include/BlazeIterative/solvers/PreconditionCG.hpp:143-145 | `z = Minv r`, `beta` and `p = z + beta p` complete the recurrence's `Pass` |
| PreconditionedCG.TraceExtend | include/BlazeIterative/solvers/PreconditionCG.hpp:124-148 | appending the pass of the last state keeps a trace of the recurrence |
| PreconditionedCG.TraceRun | include/BlazeIterative/solvers/PreconditionCG.hpp:124-148 | state `k` of a trace is the recurrence after `k` passes |
| PreconditionedCG.StoppedAt | include/BlazeIterative/solvers/PreconditionCG.hpp:124-148 | where the loop stopped, `x` is the recurrence's `x` after the completed passes, advanced by the update of the stopping pass when it got that far |
| PreconditionedCG.Measure | include/BlazeIterative/solvers/PreconditionCG.hpp:127-141 | one pass's update of `x` and `r` is the recurrence's `Update`; the value logged and tested is `r . r` of the new `r`; the log grows by that value's quotient; a false test extends the passes that did not stop |
| PreconditionedCG.LoggedKeep | include/BlazeIterative/solvers/PreconditionCG.hpp:133 | logging one more value leaves the values of the earlier passes tied to their states in the trace |
| PreconditionedCG.LoggedExtend | include/BlazeIterative/solvers/PreconditionCG.hpp:133-148 | when the state a pass reached joins the trace, the value that pass logged is `r . r` of that state's `r` |
| PreconditionedCG.TraceLogged | include/BlazeIterative/solvers/PreconditionCG.hpp:124-148 | values logged along a trace are those of the recurrence: entry `i` is `r . r` of the `r` left by the update of pass `i` from the recurrence's state after `i` passes, and that update did not divide by zero |
| PreconditionedCG.Loop | include/BlazeIterative/solvers/PreconditionCG.hpp:111-148 | the loop keeps a trace of the recurrence and stops at its last state, with `x` as `StoppedAt` requires. Every value logged by a pass that the trace continues is `r . r` of the next state's `r`. The last value of a pass that stopped is `r . r` for the final `x`. The log and the termination tests are as in `Iterate` |
| PreconditionedCG.Iterate | include/BlazeIterative/solvers/PreconditionCG.hpp:111-148 | the loop stops when the termination test holds, on a zero divisor, or at the cap. The number of passes matches the exit. The final `x` is the recurrence's (`FollowsRun`): the `x` after the completed passes, advanced by the stopping pass's `alpha p` when that pass got past line 130. Every logged residual is the recurrence's (`LoggedRun`): entry `i` is `r . r` of the `r` that pass `i`'s update leaves, starting from the recurrence's state after `i` passes. The termination test was false on those values in every earlier pass and true in the stopping one. The log is the expected one for those values |
| PreconditionedCG.Solve | include/BlazeIterative/solvers/PreconditionCG.hpp:92-151 | it fails before the loop exactly when `inv(D)` or `inv(M)` fails, or `Minv * r` is ill-sized, and then changes nothing. Otherwise the final `x` and every logged residual are the recurrence's (`FollowsRun`, `LoggedRun`), with `Minv` the inverse of the selected preconditioner, and the rest is `Iterate`'s result |
| Gmres.GivensRotation | include/solvers/GMRES.hpp:38-53 | `(0, 0)` when `v1 == 0`; otherwise a rotation with `cs > 0`, `cs^2 + sn^2 == 1`, taking `(v1, v2)` to `(t, 0)` with `t^2 == v1^2 + v2^2` |
| Gmres.GivensDiagonal | include/solvers/GMRES.hpp:38-53 | the rotated leading entry is non-zero exactly when the rotation is a unit one |
| Gmres.GivensPositive | include/solvers/GMRES.hpp:46-50 | the pair `(v1, 0)` with `v1 > 0` keeps `v1` in the leading entry |
| Gmres.GivensUnit | include/solvers/GMRES.hpp:46-50 | the non-degenerate rotation is a unit rotation with positive cosine that zeroes the second entry |
| Gmres.GivensRotated | include/solvers/GMRES.hpp:46-50 | the rotated first entry has the squared length of the pair |
| Gmres.ZeroSine | include/solvers/GMRES.hpp:38-53 | a zero second entry gives a zero sine |
| Gmres.StoredRotationKind | include/solvers/GMRES.hpp:38-53 | every computed rotation is a unit rotation or `(0, 0)` |
| Gmres.Rotate | include/solvers/GMRES.hpp:59-61 | one stored rotation changes only entries `i` and `i + 1` of the column |
| Gmres.ApplyStored | include/solvers/GMRES.hpp:58-62 | the first `m` stored rotations applied in order keep the column's length; `ApplyStoredFrame` and `ApplyStoredPreservesNorm` give its frame and norm |
| Gmres.Eliminate | include/solvers/GMRES.hpp:64-70 | the new rotation zeroes `h[k+1]` and changes no entry other than `h[k]` and `h[k+1]` |
| Gmres.EliminateDiagonal | include/solvers/GMRES.hpp:64-70 | the entry `h[k]` the new rotation leaves is non-zero exactly when that rotation is a unit one |
| Gmres.EliminatedEntry | include/solvers/GMRES.hpp:64-70 | the new `h[k]` is what the new rotation writes over `(h[k], h[k+1])` |
| Gmres.RotateInPlace | include/solvers/GMRES.hpp:59-61 | one stored rotation applied in place through `temp` gives `Rotate` of the old column |
| Gmres.EliminateInPlace | include/solvers/GMRES.hpp:64-70 | the new rotation is the one `givens_rotation` computes from `h[k], h[k+1]`, and the column becomes `Eliminate` of the old one |
| Gmres.ApplyGivensRotation | include/solvers/GMRES.hpp:55-73 | the loop applies the first `k` stored rotations, then eliminates `h[k+1]` |
| Gmres.ApplyStoredFrame | include/solvers/GMRES.hpp:58-62 | applying the first `m` stored rotations leaves every entry past `m` unchanged |
| Gmres.EliminateShape | include/solvers/GMRES.hpp:55-73 | after `apply_givens_rotation`, `h[k+1]` is zero and every entry past it is as before |
| Gmres.RotatePreservesNorm | include/solvers/GMRES.hpp:59-61 | a unit rotation keeps the length of the column |
| Gmres.ApplyStoredPreservesNorm | include/solvers/GMRES.hpp:58-62 | unit stored rotations keep the length of the column |
| Gmres.EliminatePreservesNorm | include/solvers/GMRES.hpp:64-70 | eliminating `h[k+1]` with a non-degenerate rotation keeps the length of the column |
| Gmres.ApplyGivensPreservesNorm | include/solvers/GMRES.hpp:55-73 | `apply_givens_rotation` with unit stored rotations and a non-degenerate new one keeps the column's length |
| Gmres.DegenerateRotationClears | include/solvers/GMRES.hpp:42-45 | when `h[k] == 0` the rotation is `(0, 0)` and both `h[k]` and `h[k+1]` become zero |
| Gmres.ZeroRotationsClear | include/solvers/GMRES.hpp:58-62 | `(0, 0)` stored rotations zero every entry they touch |
| Gmres.Normalise | include/solvers/GMRES.hpp:33-34 | `q / norm(q)` is undefined exactly when `q` is zero, and a unit vector otherwise |
| Gmres.Arnoldi | include/solvers/GMRES.hpp:21-36 | `h` has `k + 2` entries: the Gram-Schmidt coefficients of `A Q[k]`, then the norm of what remains; the new column is that remainder normalised |
| Gmres.Sweep | include/solvers/GMRES.hpp:29-32 | after `i` steps the remainder has `v`'s length and there are `i` coefficients; `SweepExpansion` and `SweepOrthogonal` give what they mean |
| Gmres.Pad | include/solvers/GMRES.hpp:115 | the column of `H` holds Arnoldi's entries first and zeros below them |
| Gmres.SweepExpansion | include/solvers/GMRES.hpp:29-32 | what remains plus the combination of basis columns with the coefficients is `A Q[k]` |
| Gmres.SweepOrthogonal | include/solvers/GMRES.hpp:29-32 | over an orthonormal basis, what remains is orthogonal to every column swept |
| Gmres.NextColumnOrthonormal | include/solvers/GMRES.hpp:28-34 | a defined new column extends an orthonormal basis to an orthonormal basis |
| Gmres.NextColumn | include/solvers/GMRES.hpp:114-119 | Arnoldi's column, padded into `H`, rotated by `apply_givens_rotation` |
| Gmres.HessenbergTriangular | include/solvers/GMRES.hpp:118-119 | the rotated column of pass `k` is zero below entry `k` |
| Gmres.BreakdownRotation | include/solvers/GMRES.hpp:33-34 | when the new basis column is a division by zero, the pass's rotation has a zero sine |
| Gmres.RotateBeta | include/solvers/GMRES.hpp:121-122 | `beta[k+1]` becomes `-sn[k] beta[k]`, `beta[k]` becomes `cs[k] beta[k]`, and no other entry changes |
| Gmres.RotateBetaNorm | include/solvers/GMRES.hpp:121-122 | a unit rotation keeps `beta`'s length; `(0, 0)` never lengthens it |
| Gmres.InitialBeta | include/solvers/GMRES.hpp:109-111 | `norm(r) e1` has `r`'s length and is zero past its first entry |
| Gmres.Start | include/solvers/GMRES.hpp:95-111 | the state before the loop has the sizes the allocations give |
| Gmres.StartState | include/solvers/GMRES.hpp:95-111 | the first basis column is undefined exactly when `r` is zero; the start state meets every part of the loop invariant |
| Gmres.Advance | include/solvers/GMRES.hpp:118-123 | a pass appends its column to `H` and the new basis column to `Q`, keeps every size, and records `abs(beta[k+1])` |
| Gmres.Step | include/solvers/GMRES.hpp:113-123 | a pass keeps the shape of the state and adds one column and one `err` numerator |
| Gmres.StepInvariant | include/solvers/GMRES.hpp:113-123 | a pass keeps the loop invariant; with the rotations stored, a division-by-zero basis column leaves `beta[k+1]` zero |
| Gmres.StepBasis | include/solvers/GMRES.hpp:114-116 | a pass keeps the basis orthonormal |
| Gmres.StepTriangular | include/solvers/GMRES.hpp:118-119 | a pass keeps `H` upper triangular |
| Gmres.StepRotations | include/solvers/GMRES.hpp:118-122 | a pass keeps every rotation a unit one or `(0, 0)`, and the unwritten ones zero |
| Gmres.StepBeta | include/solvers/GMRES.hpp:121-122 | a pass keeps `beta` no longer than `r`, and exactly as long under unit rotations |
| Gmres.StepBreakdown | include/solvers/GMRES.hpp:121-122 | with the rotations stored, a division-by-zero basis column leaves `beta[k+1]` zero |
| Gmres.StepDiagonal | include/solvers/GMRES.hpp:118-122 | with the rotations stored, a pass keeps each diagonal entry of `H` non-zero exactly where its stored rotation is a unit one |
| Gmres.StepDiagonalEntry | include/solvers/GMRES.hpp:118-119 | the diagonal entry a pass writes into `H` is what its rotation leaves in the leading position of the rotated column |
| Gmres.StepAsWritten | include/solvers/GMRES.hpp:118-123 | without the rotations stored, `cs`, `sn`, `beta`, every later column of `H` and every `err` stay zero |
| Gmres.AsWrittenColumn | include/solvers/GMRES.hpp:118-119 | with `cs` and `sn` zero, every column after the first is rotated to zero |
| Gmres.Run | include/solvers/GMRES.hpp:106-129 | the state after `k` passes from the start, each one a `Step` while the basis column is defined and fewer than `n` passes were made, keeps the shape of the state |
| Gmres.TraceRun | include/solvers/GMRES.hpp:113-129 | state `k` of the loop's trace is `Run` after `k` passes |
| Gmres.TraceExtend | include/solvers/GMRES.hpp:113-129 | appending the `Step` of the last state keeps a trace of `Run` |
| Gmres.NonZeroDiagonalBeta | include/solvers/GMRES.hpp:118-122 | with the rotations stored and the loop invariant, a triangular factor with no zero on its diagonal comes with `beta . beta == r . r` |
| Gmres.Pass | include/solvers/GMRES.hpp:114-122 | one pass computed step by step is `Step` |
| Gmres.Record | include/solvers/GMRES.hpp:118-123 | the bookkeeping after `apply_givens_rotation` is `Advance` |
| Gmres.ZeroResidualConverges | include/solvers/GMRES.hpp:123-127 | a zero `norm(b)` never passes `err <= eps`; a zero numerator does whenever `norm(b)` is not zero |
| Gmres.Round | include/solvers/GMRES.hpp:113-127 | a pass is the `Step` of the state before it, so the trace of `Run` grows by one. It keeps the invariant and records `abs(beta[k+1])`. `converged` is exactly `err <= eps`, and after passes that did not converge it is the only pass that did. If `norm(b)` is not zero, a pass that does not converge must have stored its rotation and left a defined next basis column |
| Gmres.Iterate | include/solvers/GMRES.hpp:106-129 | the loop ends at the first pass with `err <= eps`, at a division-by-zero basis column, or after `n` passes. Its states are a trace of `Run`, with the final state last. The invariant holds at exit and the pass count matches the exit. It fails at once exactly when `r` is zero and never converges when `b` is zero |
| Gmres.SolveAsWritten | include/solvers/GMRES.hpp:75-129 | as written (for `n == 1`; for larger `n`, with the column of line 115 padded), the final state is `Run` without the rotations stored; with `b` and `r` non-zero, the loop stops after its first pass with `beta` zero |
| Gmres.Solve | include/solvers/GMRES.hpp:75-129 | with the rotations stored, the final state is `Run` with the rotations stored. The basis is orthonormal and `H` triangular. `beta` keeps `r`'s length under unit rotations, and in particular whenever no diagonal entry of `H` is zero. A division-by-zero basis column after the first pass needs `b == 0` |
| Gmres.ExampleFirstPass | include/solvers/GMRES.hpp:106-123 | on `A = [[2]]`, `b = [1]`, `x0 = [0]`, `n = 1`, one pass puts the diagonal entry 2 in `H` and keeps the loop invariant, with or without the rotation stored |
| Gmres.OnePassExample | include/solvers/GMRES.hpp:106-123 | on that input `r . r == 1`; as written, after one pass `H[0][0] == 2` but `beta == [0, 0]`, so `beta . beta` is 0, not 1; with the rotation stored, `H[0][0] == 2` and `beta . beta == 1` |

## Left out

- The final least-squares solve of GMRES (include/solvers/GMRES.hpp:130-134) is not modelled: `inv(H_sub)` is a general matrix inverse. `Solve` and `SolveAsWritten` return the state the loop leaves.
- The throw at include/solvers/GMRES.hpp:115 is not modelled. There, Arnoldi's `k + 2` entries are assigned to a column of `H` with `n + 1` rows. A Blaze column view cannot be resized, so for every `n >= 2` the source throws `std::invalid_argument` in pass 0. The model instead pads the column with zeros, so for `n >= 2` it describes that padded program, not the source.
- Lines 114 and 118-119 of include/solvers/GMRES.hpp do not compile as written:
  - Line 114 calls `arnoldi(A, Q, k)`, whose template parameters `T` and `VectorType` (lines 21-22) appear in no function parameter and cannot be deduced.
  - Line 118 calls `apply_givens_rotation`, whose `T` (lines 55-56) cannot be deduced. Its `VectorType` would be deduced both from the column view `column(H,k)` and from `cs` and `sn`, which are `DynamicVector<T>`, and the two deductions conflict.
  - Line 118 also passes the temporary `column(H,k)` to a non-const reference.
  - Line 119 reads `.first` from a `std::tuple`.
  The model assumes explicit template arguments (`T` the element type, `VectorType` a `DynamicVector<T>`). It reads line 118 as passing the column by value, and line 119 as taking the column with `std::get<0>`.
- Floating point is replaced by exact reals. Rounding, the loss of orthogonality it causes, and the eps comparison on rounded values are left out. A division by zero stops the loop with a named outcome (`ZeroCurvature`, `ZeroPreconditionedResidual`, `UndefinedBasis`) rather than carrying infinities or NaNs onward.
- `sqrt`, `llh` (the Cholesky factor, an input called `factor`) and Blaze's general `inv(M)` (a parameter `inverse`) are parameters. Their bodies are not part of this model.
- PreconditionedCG.Iterate: the C++ loop is `while (true)`. The model bounds it by a caller-chosen `cap`, because a termination test that never fires would not end.
- The tag's termination test `terminateIteration` is a function parameter. Its tolerance and iteration-cap logic is not part of this model.
- Dispatch.IterativeTag.Run: the solver behind a tag is a function value rather than one of the kernels above. The C++ selection happens at compile time through overloads, which Dafny cannot express without traits.
- The `isSymmetric` and positive-definiteness assertions of the PCG `solve_impl` are preconditions (`Symmetric(A)`) or left out. Positive definiteness needs the `llh` factor, which is an input.
- A matrix with no rows has no column count in a `seq<seq<real>>` model, so `A.columns() == b.size()` always holds for it.
- Compile-time checks (`static_assert`, `BLAZE_CONSTRAINT_MUST_BE_MATRIX_TYPE`) are type-level only.

## Findings

| source | as written | input that shows it | evidently intended | confidence | as-written member | corrected member |
|---|---|---|---|---|---|---|
| include/solvers/GMRES.hpp:118-122 | Reading line 119 as `std::get<0>` with the column passed by value: `apply_givens_rotation` returns the new rotation `(cs_k, sn_k)`, but the loop discards it, so `cs` and `sn` stay zero. `beta` is then rotated by `(0, 0)`. For `n == 1` (and, for larger `n`, in the program with the column of line 115 padded) `beta` becomes zero in the first pass, `err` is 0, and the loop breaks. The final solve then adds nothing to `x0` | `A = [[2.0]]`, `b = [1.0]`, `x0 = [0.0]`, `n = 1`: `beta` is `[0, 0]`, so `y = 0` and `x` stays `x0`. The intended `beta` is `[1, 0]`, giving `x = [0.5]` | store `cs[k] = cs_k` and `sn[k] = sn_k` before rotating `beta`, so that `beta` keeps the length of `r` under unit rotations | not executed | Gmres.SolveAsWritten, Gmres.OnePassExample | Gmres.Solve |
