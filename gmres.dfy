/**
 * The restart-free GMRES kernel of GMRES.hpp: one Arnoldi step (modified
 * Gram-Schmidt), Givens rotations and their application to a column of the
 * Hessenberg matrix, and the outer loop that keeps the rotated right-hand side
 * `beta`.  The final triangular solve `inv(H_sub) * beta_sub` and the update
 * of `x` are not part of this model.
 */
module Gmres {
  import opened LinAlg

  // ---------------------------------------------------------------- givens_rotation

  datatype Rotation = Rotation(cs: real, sn: real)

  /** What a rotation by `g` writes over the pair `(x, y)`: `cs x + sn y` above and `-sn x + cs y` below. */
  function Upper(g: Rotation, x: real, y: real): real
  {
    g.cs * x + g.sn * y
  }

  function Lower(g: Rotation, x: real, y: real): real
  {
    -g.sn * x + g.cs * y
  }

  /**
   * `givens_rotation(v1, v2)` as written: `(0, 0)` when `v1 == 0`, otherwise
   * `cs = |v1| / t` and `sn = cs * v2 / v1` with `t = sqrt(v1^2 + v2^2)`.
   */
  function GivensRotation(v1: real, v2: real, sqrt: real -> real): (g: Rotation)
    requires IsSqrt(sqrt)
    ensures v1 == 0.0 ==> g == Rotation(0.0, 0.0)
    ensures v1 != 0.0 ==> g.cs > 0.0 && g.cs * g.cs + g.sn * g.sn == 1.0
    ensures v1 != 0.0 ==> Lower(g, v1, v2) == 0.0
    ensures v1 != 0.0 ==> Times(Upper(g, v1, v2), Upper(g, v1, v2)) == v1 * v1 + v2 * v2
  {
    if v1 == 0.0 then Rotation(0.0, 0.0)
    else
      var t := sqrt(v1 * v1 + v2 * v2);
      RootPositive(v1, v2, t);
      var cs := Abs(v1) / t;
      GivensUnit(v1, v2, t, cs, cs * v2 / v1);
      GivensRotated(v1, v2, t, cs, cs * v2 / v1);
      Rotation(cs, cs * v2 / v1)
  }

  lemma RootPositive(v1: real, v2: real, t: real)
    requires v1 != 0.0 && t >= 0.0 && t * t == v1 * v1 + v2 * v2
    ensures t > 0.0
  {
    SquarePositive(v1);
    SquareNonNegative(v2);
    RootZero(t, v1 * v1 + v2 * v2);
  }

  /** `cs = |v1| / t` and `sn = cs v2 / v1` satisfy `cs^2 + sn^2 == 1` and annihilate `v2`. */
  lemma GivensUnit(v1: real, v2: real, t: real, cs: real, sn: real)
    requires v1 != 0.0 && t > 0.0 && t * t == v1 * v1 + v2 * v2
    requires cs == Abs(v1) / t && sn == cs * v2 / v1
    ensures cs > 0.0 && cs * cs + sn * sn == 1.0 && Lower(Rotation(cs, sn), v1, v2) == 0.0
  {
    assert cs * t == Abs(v1);
    assert sn * v1 == cs * v2;
    assert cs * cs * (t * t) == v1 * v1;
    assert sn * sn * (v1 * v1) == cs * cs * (v2 * v2);
    assert (cs * cs + sn * sn) * (v1 * v1) == cs * cs * (t * t);
  }

  /** The rotated leading entry has the length of `(v1, v2)`. */
  lemma GivensRotated(v1: real, v2: real, t: real, cs: real, sn: real)
    requires v1 != 0.0 && t > 0.0 && t * t == v1 * v1 + v2 * v2
    requires cs == Abs(v1) / t && sn == cs * v2 / v1
    ensures Times(Upper(Rotation(cs, sn), v1, v2), Upper(Rotation(cs, sn), v1, v2)) == v1 * v1 + v2 * v2
  {
    var rho := cs * v1 + sn * v2;
    assert sn * v1 == cs * v2;
    assert rho * v1 == cs * (t * t);
    assert cs * t == Abs(v1);
    assert rho * v1 * (rho * v1) == cs * t * (cs * t) * (t * t);
    assert Abs(v1) * Abs(v1) == v1 * v1;
  }

  /**
   * The entry a rotation leaves in the leading position is non-zero exactly
   * when the rotation is a unit one: `(0, 0)` comes only with a zero `v1`,
   * which it leaves zero, and a unit rotation gives it the length of `(v1, v2)`.
   */
  lemma GivensDiagonal(v1: real, v2: real, sqrt: real -> real)
    requires IsSqrt(sqrt)
    ensures var g := GivensRotation(v1, v2, sqrt);
            Upper(g, v1, v2) != 0.0 <==> g.cs * g.cs + g.sn * g.sn == 1.0
  {
    var g := GivensRotation(v1, v2, sqrt);
    if v1 != 0.0 {
      SquarePositive(v1);
      SquareNonNegative(v2);
    }
  }

  // ---------------------------------------------------------------- apply_givens_rotation

  /** After the last step of `apply_givens_rotation`, entry `k` is non-zero exactly when the new rotation is a unit one. */
  lemma EliminateDiagonal(h: seq<real>, k: nat, sqrt: real -> real)
    requires IsSqrt(sqrt) && k + 1 < |h|
    ensures var g := GivensRotation(h[k], h[k + 1], sqrt);
            Eliminate(h, k, sqrt)[k] != 0.0 <==> g.cs * g.cs + g.sn * g.sn == 1.0
  {
    GivensDiagonal(h[k], h[k + 1], sqrt);
  }

  /** Rotates entries `i` and `i + 1` of `h` by `g`, reading both before writing either. */
  function Rotate(h: seq<real>, i: nat, g: Rotation): (r: seq<real>)
    requires i + 1 < |h|
    ensures |r| == |h| && forall t :: 0 <= t < |h| && t != i && t != i + 1 ==> r[t] == h[t]
  {
    h[i := Upper(g, h[i], h[i + 1])][i + 1 := Lower(g, h[i], h[i + 1])]
  }

  /** The stored rotations `0 .. m - 1` applied to `h` in increasing order. */
  function ApplyStored(h: seq<real>, cs: seq<real>, sn: seq<real>, m: nat): (r: seq<real>)
    requires m < |h| && m <= |cs| && m <= |sn|
    ensures |r| == |h|
  {
    if m == 0 then h else Rotate(ApplyStored(h, cs, sn, m - 1), m - 1, Rotation(cs[m - 1], sn[m - 1]))
  }

  /**
   * The last step of `apply_givens_rotation`: the new rotation of entries `k`
   * and `k + 1`, the rotated entry `k` and a zero in entry `k + 1`.
   */
  function Eliminate(h: seq<real>, k: nat, sqrt: real -> real): (r: seq<real>)
    requires IsSqrt(sqrt) && k + 1 < |h|
    ensures |r| == |h| && r[k + 1] == 0.0
    ensures forall t :: 0 <= t < |h| && t != k && t != k + 1 ==> r[t] == h[t]
  {
    RotateAndZero(h, k, GivensRotation(h[k], h[k + 1], sqrt))
  }

  /** Entry `k` rotated by `g`, entry `k + 1` set to zero. */
  function RotateAndZero(h: seq<real>, k: nat, g: Rotation): (r: seq<real>)
    requires k + 1 < |h|
    ensures |r| == |h|
  {
    ZeroPair(h, k, Upper(g, h[k], h[k + 1]))
  }

  /** Entry `k` replaced by `a`, entry `k + 1` by zero. */
  function ZeroPair(h: seq<real>, k: nat, a: real): (r: seq<real>)
    requires k + 1 < |h|
    ensures |r| == |h|
  {
    h[k := a][k + 1 := 0.0]
  }

  /** One pass of the loop in `apply_givens_rotation`: rotates `h[i]` and `h[i + 1]` in place. */
  method RotateInPlace(h: array<real>, i: nat, g: Rotation)
    requires i + 1 < h.Length
    modifies h
    ensures h[..] == Rotate(old(h[..]), i, g)
  {
    ghost var before := h[..];
    var temp := Upper(g, h[i], h[i + 1]);
    h[i + 1] := Lower(g, h[i], h[i + 1]);
    h[i] := temp;
    ghost var rotated := Rotate(before, i, g);
    assert forall j :: 0 <= j < h.Length ==> h[j] == rotated[j];
  }

  /** The last lines of `apply_givens_rotation`: rotates `h[k]`, `h[k + 1]` by the rotation that zeroes `h[k + 1]`. */
  method EliminateInPlace(h: array<real>, k: nat, sqrt: real -> real) returns (g: Rotation)
    requires IsSqrt(sqrt) && k + 1 < h.Length
    modifies h
    ensures g == GivensRotation(old(h[k]), old(h[k + 1]), sqrt) && h[..] == Eliminate(old(h[..]), k, sqrt)
  {
    ghost var before := h[..];
    g := GivensRotation(h[k], h[k + 1], sqrt);
    h[k] := Upper(g, h[k], h[k + 1]);
    h[k + 1] := 0.0;
    ghost var eliminated := Eliminate(before, k, sqrt);
    assert forall j :: 0 <= j < h.Length ==> h[j] == eliminated[j];
  }

  /**
   * `apply_givens_rotation(h, cs, sn, k)`: applies the stored rotations to the
   * column `h` in place, then computes, applies and returns the rotation that
   * zeroes `h[k + 1]`.
   */
  method ApplyGivensRotation(h: array<real>, cs: seq<real>, sn: seq<real>, k: nat, sqrt: real -> real)
    returns (g: Rotation)
    requires IsSqrt(sqrt) && k + 2 <= h.Length && k <= |cs| && k <= |sn|
    modifies h
    ensures var rotated := ApplyStored(old(h[..]), cs, sn, k);
            g == GivensRotation(rotated[k], rotated[k + 1], sqrt) && h[..] == Eliminate(rotated, k, sqrt)
  {
    var i := 0;
    while i < k
      invariant 0 <= i <= k
      invariant h[..] == ApplyStored(old(h[..]), cs, sn, i)
    {
      RotateInPlace(h, i, Rotation(cs[i], sn[i]));
      i := i + 1;
    }
    g := EliminateInPlace(h, k, sqrt);
  }

  // ---------------------------------------------------------------- what apply_givens_rotation guarantees

  /** Rotation `i` touches only entries `i` and `i + 1`, so the stored rotations `0 .. m - 1` leave every entry past `m` alone. */
  lemma {:induction false} ApplyStoredFrame(h: seq<real>, cs: seq<real>, sn: seq<real>, m: nat, j: nat)
    requires m < j < |h| && m <= |cs| && m <= |sn|
    ensures ApplyStored(h, cs, sn, m)[j] == h[j]
  {
    if m > 0 {
      ApplyStoredFrame(h, cs, sn, m - 1, j);
    }
  }

  /**
   * After `apply_givens_rotation` the entry below the new diagonal is zero,
   * the length is unchanged, and the entries past `k + 1` are those of the
   * column passed in.
   */
  lemma EliminateShape(h: seq<real>, cs: seq<real>, sn: seq<real>, k: nat, sqrt: real -> real)
    requires IsSqrt(sqrt) && k + 1 < |h| && k <= |cs| && k <= |sn|
    ensures var r := Eliminate(ApplyStored(h, cs, sn, k), k, sqrt);
            |r| == |h| && r[k + 1] == 0.0 && forall j :: k + 1 < j < |h| ==> r[j] == h[j]
  {
    forall j | k + 1 < j < |h|
      ensures Eliminate(ApplyStored(h, cs, sn, k), k, sqrt)[j] == h[j]
    {
      ApplyStoredFrame(h, cs, sn, k, j);
    }
  }

  /** `(c x + s y)^2 + (-s x + c y)^2 == x^2 + y^2` when `c^2 + s^2 == 1`. */
  lemma RotationKeepsSquares(g: Rotation, x: real, y: real)
    requires g.cs * g.cs + g.sn * g.sn == 1.0
    ensures Upper(g, x, y) * Upper(g, x, y) + Lower(g, x, y) * Lower(g, x, y) == x * x + y * y
  {
    var c, s := g.cs, g.sn;
    assert (c * x + s * y) * (c * x + s * y) + (-s * x + c * y) * (-s * x + c * y)
        == (c * c + s * s) * (x * x) + (c * c + s * s) * (y * y);
  }

  /** A rotation with `cs^2 + sn^2 == 1` keeps the Euclidean length of the column. */
  lemma RotatePreservesNorm(h: seq<real>, i: nat, g: Rotation)
    requires i + 1 < |h| && g.cs * g.cs + g.sn * g.sn == 1.0
    ensures Dot(Rotate(h, i, g), Rotate(h, i, g)) == Dot(h, h)
  {
    RotationKeepsSquares(g, h[i], h[i + 1]);
    PairUpdateNorm(h, i, Upper(g, h[i], h[i + 1]), Lower(g, h[i], h[i + 1]));
  }

  /** Overwriting entries `i` and `i + 1` with values of the same total square keeps `Dot(h, h)`. */
  lemma PairUpdateNorm(h: seq<real>, i: nat, a: real, b: real)
    requires i + 1 < |h| && a * a + b * b == h[i] * h[i] + h[i + 1] * h[i + 1]
    ensures Dot(h[i := a][i + 1 := b], h[i := a][i + 1 := b]) == Dot(h, h)
  {
    DotSelfUpdate(h, i, a);
    DotSelfUpdate(h[i := a], i + 1, b);
    assert h[i := a][i + 1] == h[i + 1];
  }

  /** Unit rotations, as `givens_rotation` returns for a non-zero first argument. */
  predicate UnitRotations(cs: seq<real>, sn: seq<real>, m: nat)
    requires m <= |cs| && m <= |sn|
  {
    forall i :: 0 <= i < m ==> cs[i] * cs[i] + sn[i] * sn[i] == 1.0
  }

  lemma {:induction false} ApplyStoredPreservesNorm(h: seq<real>, cs: seq<real>, sn: seq<real>, m: nat)
    requires m < |h| && m <= |cs| && m <= |sn| && UnitRotations(cs, sn, m)
    ensures Dot(ApplyStored(h, cs, sn, m), ApplyStored(h, cs, sn, m)) == Dot(h, h)
  {
    if m > 0 {
      ApplyStoredPreservesNorm(h, cs, sn, m - 1);
      RotatePreservesNorm(ApplyStored(h, cs, sn, m - 1), m - 1, Rotation(cs[m - 1], sn[m - 1]));
    }
  }

  /**
   * With unit stored rotations and a non-zero entry `k` after them, the whole
   * of `apply_givens_rotation` keeps the length of the column.
   */
  lemma ApplyGivensPreservesNorm(h: seq<real>, cs: seq<real>, sn: seq<real>, k: nat, sqrt: real -> real)
    requires IsSqrt(sqrt) && k + 1 < |h| && k <= |cs| && k <= |sn| && UnitRotations(cs, sn, k)
    requires ApplyStored(h, cs, sn, k)[k] != 0.0
    ensures var r := Eliminate(ApplyStored(h, cs, sn, k), k, sqrt);
            Dot(r, r) == Dot(h, h)
  {
    ApplyStoredPreservesNorm(h, cs, sn, k);
    EliminatePreservesNorm(ApplyStored(h, cs, sn, k), k, sqrt);
  }

  /** The new rotation keeps the length of the column when its entry `k` is non-zero. */
  lemma EliminatePreservesNorm(h: seq<real>, k: nat, sqrt: real -> real)
    requires IsSqrt(sqrt) && k + 1 < |h| && h[k] != 0.0
    ensures Dot(Eliminate(h, k, sqrt), Eliminate(h, k, sqrt)) == Dot(h, h)
  {
    RotateAndZeroPreservesNorm(h, k, GivensRotation(h[k], h[k + 1], sqrt));
  }

  lemma RotateAndZeroPreservesNorm(h: seq<real>, k: nat, g: Rotation)
    requires k + 1 < |h|
    requires Times(Upper(g, h[k], h[k + 1]), Upper(g, h[k], h[k + 1])) == h[k] * h[k] + h[k + 1] * h[k + 1]
    ensures Dot(RotateAndZero(h, k, g), RotateAndZero(h, k, g)) == Dot(h, h)
  {
    ZeroPairNorm(h, k, Upper(g, h[k], h[k + 1]));
  }

  /** Replacing the pair `h[k], h[k + 1]` by `a, 0` with `a` of the pair's length keeps the norm. */
  lemma ZeroPairNorm(h: seq<real>, k: nat, a: real)
    requires k + 1 < |h| && Times(a, a) == h[k] * h[k] + h[k + 1] * h[k + 1]
    ensures Dot(ZeroPair(h, k, a), ZeroPair(h, k, a)) == Dot(h, h)
  {
    PairUpdateNorm(h, k, a, 0.0);
  }

  /**
   * The degenerate branch: when entry `k` is zero on arrival the "rotation" is
   * `(0, 0)`, and both entries `k` and `k + 1` come out zero.
   */
  lemma DegenerateRotationClears(h: seq<real>, k: nat, sqrt: real -> real)
    requires IsSqrt(sqrt) && k + 1 < |h| && h[k] == 0.0
    ensures GivensRotation(h[k], h[k + 1], sqrt) == Rotation(0.0, 0.0)
    ensures Eliminate(h, k, sqrt)[k] == 0.0 && Eliminate(h, k, sqrt)[k + 1] == 0.0
  {
  }

  /**
   * Stored rotations that are all `(0, 0)` (the arrays `cs` and `sn` as
   * `solve_impl` leaves them) wipe entries `0 .. m` of the column.
   */
  lemma {:induction false} ZeroRotationsClear(h: seq<real>, cs: seq<real>, sn: seq<real>, m: nat)
    requires 1 <= m < |h| && m <= |cs| && m <= |sn|
    requires forall i :: 0 <= i < m ==> cs[i] == 0.0 && sn[i] == 0.0
    ensures forall j :: 0 <= j <= m ==> ApplyStored(h, cs, sn, m)[j] == 0.0
  {
    if m > 1 {
      ZeroRotationsClear(h, cs, sn, m - 1);
    }
  }

  // ---------------------------------------------------------------- arnoldi

  /** Every vector of `Q` has length `m`. */
  predicate Columns(Q: seq<Vector>, m: nat)
  {
    forall j :: 0 <= j < |Q| ==> |Q[j]| == m
  }

  /** Pairwise orthogonal unit vectors. */
  predicate Orthonormal(Q: seq<Vector>, m: nat)
    requires Columns(Q, m)
  {
    forall a, b :: 0 <= a < |Q| && 0 <= b < |Q| ==> Dot(Q[a], Q[b]) == if a == b then 1.0 else 0.0
  }

  /** A basis column: a vector, or the all-NaN result of dividing by a zero norm. */
  datatype Direction = Defined(v: Vector) | Undefined

  /**
   * The modified Gram-Schmidt sweep of `arnoldi` after its first `i` steps:
   * the vector left once its components along `Q[0], ..., Q[i - 1]` have been
   * removed one after the other, and the coefficients removed.
   */
  function Sweep(v: Vector, Q: seq<Vector>, i: nat): (state: (Vector, seq<real>))
    requires i <= |Q| && Columns(Q, |v|)
    ensures |state.0| == |v| && |state.1| == i
  {
    if i == 0 then (v, [])
    else
      var (w, c) := Sweep(v, Q, i - 1);
      (Sub(w, Scale(Dot(w, Q[i - 1]), Q[i - 1])), c + [Dot(w, Q[i - 1])])
  }

  /** `c[0] * Q[0] + ... + c[i - 1] * Q[i - 1]`. */
  function Combination(Q: seq<Vector>, c: seq<real>, i: nat, m: nat): (s: Vector)
    requires i <= |Q| && i <= |c| && Columns(Q, m)
    ensures |s| == m
  {
    if i == 0 then Zeros(m) else Add(Combination(Q, c, i - 1, m), Scale(c[i - 1], Q[i - 1]))
  }

  /** `q / norm(q)`: a unit vector, or `Undefined` when the norm is zero. */
  function Normalise(w: Vector, sqrt: real -> real): (d: Direction)
    requires IsSqrt(sqrt)
    ensures d.Undefined? <==> w == Zeros(|w|)
    ensures d.Defined? ==> |d.v| == |w| && Dot(d.v, d.v) == 1.0
  {
    var t := Norm(w, sqrt);
    if t == 0.0 then
      DotSelfZero(w);
      Undefined
    else
      NormaliseUnit(w, t);
      NotZeros(w);
      Defined(Scale(1.0 / t, w))
  }

  lemma NormaliseUnit(w: Vector, t: real)
    requires t != 0.0 && t * t == Dot(w, w)
    ensures Dot(Scale(1.0 / t, w), Scale(1.0 / t, w)) == 1.0
  {
    DotScale(Scale(1.0 / t, w), 1.0 / t, w);
    DotSymmetric(Scale(1.0 / t, w), w);
    DotScale(w, 1.0 / t, w);
    InverseSquare(t, Dot(w, w));
  }

  lemma NotZeros(w: Vector)
    requires Dot(w, w) != 0.0
    ensures w != Zeros(|w|)
  {
    if w == Zeros(|w|) {
      DotWithZeros(w, w);
    }
  }

  lemma InverseSquare(t: real, d: real)
    requires t != 0.0 && t * t == d
    ensures (1.0 / t) * ((1.0 / t) * d) == 1.0
  {
  }

  /**
   * `arnoldi(A, Q, k)`: `q = A * Q[k]`, then for `i = 0..k` the coefficient
   * `h[i] = q . Q[i]` is taken and `h[i] * Q[i]` removed from `q`; finally
   * `h[k + 1] = norm(q)` and `q / h[k + 1]` is the next basis column.
   */
  method Arnoldi(A: Matrix, Q: seq<Vector>, k: nat, sqrt: real -> real) returns (h: seq<real>, next: Direction)
    requires IsSqrt(sqrt) && k < |Q| && IsSquare(A, |A|) && Columns(Q, |A|)
    ensures |h| == k + 2
    ensures h[..k + 1] == Sweep(MatVec(A, Q[k]), Q, k + 1).1
    ensures h[k + 1] == Norm(Sweep(MatVec(A, Q[k]), Q, k + 1).0, sqrt)
    ensures next == Normalise(Sweep(MatVec(A, Q[k]), Q, k + 1).0, sqrt)
  {
    var q := MatVec(A, Q[k]);
    var column := new real[k + 2];
    var i := 0;
    while i <= k
      invariant i <= k + 1 && |q| == |A|
      invariant (q, column[..i]) == Sweep(MatVec(A, Q[k]), Q, i)
    {
      column[i] := Dot(q, Q[i]);
      q := Sub(q, Scale(column[i], Q[i]));
      assert column[..i + 1] == column[..i] + [column[i]];
      i := i + 1;
    }
    column[k + 1] := Norm(q, sqrt);
    next := Normalise(q, sqrt);
    h := column[..];
    assert h[..k + 1] == column[..k + 1];
  }

  /** The sweep only ever splits `v`: what is left plus what was removed is `v` again. */
  lemma {:induction false} SweepExpansion(v: Vector, Q: seq<Vector>, i: nat)
    requires i <= |Q| && Columns(Q, |v|)
    ensures Add(Sweep(v, Q, i).0, Combination(Q, Sweep(v, Q, i).1, i, |v|)) == v
  {
    if i > 0 {
      SweepExpansion(v, Q, i - 1);
      var (w, c) := Sweep(v, Q, i - 1);
      var a := Dot(w, Q[i - 1]);
      CombinationPrefix(Q, c, [a], i - 1, |v|);
      assert Sweep(v, Q, i).1 == c + [a];
      var s := Combination(Q, c, i - 1, |v|);
      assert Combination(Q, c + [a], i, |v|) == Add(s, Scale(a, Q[i - 1]));
      forall t | 0 <= t < |v|
        ensures Add(Sub(w, Scale(a, Q[i - 1])), Add(s, Scale(a, Q[i - 1])))[t] == v[t]
      {
        assert Add(w, s)[t] == v[t];
      }
    }
  }

  /** A combination reads only the first `i` coefficients. */
  lemma {:induction false} CombinationPrefix(Q: seq<Vector>, c: seq<real>, d: seq<real>, i: nat, m: nat)
    requires i <= |Q| && i <= |c| && Columns(Q, m)
    ensures Combination(Q, c + d, i, m) == Combination(Q, c, i, m)
  {
    if i > 0 {
      CombinationPrefix(Q, c, d, i - 1, m);
      assert (c + d)[i - 1] == c[i - 1];
    }
  }

  /**
   * Against an orthonormal basis, the sweep leaves a vector orthogonal to
   * every column it has swept.
   */
  lemma {:induction false} SweepOrthogonal(v: Vector, Q: seq<Vector>, i: nat)
    requires i <= |Q| && Columns(Q, |v|) && Orthonormal(Q, |v|)
    ensures forall j :: 0 <= j < i ==> Dot(Q[j], Sweep(v, Q, i).0) == 0.0
  {
    if i > 0 {
      SweepOrthogonal(v, Q, i - 1);
      var w := Sweep(v, Q, i - 1).0;
      forall j | 0 <= j < i
        ensures Dot(Q[j], Sub(w, Scale(Dot(w, Q[i - 1]), Q[i - 1]))) == 0.0
      {
        DotSub(Q[j], w, Scale(Dot(w, Q[i - 1]), Q[i - 1]));
        DotScale(Q[j], Dot(w, Q[i - 1]), Q[i - 1]);
        if j == i - 1 {
          DotSymmetric(w, Q[i - 1]);
        }
      }
    }
  }

  /** Appending a unit vector orthogonal to an orthonormal family keeps it orthonormal. */
  lemma ExtendOrthonormal(Q: seq<Vector>, u: Vector, m: nat)
    requires Columns(Q, m) && Orthonormal(Q, m) && |u| == m && Dot(u, u) == 1.0
    requires forall j :: 0 <= j < |Q| ==> Dot(Q[j], u) == 0.0
    ensures Columns(Q + [u], m) && Orthonormal(Q + [u], m)
  {
    var Q' := Q + [u];
    forall a, b | 0 <= a < |Q'| && 0 <= b < |Q'|
      ensures Dot(Q'[a], Q'[b]) == if a == b then 1.0 else 0.0
    {
      if a < |Q| && b == |Q| {
        assert Q'[a] == Q[a];
      } else if a == |Q| && b < |Q| {
        assert Q'[b] == Q[b];
        DotSymmetric(u, Q[b]);
      }
    }
  }

  /** The column produced by normalising the swept vector extends an orthonormal basis. */
  lemma NextColumnOrthonormal(A: Matrix, Q: seq<Vector>, sqrt: real -> real)
    requires IsSqrt(sqrt) && 0 < |Q| && IsSquare(A, |A|) && Columns(Q, |A|) && Orthonormal(Q, |A|)
    ensures var next := Normalise(Sweep(MatVec(A, Q[|Q| - 1]), Q, |Q|).0, sqrt);
            next.Defined? ==> Columns(Q + [next.v], |A|) && Orthonormal(Q + [next.v], |A|)
  {
    SweepOrthogonal(MatVec(A, Q[|Q| - 1]), Q, |Q|);
    if Normalise(Sweep(MatVec(A, Q[|Q| - 1]), Q, |Q|).0, sqrt).Defined? {
      ScaledOrthonormal(Q, Sweep(MatVec(A, Q[|Q| - 1]), Q, |Q|).0, 1.0 / Norm(Sweep(MatVec(A, Q[|Q| - 1]), Q, |Q|).0, sqrt), |A|);
    }
  }

  /** A unit multiple of a vector orthogonal to an orthonormal family extends it. */
  lemma ScaledOrthonormal(Q: seq<Vector>, w: Vector, a: real, m: nat)
    requires Columns(Q, m) && Orthonormal(Q, m) && |w| == m && Dot(Scale(a, w), Scale(a, w)) == 1.0
    requires forall j :: 0 <= j < |Q| ==> Dot(Q[j], w) == 0.0
    ensures Columns(Q + [Scale(a, w)], m) && Orthonormal(Q + [Scale(a, w)], m)
  {
    forall j | 0 <= j < |Q|
      ensures Dot(Q[j], Scale(a, w)) == 0.0
    {
      DotScale(Q[j], a, w);
    }
    ExtendOrthonormal(Q, Scale(a, w), m);
  }

  /** A single unit vector is an orthonormal family. */
  lemma SingleOrthonormal(u: Vector)
    requires Dot(u, u) == 1.0
    ensures Columns([u], |u|) && Orthonormal([u], |u|)
  {
  }

  // ---------------------------------------------------------------- solve_impl

  /** How the outer loop of `solve_impl` ends. */
  datatype Exit =
    | Converged(pass: nat)       // `err <= eps` at the end of pass `pass`: the `break`
    | Exhausted                  // all `n` passes ran
    | UndefinedBasis(pass: nat)  // pass `pass` would run Arnoldi on a column that is a division by zero

  /** The `eps` of the early exit. */
  const Tolerance: real := 0.000000000001

  /** The column `h` written into a column of `H` of length `rows`, zero below `h`. */
  function Pad(h: seq<real>, rows: nat): (c: seq<real>)
    requires |h| <= rows
    ensures |c| == rows && c[..|h|] == h && forall t :: |h| <= t < rows ==> c[t] == 0.0
  {
    h + Zeros(rows - |h|)
  }

  /** Arnoldi's column for `k = |Q| - 1`: the swept coefficients, then the norm of what is left. */
  function ArnoldiColumn(A: Matrix, Q: seq<Vector>, sqrt: real -> real): (h: seq<real>)
    requires IsSqrt(sqrt) && 0 < |Q| && IsSquare(A, |A|) && Columns(Q, |A|)
    ensures |h| == |Q| + 1
  {
    Sweep(MatVec(A, Q[|Q| - 1]), Q, |Q|).1 + [Norm(Sweep(MatVec(A, Q[|Q| - 1]), Q, |Q|).0, sqrt)]
  }

  /** Arnoldi's column for `k = |Q| - 1`, padded to `rows` and rotated by the `k` stored rotations. */
  function Rotated(A: Matrix, Q: seq<Vector>, cs: seq<real>, sn: seq<real>, rows: nat, sqrt: real -> real): (h: seq<real>)
    requires IsSqrt(sqrt) && 0 < |Q| && IsSquare(A, |A|) && Columns(Q, |A|)
    requires |Q| + 1 <= rows && |Q| - 1 <= |cs| && |Q| - 1 <= |sn|
    ensures |h| == rows
  {
    ApplyStored(Pad(ArnoldiColumn(A, Q, sqrt), rows), cs, sn, |Q| - 1)
  }

  /** Rotations read only the stored entries below `m`. */
  lemma {:induction false} ApplyStoredPrefix(h: seq<real>, cs: seq<real>, sn: seq<real>, m: nat)
    requires m < |h| && m <= |cs| && m <= |sn|
    ensures ApplyStored(h, cs, sn, m) == ApplyStored(h, cs[..m], sn[..m], m)
    decreases m
  {
    if m > 0 {
      ApplyStoredPrefix(h, cs[..m], sn[..m], m - 1);
      ApplyStoredPrefix(h, cs, sn, m - 1);
      assert cs[..m][..m - 1] == cs[..m - 1] && sn[..m][..m - 1] == sn[..m - 1];
    }
  }

  /**
   * Lines 114-119 of one pass: Arnoldi on the first `k + 1` basis columns,
   * the column written into `H` and rotated in place.
   */
  method NextColumn(A: Matrix, Q: seq<Vector>, k: nat, cs: seq<real>, sn: seq<real>, rows: nat, sqrt: real -> real)
    returns (column: seq<real>, g: Rotation, next: Direction)
    requires IsSqrt(sqrt) && |Q| == k + 1 && IsSquare(A, |A|) && Columns(Q, |A|)
    requires k + 2 <= rows && k <= |cs| && k <= |sn|
    ensures g == GivensRotation(Rotated(A, Q, cs[..k], sn[..k], rows, sqrt)[k], Rotated(A, Q, cs[..k], sn[..k], rows, sqrt)[k + 1], sqrt)
    ensures column == Eliminate(Rotated(A, Q, cs[..k], sn[..k], rows, sqrt), k, sqrt)
    ensures next == Normalise(Sweep(MatVec(A, Q[k]), Q, k + 1).0, sqrt)
  {
    var h;
    h, next := Arnoldi(A, Q, k, sqrt);
    ArnoldiColumnParts(A, Q, h, sqrt);
    var H := PadInto(h, rows);
    ApplyStoredPrefix(H[..], cs, sn, k);
    g := ApplyGivensRotation(H, cs, sn, k, sqrt);
    column := H[..];
  }

  /** A column with Arnoldi's coefficients and final norm is `ArnoldiColumn`. */
  lemma ArnoldiColumnParts(A: Matrix, Q: seq<Vector>, h: seq<real>, sqrt: real -> real)
    requires IsSqrt(sqrt) && 0 < |Q| && IsSquare(A, |A|) && Columns(Q, |A|) && |h| == |Q| + 1
    requires h[..|Q|] == Sweep(MatVec(A, Q[|Q| - 1]), Q, |Q|).1
    requires h[|Q|] == Norm(Sweep(MatVec(A, Q[|Q| - 1]), Q, |Q|).0, sqrt)
    ensures h == ArnoldiColumn(A, Q, sqrt)
  {
    var w := Sweep(MatVec(A, Q[|Q| - 1]), Q, |Q|);
    SplitLast(h, w.1, Norm(w.0, sqrt));
  }

  lemma SplitLast(h: seq<real>, a: seq<real>, x: real)
    requires |h| == |a| + 1 && h[..|a|] == a && h[|a|] == x
    ensures h == a + [x]
  {
    assert h == h[..|a|] + [h[|a|]];
  }

  /** Line 115: Arnoldi's column copied into a fresh column of `H`, zero below it. */
  method PadInto(h: seq<real>, rows: nat) returns (H: array<real>)
    requires |h| <= rows
    ensures fresh(H) && H[..] == Pad(h, rows)
  {
    H := new real[rows](t => if 0 <= t < |h| then h[t] else 0.0);
    assert forall t :: 0 <= t < rows ==> H[..][t] == Pad(h, rows)[t];
  }

  /** Column `k` of `H` is zero below its diagonal once its own rotation has been applied. */
  lemma HessenbergTriangular(A: Matrix, Q: seq<Vector>, cs: seq<real>, sn: seq<real>, rows: nat, sqrt: real -> real)
    requires IsSqrt(sqrt) && 0 < |Q| && IsSquare(A, |A|) && Columns(Q, |A|)
    requires |Q| + 1 <= rows && |Q| - 1 <= |cs| && |Q| - 1 <= |sn|
    ensures var column := Eliminate(Rotated(A, Q, cs, sn, rows, sqrt), |Q| - 1, sqrt);
            forall t :: |Q| - 1 < t < rows ==> column[t] == 0.0
  {
    EliminateShape(Pad(ArnoldiColumn(A, Q, sqrt), rows), cs, sn, |Q| - 1, sqrt);
  }

  /**
   * When Arnoldi's new column is a division by zero, the rotation it leads to
   * has a zero sine: the column's last entry is the zero norm, and the stored
   * rotations leave that entry alone.
   */
  lemma BreakdownRotation(A: Matrix, Q: seq<Vector>, cs: seq<real>, sn: seq<real>, rows: nat, sqrt: real -> real)
    requires IsSqrt(sqrt) && 0 < |Q| && IsSquare(A, |A|) && Columns(Q, |A|)
    requires |Q| + 1 <= rows && |Q| - 1 <= |cs| && |Q| - 1 <= |sn|
    requires Normalise(Sweep(MatVec(A, Q[|Q| - 1]), Q, |Q|).0, sqrt).Undefined?
    ensures var rotated := Rotated(A, Q, cs, sn, rows, sqrt);
            GivensRotation(rotated[|Q| - 1], rotated[|Q|], sqrt).sn == 0.0
  {
    var w := Sweep(MatVec(A, Q[|Q| - 1]), Q, |Q|).0;
    DotWithZeros(w, w);
    assert ArnoldiColumn(A, Q, sqrt)[|Q|] == 0.0;
    ApplyStoredFrame(Pad(ArnoldiColumn(A, Q, sqrt), rows), cs, sn, |Q| - 1, |Q|);
    ZeroSine(Rotated(A, Q, cs, sn, rows, sqrt)[|Q| - 1], sqrt);
  }

  /** The rotation of a pair whose second entry is zero has a zero sine. */
  lemma ZeroSine(v1: real, sqrt: real -> real)
    requires IsSqrt(sqrt)
    ensures GivensRotation(v1, 0.0, sqrt).sn == 0.0
  {
    var g := GivensRotation(v1, 0.0, sqrt);
    if v1 != 0.0 {
      assert g.sn * v1 == 0.0;
    }
  }

  /** The two kinds of rotation `givens_rotation` produces: the degenerate `(0, 0)` and unit ones. */
  predicate UnitOrZero(c: real, s: real)
  {
    (c == 0.0 && s == 0.0) || c * c + s * s == 1.0
  }

  /**
   * Lines 121-122 of pass `k` with the rotation `(c, s)`: `beta[k + 1] = -s * beta[k]`,
   * then `beta[k] = c * beta[k]`.
   */
  function RotateBeta(beta: seq<real>, k: nat, c: real, s: real): (beta': seq<real>)
    requires k + 1 < |beta|
    ensures |beta'| == |beta| && beta'[k + 1] == Times(-s, beta[k]) && beta'[k] == Times(c, beta[k])
    ensures forall t :: 0 <= t < |beta| && t != k && t != k + 1 ==> beta'[t] == beta[t]
  {
    beta[k + 1 := Times(-s, beta[k])][k := Times(c, beta[k])]
  }

  /**
   * While `beta[k + 1]` is still zero, a unit rotation keeps the length of
   * `beta` and the degenerate one shortens it.
   */
  lemma RotateBetaNorm(beta: seq<real>, k: nat, c: real, s: real)
    requires k + 1 < |beta| && beta[k + 1] == 0.0 && UnitOrZero(c, s)
    ensures Dot(RotateBeta(beta, k, c, s), RotateBeta(beta, k, c, s)) <= Dot(beta, beta)
    ensures c * c + s * s == 1.0 ==> Dot(RotateBeta(beta, k, c, s), RotateBeta(beta, k, c, s)) == Dot(beta, beta)
  {
    if c == 0.0 && s == 0.0 {
      RotateBetaZero(beta, k, c, s);
      ZeroNotUnit(c, s);
    } else {
      RotateBetaUnit(beta, k, c, s);
    }
  }

  /** The `(0, 0)` rotation clears `beta[k]`, which can only shorten `beta`. */
  lemma RotateBetaZero(beta: seq<real>, k: nat, c: real, s: real)
    requires k + 1 < |beta| && beta[k + 1] == 0.0 && c == 0.0 && s == 0.0
    ensures Dot(RotateBeta(beta, k, c, s), RotateBeta(beta, k, c, s)) <= Dot(beta, beta)
  {
    ZeroRotationClears(beta, k, c, s);
    ClearingShortens(beta, k);
  }

  lemma ClearingShortens(v: Vector, k: nat)
    requires k < |v|
    ensures Dot(v[k := 0.0], v[k := 0.0]) <= Dot(v, v)
  {
    DotSelfUpdate(v, k, 0.0);
    SquareNonNegative(v[k]);
  }

  lemma ZeroRotationClears(beta: seq<real>, k: nat, c: real, s: real)
    requires k + 1 < |beta| && beta[k + 1] == 0.0 && c == 0.0 && s == 0.0
    ensures RotateBeta(beta, k, c, s) == beta[k := 0.0]
  {
    TimesZero(c, beta[k]);
    TimesZero(-s, beta[k]);
  }

  lemma TimesZero(a: real, x: real)
    requires a == 0.0
    ensures Times(a, x) == 0.0
  {
  }

  lemma ZeroNotUnit(c: real, s: real)
    requires c == 0.0 && s == 0.0
    ensures c * c + s * s != 1.0
  {
  }

  /** A unit rotation moves the length of `beta[k]` into the pair without changing the total. */
  lemma RotateBetaUnit(beta: seq<real>, k: nat, c: real, s: real)
    requires k + 1 < |beta| && beta[k + 1] == 0.0 && c * c + s * s == 1.0
    ensures Dot(RotateBeta(beta, k, c, s), RotateBeta(beta, k, c, s)) == Dot(beta, beta)
  {
    PairNorm(beta, k, Times(c, beta[k]), Times(-s, beta[k]));
    UnitSquares(c, s, beta[k]);
  }

  /** `(c x)^2 + (-s x)^2 == x^2` when `c^2 + s^2 == 1`. */
  lemma UnitSquares(c: real, s: real, x: real)
    requires c * c + s * s == 1.0
    ensures Times(-s, x) * Times(-s, x) + Times(c, x) * Times(c, x) == x * x
  {
    assert (-s * x) * (-s * x) + (c * x) * (c * x) == (c * c + s * s) * (x * x);
  }

  /** Writing `a` over a zero `beta[k + 1]`, then `c` over `beta[k]`, changes the squared length by the squares. */
  lemma PairNorm(beta: seq<real>, k: nat, c: real, a: real)
    requires k + 1 < |beta| && beta[k + 1] == 0.0
    ensures Dot(beta[k + 1 := a][k := c], beta[k + 1 := a][k := c]) == Dot(beta, beta) - beta[k] * beta[k] + a * a + c * c
  {
    DotSelfUpdate(beta, k + 1, a);
    DotSelfUpdate(beta[k + 1 := a], k, c);
  }

  /** `beta = norm(r) * e1` has the length of `r` and is zero past its first entry. */
  lemma InitialBeta(r: Vector, t: real, n: nat, beta: seq<real>)
    requires t * t == Dot(r, r) && beta == Scale(t, UnitVector(n + 1, 0))
    ensures Dot(beta, beta) == Dot(r, r)
    ensures forall j :: 0 < j < |beta| ==> beta[j] == 0.0
  {
    var e := UnitVector(n + 1, 0);
    assert forall j :: 0 <= j < |beta| ==> beta[j] == t * e[j];
    DotSelect(beta, beta, 0);
    SameSquare(beta[0], t);
  }

  lemma SameSquare(x: real, y: real)
    requires x == y
    ensures x * x == y * y
  {
  }

  /** `r = b - A * x0`. */
  function InitialResidual(A: Matrix, b: Vector, x0: Vector): (r: Vector)
    requires IsSquare(A, |b|) && |x0| == |b|
    ensures |r| == |b|
  {
    Sub(b, MatVec(A, x0))
  }

  /** The passes completed for each way the loop ends. */
  predicate Passes(exit: Exit, n: nat, passes: nat)
  {
    match exit
    case Converged(k) => passes == k + 1
    case Exhausted => passes == n
    case UndefinedBasis(k) => passes == k
  }

  /** A rotation computed by `givens_rotation` is either `(0, 0)` or a unit rotation. */
  lemma StoredRotationKind(v1: real, v2: real, sqrt: real -> real)
    requires IsSqrt(sqrt)
    ensures UnitOrZero(GivensRotation(v1, v2, sqrt).cs, GivensRotation(v1, v2, sqrt).sn)
  {
  }

  /**
   * The state of `solve_impl` between passes: the basis columns Arnoldi has
   * used, the column written last (`Q[k]` before pass `k`), the columns of
   * `H`, the vectors `cs`, `sn` and `beta`, and the `abs(beta[k + 1])` of
   * every pass so far (the numerator of `err`).
   */
  datatype Krylov = Krylov(Q: seq<Vector>, last: Direction, H: seq<Vector>, cs: seq<real>, sn: seq<real>,
                           beta: seq<real>, residuals: seq<real>)

  predicate Shaped(s: Krylov, m: nat, n: nat)
  {
    |s.Q| == |s.H| == |s.residuals| <= n && Columns(s.Q, m) && (s.last.Defined? ==> |s.last.v| == m) &&
    Columns(s.H, n + 1) && |s.cs| == n && |s.sn| == n && |s.beta| == n + 1
  }

  /** Lines 106-111: `r = b - A x0`, `Q[0] = r / norm(r)`, `beta = norm(r) e1`, `cs = sn = 0`. */
  function Start(A: Matrix, b: Vector, x0: Vector, n: nat, sqrt: real -> real): (s: Krylov)
    requires IsSqrt(sqrt) && IsSquare(A, |b|) && |x0| == |b|
    ensures Shaped(s, |b|, n) && |s.H| == 0
  {
    Krylov([], Normalise(InitialResidual(A, b, x0), sqrt), [], Zeros(n), Zeros(n),
           Scale(Norm(InitialResidual(A, b, x0), sqrt), UnitVector(n + 1, 0)), [])
  }

  /**
   * Lines 118-123 of pass `k = |s.H|`, given the pass's column of `H`, its
   * rotation `g` and the basis column Arnoldi wrote: with `stored` `g` is
   * written to `cs[k]` and `sn[k]`, without it, as in the source, `cs` and
   * `sn` are left as they are; then `beta` is rotated by `(cs[k], sn[k])`.
   */
  function Advance(s: Krylov, column: Vector, g: Rotation, next: Direction, stored: bool): (s': Krylov)
    requires |s.H| < |s.cs| && |s.H| < |s.sn| && |s.H| + 1 < |s.beta| && s.last.Defined?
    ensures s'.Q == s.Q + [s.last.v] && s'.last == next && s'.H == s.H + [column]
    ensures |s'.cs| == |s.cs| && |s'.sn| == |s.sn| && |s'.beta| == |s.beta| && s'.residuals == s.residuals + [Abs(s'.beta[|s.H| + 1])]
  {
    var k := |s.H|;
    var cs := if stored then s.cs[k := g.cs] else s.cs;
    var sn := if stored then s.sn[k := g.sn] else s.sn;
    var beta := RotateBeta(s.beta, k, cs[k], sn[k]);
    Krylov(s.Q + [s.last.v], next, s.H + [column], cs, sn, beta, s.residuals + [Abs(beta[k + 1])])
  }

  /**
   * Lines 114-123, pass `k = |s.H|`: Arnoldi on `Q[0..k]`, the column rotated
   * into `H` by `apply_givens_rotation`, then `Advance`.
   */
  function Step(A: Matrix, s: Krylov, n: nat, sqrt: real -> real, stored: bool): (s': Krylov)
    requires IsSqrt(sqrt) && IsSquare(A, |A|) && Shaped(s, |A|, n) && |s.H| < n && s.last.Defined?
    ensures Shaped(s', |A|, n) && |s'.H| == |s.H| + 1 && s'.residuals == s.residuals + [Abs(s'.beta[|s.H| + 1])]
  {
    var k := |s.H|;
    var Q := s.Q + [s.last.v];
    var rotated := Rotated(A, Q, s.cs[..k], s.sn[..k], n + 1, sqrt);
    Advance(s, Eliminate(rotated, k, sqrt), GivensRotation(rotated[k], rotated[k + 1], sqrt),
            Normalise(Sweep(MatVec(A, Q[k]), Q, k + 1).0, sqrt), stored)
  }

  /**
   * The state after `k` passes from `Start`, each one a `Step`; a state whose
   * basis column is a division by zero, or which has made its `n` passes, is
   * not stepped again.
   */
  function Run(A: Matrix, b: Vector, x0: Vector, n: nat, sqrt: real -> real, stored: bool, k: nat): (s: Krylov)
    requires IsSqrt(sqrt) && IsSquare(A, |b|) && |x0| == |b|
    ensures Shaped(s, |b|, n)
  {
    if k == 0 then Start(A, b, x0, n, sqrt)
    else
      var before := Run(A, b, x0, n, sqrt, stored, k - 1);
      if |before.H| < n && before.last.Defined? then Step(A, before, n, sqrt, stored) else before
  }

  /**
   * `trace[i]` is the state after `i` passes: the trace starts from `Start`
   * and each state is the `Step` of the one before it.
   */
  ghost predicate IsTrace(A: Matrix, b: Vector, x0: Vector, n: nat, sqrt: real -> real, stored: bool, trace: seq<Krylov>)
    requires IsSqrt(sqrt) && IsSquare(A, |b|) && |x0| == |b|
  {
    && |trace| > 0 && trace[0] == Start(A, b, x0, n, sqrt)
    && (forall i :: 0 <= i < |trace| ==> Shaped(trace[i], |b|, n))
    && (forall i :: 0 <= i < |trace| - 1 ==> |trace[i].H| < n && trace[i].last.Defined?)
    && (forall i {:trigger Step(A, trace[i], n, sqrt, stored)} ::
          0 <= i < |trace| - 1 ==> Step(A, trace[i], n, sqrt, stored) == trace[i + 1])
  }

  lemma TraceExtend(A: Matrix, b: Vector, x0: Vector, n: nat, sqrt: real -> real, stored: bool, trace: seq<Krylov>)
    requires IsSqrt(sqrt) && IsSquare(A, |b|) && |x0| == |b| && IsTrace(A, b, x0, n, sqrt, stored, trace)
    requires |trace[|trace| - 1].H| < n && trace[|trace| - 1].last.Defined?
    ensures IsTrace(A, b, x0, n, sqrt, stored, trace + [Step(A, trace[|trace| - 1], n, sqrt, stored)])
  {
    var extended := trace + [Step(A, trace[|trace| - 1], n, sqrt, stored)];
    assert forall i :: 0 <= i < |trace| ==> extended[i] == trace[i];
    forall i | 0 <= i < |extended| - 1
      ensures Step(A, extended[i], n, sqrt, stored) == extended[i + 1]
    {
      if i < |trace| - 1 {
        assert Step(A, trace[i], n, sqrt, stored) == trace[i + 1];
      }
    }
  }

  /** A trace lists the states of the run, and pass `i` is the one that made state `i + 1`. */
  lemma TraceRun(A: Matrix, b: Vector, x0: Vector, n: nat, sqrt: real -> real, stored: bool,
                 trace: seq<Krylov>, k: nat)
    requires IsSqrt(sqrt) && IsSquare(A, |b|) && |x0| == |b| && IsTrace(A, b, x0, n, sqrt, stored, trace)
    requires k < |trace|
    ensures Run(A, b, x0, n, sqrt, stored, k) == trace[k]
  {
    StepsRun(A, b, x0, n, sqrt, stored, trace, k);
  }

  /** The induction behind `TraceRun`, from the facts about the first `k` passes alone. */
  lemma {:induction false} StepsRun(A: Matrix, b: Vector, x0: Vector, n: nat, sqrt: real -> real, stored: bool,
                                    trace: seq<Krylov>, k: nat)
    requires IsSqrt(sqrt) && IsSquare(A, |b|) && |x0| == |b| && k < |trace|
    requires Run(A, b, x0, n, sqrt, stored, 0) == trace[0]
    requires forall i :: 0 <= i < k ==> Shaped(trace[i], |A|, n) && |trace[i].H| < n && trace[i].last.Defined?
    requires forall i {:trigger Step(A, trace[i], n, sqrt, stored)} ::
               0 <= i < k ==> Step(A, trace[i], n, sqrt, stored) == trace[i + 1]
    ensures forall j: nat :: j <= k ==> Run(A, b, x0, n, sqrt, stored, j) == trace[j]
  {
    if k > 0 {
      StepsRun(A, b, x0, n, sqrt, stored, trace, k - 1);
      RunStep(A, b, x0, n, sqrt, stored, k, trace[k - 1], trace[k]);
    }
  }

  /** The run one pass further is the `Step` of the run so far, while that state can take one. */
  lemma RunStep(A: Matrix, b: Vector, x0: Vector, n: nat, sqrt: real -> real, stored: bool, k: nat, p: Krylov, q: Krylov)
    requires IsSqrt(sqrt) && IsSquare(A, |b|) && |x0| == |b| && k > 0
    requires Run(A, b, x0, n, sqrt, stored, k - 1) == p && Shaped(p, |A|, n) && |p.H| < n && p.last.Defined?
    requires Step(A, p, n, sqrt, stored) == q
    ensures Run(A, b, x0, n, sqrt, stored, k) == q
  {
  }

  /** The basis columns used so far, and the one written last, are orthonormal. */
  predicate OrthonormalBasis(s: Krylov, m: nat)
  {
    Columns(s.Q, m) && Orthonormal(s.Q, m) &&
    (s.last.Defined? ==> Columns(s.Q + [s.last.v], m) && Orthonormal(s.Q + [s.last.v], m))
  }

  /** Every column of `H` is zero below its diagonal entry. */
  predicate UpperTriangular(H: seq<Vector>)
  {
    forall j, t :: 0 <= j < |H| && j < t < |H[j]| ==> H[j][t] == 0.0
  }

  /** Every entry of `cs`, `sn` is a unit or a `(0, 0)` rotation, and those not yet written are zero. */
  predicate RotationKinds(s: Krylov)
  {
    |s.cs| == |s.sn| &&
    (forall j :: 0 <= j < |s.cs| ==> UnitOrZero(s.cs[j], s.sn[j])) &&
    (forall j :: |s.H| <= j < |s.cs| ==> s.cs[j] == 0.0 && s.sn[j] == 0.0)
  }

  /**
   * `beta` is zero past entry `|H|` and never longer than the initial residual
   * `r`, and exactly as long while every rotation applied so far is a unit one.
   */
  predicate BetaBounded(s: Krylov, r: Vector)
  {
    (forall t :: |s.H| < t < |s.beta| ==> s.beta[t] == 0.0) &&
    Dot(s.beta, s.beta) <= Dot(r, r) &&
    (|s.H| <= |s.cs| && |s.H| <= |s.sn| && UnitRotations(s.cs, s.sn, |s.H|) ==> Dot(s.beta, s.beta) == Dot(r, r))
  }

  /**
   * The state the source as written reaches: `cs` and `sn` still zero, and
   * once a pass has run, `beta` and every `err` zero and every column of `H`
   * after the first zero.
   */
  predicate AsWrittenState(s: Krylov, n: nat)
  {
    s.cs == Zeros(n) && s.sn == Zeros(n) &&
    (|s.H| > 0 ==> s.beta == Zeros(n + 1)) &&
    (forall j :: 0 <= j < |s.residuals| ==> s.residuals[j] == 0.0) &&
    (forall j :: 1 <= j < |s.H| ==> s.H[j] == Zeros(n + 1))
  }

  /**
   * A diagonal entry of `H` is non-zero exactly where the rotation stored for
   * its pass is a unit one.
   */
  predicate DiagonalMatchesRotations(s: Krylov)
  {
    forall j :: 0 <= j < |s.H| && j < |s.H[j]| && j < |s.cs| && j < |s.sn| ==>
      (s.H[j][j] != 0.0 <==> s.cs[j] * s.cs[j] + s.sn[j] * s.sn[j] == 1.0)
  }

  /** Everything the loop of `solve_impl` keeps true of its state. */
  predicate Invariant(s: Krylov, m: nat, n: nat, r: Vector, stored: bool)
  {
    Shaped(s, m, n) && OrthonormalBasis(s, m) && UpperTriangular(s.H) && RotationKinds(s) && BetaBounded(s, r) &&
    (stored ==> DiagonalMatchesRotations(s)) && (!stored ==> AsWrittenState(s, n))
  }

  /**
   * With the rotations stored, a triangular factor without a zero on its
   * diagonal comes with a `beta` exactly as long as the initial residual.
   */
  lemma NonZeroDiagonalBeta(s: Krylov, m: nat, n: nat, r: Vector)
    requires Invariant(s, m, n, r, true)
    ensures (forall j :: 0 <= j < |s.H| ==> s.H[j][j] != 0.0) ==> Dot(s.beta, s.beta) == Dot(r, r)
  {
    if forall j :: 0 <= j < |s.H| ==> s.H[j][j] != 0.0 {
      assert UnitRotations(s.cs, s.sn, |s.H|);
    }
  }

  /**
   * A pass keeps the invariant; with the rotations stored, a pass whose new
   * basis column is a division by zero leaves a zero residual `beta[k + 1]`.
   */
  lemma StepInvariant(A: Matrix, p: Krylov, n: nat, sqrt: real -> real, stored: bool, r: Vector)
    requires IsSqrt(sqrt) && IsSquare(A, |A|) && |p.H| < n && p.last.Defined? && Invariant(p, |A|, n, r, stored)
    ensures Invariant(Step(A, p, n, sqrt, stored), |A|, n, r, stored)
    ensures stored && Step(A, p, n, sqrt, stored).last.Undefined? ==> Step(A, p, n, sqrt, stored).beta[|p.H| + 1] == 0.0
  {
    StepBasis(A, p, n, sqrt, stored);
    StepTriangular(A, p, n, sqrt, stored);
    StepRotations(A, p, n, sqrt, stored);
    StepBeta(A, p, n, sqrt, stored, r);
    if stored {
      StepBreakdown(A, p, n, sqrt);
      StepDiagonal(A, p, n, sqrt);
    } else {
      StepAsWritten(A, p, n, sqrt, r);
    }
  }

  /**
   * The state before the first pass satisfies every invariant of the loop,
   * and its basis column is a division by zero exactly when `r` is zero.
   */
  lemma StartState(A: Matrix, b: Vector, x0: Vector, n: nat, sqrt: real -> real)
    requires IsSqrt(sqrt) && IsSquare(A, |b|) && |x0| == |b|
    ensures Start(A, b, x0, n, sqrt).last.Undefined? <==> Dot(InitialResidual(A, b, x0), InitialResidual(A, b, x0)) == 0.0
    ensures OrthonormalBasis(Start(A, b, x0, n, sqrt), |b|) && UpperTriangular(Start(A, b, x0, n, sqrt).H)
    ensures RotationKinds(Start(A, b, x0, n, sqrt)) && AsWrittenState(Start(A, b, x0, n, sqrt), n)
    ensures BetaBounded(Start(A, b, x0, n, sqrt), InitialResidual(A, b, x0))
  {
    var r := InitialResidual(A, b, x0);
    var s := Start(A, b, x0, n, sqrt);
    if Dot(r, r) == 0.0 {
      DotSelfZero(r);
    } else {
      NotZeros(r);
      SingleOrthonormal(s.last.v);
      assert s.Q + [s.last.v] == [s.last.v];
    }
    InitialBeta(r, Norm(r, sqrt), n, s.beta);
  }

  lemma StepBasis(A: Matrix, p: Krylov, n: nat, sqrt: real -> real, stored: bool)
    requires IsSqrt(sqrt) && IsSquare(A, |A|) && Shaped(p, |A|, n) && |p.H| < n && p.last.Defined?
    requires OrthonormalBasis(p, |A|)
    ensures OrthonormalBasis(Step(A, p, n, sqrt, stored), |A|)
  {
    StepUnfold(A, p, n, sqrt, stored);
    NextColumnOrthonormal(A, p.Q + [p.last.v], sqrt);
  }

  lemma StepTriangular(A: Matrix, p: Krylov, n: nat, sqrt: real -> real, stored: bool)
    requires IsSqrt(sqrt) && IsSquare(A, |A|) && Shaped(p, |A|, n) && |p.H| < n && p.last.Defined?
    requires UpperTriangular(p.H)
    ensures UpperTriangular(Step(A, p, n, sqrt, stored).H)
  {
    var column, g, next := StepFacts(A, p, n, sqrt, stored);
  }

  lemma StepRotations(A: Matrix, p: Krylov, n: nat, sqrt: real -> real, stored: bool)
    requires IsSqrt(sqrt) && IsSquare(A, |A|) && Shaped(p, |A|, n) && |p.H| < n && p.last.Defined?
    requires RotationKinds(p)
    ensures RotationKinds(Step(A, p, n, sqrt, stored))
  {
    var column, g, next := StepFacts(A, p, n, sqrt, stored);
  }

  lemma StepBeta(A: Matrix, p: Krylov, n: nat, sqrt: real -> real, stored: bool, r: Vector)
    requires IsSqrt(sqrt) && IsSquare(A, |A|) && Shaped(p, |A|, n) && |p.H| < n && p.last.Defined?
    requires RotationKinds(p) && BetaBounded(p, r)
    ensures BetaBounded(Step(A, p, n, sqrt, stored), r)
  {
    var column, g, next := StepFacts(A, p, n, sqrt, stored);
    AdvanceBeta(p, column, g, next, stored, r);
  }

  /** Rotating `beta` by a unit or `(0, 0)` rotation keeps it bounded by `r`. */
  lemma AdvanceBeta(p: Krylov, column: Vector, g: Rotation, next: Direction, stored: bool, r: Vector)
    requires |p.H| < |p.cs| && |p.H| + 1 < |p.beta| && p.last.Defined?
    requires RotationKinds(p) && BetaBounded(p, r) && UnitOrZero(g.cs, g.sn)
    ensures BetaBounded(Advance(p, column, g, next, stored), r)
  {
    var s := Advance(p, column, g, next, stored);
    var j := |p.H|;
    RotateBetaNorm(p.beta, j, s.cs[j], s.sn[j]);
    assert UnitRotations(s.cs, s.sn, j + 1) ==> UnitRotations(p.cs, p.sn, j) by {
      assert forall i :: 0 <= i < j ==> s.cs[i] == p.cs[i] && s.sn[i] == p.sn[i];
    }
  }

  lemma StepBreakdown(A: Matrix, p: Krylov, n: nat, sqrt: real -> real)
    requires IsSqrt(sqrt) && IsSquare(A, |A|) && Shaped(p, |A|, n) && |p.H| < n && p.last.Defined?
    ensures Step(A, p, n, sqrt, true).last.Undefined? ==> Step(A, p, n, sqrt, true).beta[|p.H| + 1] == 0.0
  {
    var column, g, next := StepFacts(A, p, n, sqrt, true);
  }

  lemma StepDiagonal(A: Matrix, p: Krylov, n: nat, sqrt: real -> real)
    requires IsSqrt(sqrt) && IsSquare(A, |A|) && Shaped(p, |A|, n) && |p.H| < n && p.last.Defined?
    requires DiagonalMatchesRotations(p)
    ensures DiagonalMatchesRotations(Step(A, p, n, sqrt, true))
  {
    var column, g, next := StepFacts(A, p, n, sqrt, true);
    var k := |p.H|;
    EliminateDiagonal(Rotated(A, p.Q + [p.last.v], p.cs[..k], p.sn[..k], n + 1, sqrt), k, sqrt);
    AdvanceDiagonal(p, column, g, next);
  }

  /** Storing the rotation of the column just appended keeps each diagonal entry matched to its rotation. */
  lemma AdvanceDiagonal(p: Krylov, column: Vector, g: Rotation, next: Direction)
    requires |p.H| < |p.cs| && |p.H| < |p.sn| && |p.H| + 1 < |p.beta| && p.last.Defined? && |p.H| < |column|
    requires DiagonalMatchesRotations(p) && (column[|p.H|] != 0.0 <==> g.cs * g.cs + g.sn * g.sn == 1.0)
    ensures DiagonalMatchesRotations(Advance(p, column, g, next, true))
  {
    var s := Advance(p, column, g, next, true);
    assert forall j :: 0 <= j < |p.H| ==> s.H[j] == p.H[j] && s.cs[j] == p.cs[j] && s.sn[j] == p.sn[j];
  }

  lemma StepAsWritten(A: Matrix, p: Krylov, n: nat, sqrt: real -> real, r: Vector)
    requires IsSqrt(sqrt) && IsSquare(A, |A|) && Shaped(p, |A|, n) && |p.H| < n && p.last.Defined?
    requires AsWrittenState(p, n) && BetaBounded(p, r)
    ensures AsWrittenState(Step(A, p, n, sqrt, false), n)
  {
    var column, g, next := StepFacts(A, p, n, sqrt, false);
    if |p.H| > 0 {
      AsWrittenColumn(A, p.Q + [p.last.v], n, sqrt);
    }
    AdvanceAsWritten(p, column, g, next, n);
  }

  /** Without the rotations stored, `beta` is rotated by `(0, 0)`: it and the new `err` are zero. */
  lemma AdvanceAsWritten(p: Krylov, column: Vector, g: Rotation, next: Direction, n: nat)
    requires |p.H| < n && |p.cs| == n && |p.sn| == n && |p.beta| == n + 1 && |p.residuals| == |p.H| && p.last.Defined?
    requires AsWrittenState(p, n) && forall t :: |p.H| < t < |p.beta| ==> p.beta[t] == 0.0
    requires |p.H| > 0 ==> column == Zeros(n + 1)
    ensures AsWrittenState(Advance(p, column, g, next, false), n)
  {
    var beta := RotateBeta(p.beta, |p.H|, 0.0, 0.0);
    assert beta == Zeros(n + 1) by {
      assert forall t :: 0 <= t <= n ==> beta[t] == 0.0;
    }
  }

  /**
   * What one pass computes, named: the column of `H`, the rotation and the
   * next basis column that `Advance` records, with the facts the lemmas
   * about `Step` need of each.
   */
  lemma StepFacts(A: Matrix, p: Krylov, n: nat, sqrt: real -> real, stored: bool) returns (column: Vector, g: Rotation, next: Direction)
    requires IsSqrt(sqrt) && IsSquare(A, |A|) && Shaped(p, |A|, n) && |p.H| < n && p.last.Defined?
    ensures Step(A, p, n, sqrt, stored) == Advance(p, column, g, next, stored) && |column| == n + 1
    ensures UnitOrZero(g.cs, g.sn)
    ensures next.Undefined? ==> g.sn == 0.0
    ensures forall t :: |p.H| < t <= n ==> column[t] == 0.0
    ensures column == Eliminate(Rotated(A, p.Q + [p.last.v], p.cs[..|p.H|], p.sn[..|p.H|], n + 1, sqrt), |p.H|, sqrt)
    ensures var rotated := Rotated(A, p.Q + [p.last.v], p.cs[..|p.H|], p.sn[..|p.H|], n + 1, sqrt);
            g == GivensRotation(rotated[|p.H|], rotated[|p.H| + 1], sqrt)
  {
    var k := |p.H|;
    var Q := p.Q + [p.last.v];
    var rotated := Rotated(A, Q, p.cs[..k], p.sn[..k], n + 1, sqrt);
    column := Eliminate(rotated, k, sqrt);
    g := GivensRotation(rotated[k], rotated[k + 1], sqrt);
    next := Normalise(Sweep(MatVec(A, Q[k]), Q, k + 1).0, sqrt);
    StepUnfold(A, p, n, sqrt, stored);
    StoredRotationKind(rotated[k], rotated[k + 1], sqrt);
    if next.Undefined? {
      BreakdownRotation(A, Q, p.cs[..k], p.sn[..k], n + 1, sqrt);
    }
    HessenbergTriangular(A, Q, p.cs[..k], p.sn[..k], n + 1, sqrt);
  }

  /** As written, with `cs` and `sn` still zero, every pass after the first writes a zero column into `H`. */
  lemma AsWrittenColumn(A: Matrix, Q: seq<Vector>, n: nat, sqrt: real -> real)
    requires IsSqrt(sqrt) && 1 < |Q| <= n && IsSquare(A, |A|) && Columns(Q, |A|)
    ensures Eliminate(Rotated(A, Q, Zeros(n)[..|Q| - 1], Zeros(n)[..|Q| - 1], n + 1, sqrt), |Q| - 1, sqrt) == Zeros(n + 1)
  {
    var k := |Q| - 1;
    assert Zeros(n)[..k] == Zeros(k);
    AsWrittenColumnVanishes(Pad(ArnoldiColumn(A, Q, sqrt), n + 1), k, sqrt);
  }

  /** With every stored rotation zero, the column of a pass after the first is cleared. */
  lemma AsWrittenColumnVanishes(h: seq<real>, k: nat, sqrt: real -> real)
    requires IsSqrt(sqrt) && 1 <= k && k + 1 < |h| && forall t :: k + 1 < t < |h| ==> h[t] == 0.0
    ensures Eliminate(ApplyStored(h, Zeros(k), Zeros(k), k), k, sqrt) == Zeros(|h|)
  {
    var rotated := ApplyStored(h, Zeros(k), Zeros(k), k);
    ZeroRotationsClear(h, Zeros(k), Zeros(k), k);
    DegenerateRotationClears(rotated, k, sqrt);
    forall t | k + 1 < t < |h|
      ensures rotated[t] == 0.0
    {
      ApplyStoredFrame(h, Zeros(k), Zeros(k), k, t);
    }
    assert forall t :: 0 <= t < |h| ==> Eliminate(rotated, k, sqrt)[t] == 0.0;
  }

  /**
   * One pass of the loop of lines 113-123 on the state `s`, pass `k = |s.H|`:
   * Arnoldi, the rotations of `apply_givens_rotation`, then `beta`.  With
   * `stored` the new rotation is written to `cs[k]` and `sn[k]`; without it
   * they are left as they are, as in the source.
   */
  method Pass(A: Matrix, s: Krylov, n: nat, sqrt: real -> real, stored: bool) returns (s': Krylov)
    requires IsSqrt(sqrt) && IsSquare(A, |A|) && Shaped(s, |A|, n) && |s.H| < n && s.last.Defined?
    ensures s' == Step(A, s, n, sqrt, stored)
  {
    var Q := s.Q + [s.last.v];
    var column, g, next := NextColumn(A, Q, |s.H|, s.cs, s.sn, n + 1, sqrt);
    StepUnfold(A, s, n, sqrt, stored);
    s' := Record(s, column, g, next, stored);
  }

  /** `Step` spelled out in the terms `NextColumn` promises. */
  lemma StepUnfold(A: Matrix, s: Krylov, n: nat, sqrt: real -> real, stored: bool)
    requires IsSqrt(sqrt) && IsSquare(A, |A|) && Shaped(s, |A|, n) && |s.H| < n && s.last.Defined?
    ensures var Q, k := s.Q + [s.last.v], |s.H|;
            var rotated := Rotated(A, Q, s.cs[..k], s.sn[..k], n + 1, sqrt);
            Step(A, s, n, sqrt, stored) ==
            Advance(s, Eliminate(rotated, k, sqrt), GivensRotation(rotated[k], rotated[k + 1], sqrt),
                    Normalise(Sweep(MatVec(A, Q[k]), Q, k + 1).0, sqrt), stored)
  {
  }

  /** Lines 118-123 after `apply_givens_rotation`: the column appended, `beta` rotated, `err`'s numerator kept. */
  method Record(s: Krylov, column: Vector, g: Rotation, next: Direction, stored: bool) returns (s': Krylov)
    requires |s.H| < |s.cs| && |s.H| < |s.sn| && |s.H| + 1 < |s.beta| && s.last.Defined?
    ensures s' == Advance(s, column, g, next, stored)
  {
    var k := |s.H|;
    var cs, sn := s.cs, s.sn;
    if stored {
      cs := cs[k := g.cs];
      sn := sn[k := g.sn];
    }
    var beta := s.beta[k + 1 := Times(-sn[k], s.beta[k])];
    beta := beta[k := Times(cs[k], beta[k])];
    s' := Krylov(s.Q + [s.last.v], next, s.H + [column], cs, sn, beta, s.residuals + [Abs(beta[k + 1])]);
  }

  /** An `err` whose numerator is zero ends the loop unless `norm(b)` is zero; a zero `norm(b)` never does. */
  lemma ZeroResidualConverges(x: real, normb: real)
    ensures normb == 0.0 ==> !AtMost(Divide(x, normb), Tolerance)
    ensures x == 0.0 && normb != 0.0 ==> AtMost(Divide(x, normb), Tolerance)
  {
  }

  /**
   * The body of the loop of lines 113-127 for pass `k = |s.H|`: a pass,
   * then the test `err <= eps` with `err = abs(beta[k + 1]) / normb`.  The
   * pass keeps the invariant; unless `normb` is zero, a pass that does not
   * end the loop leaves a well-defined next basis column, and without the
   * rotations stored no pass fails to end it.
   */
  method Round(A: Matrix, s: Krylov, n: nat, normb: real, sqrt: real -> real, stored: bool, ghost r: Vector,
               ghost b: Vector, ghost x0: Vector, ghost trace: seq<Krylov>)
    returns (s': Krylov, converged: bool)
    requires IsSqrt(sqrt) && IsSquare(A, |A|) && |s.H| < n && s.last.Defined? && Invariant(s, |A|, n, r, stored)
    requires IsSquare(A, |b|) && |x0| == |b| && IsTrace(A, b, x0, n, sqrt, stored, trace) && trace[|trace| - 1] == s
    ensures IsTrace(A, b, x0, n, sqrt, stored, trace + [s'])
    ensures Invariant(s', |A|, n, r, stored) && |s'.H| == |s.H| + 1
    ensures s'.residuals == s.residuals + [Abs(s'.beta[|s.H| + 1])]
    ensures converged <==> AtMost(Divide(s'.residuals[|s.H|], normb), Tolerance)
    ensures normb != 0.0 && !converged ==> stored && s'.last.Defined?
    ensures (forall j :: 0 <= j < |s.H| ==> !AtMost(Divide(s.residuals[j], normb), Tolerance)) ==>
              forall j :: 0 <= j < |s'.H| ==> (AtMost(Divide(s'.residuals[j], normb), Tolerance) <==> converged && j == |s.H|)
  {
    StepInvariant(A, s, n, sqrt, stored, r);
    TraceExtend(A, b, x0, n, sqrt, stored, trace);
    s' := Pass(A, s, n, sqrt, stored);
    var residual := Abs(s'.beta[|s.H| + 1]);
    ZeroResidualConverges(residual, normb);
    converged := AtMost(Divide(residual, normb), Tolerance);
  }

  /**
   * `solve_impl` up to its final solve: the loop of lines 113-129, with each
   * pass's rotation stored in `cs[k]` and `sn[k]` when `stored` holds and,
   * as in the source, left out otherwise.  It stops when `err` reaches the
   * tolerance, when a basis column is a division by zero, or after `n` passes.
   */
  method Iterate(A: Matrix, b: Vector, x0: Vector, n: nat, sqrt: real -> real, stored: bool)
    returns (exit: Exit, s: Krylov, ghost trace: seq<Krylov>)
    requires IsSqrt(sqrt) && IsSquare(A, |b|) && Symmetric(A) && |x0| == |b| && n >= 1
    ensures Invariant(s, |b|, n, InitialResidual(A, b, x0), stored) && Passes(exit, n, |s.H|)
    ensures IsTrace(A, b, x0, n, sqrt, stored, trace) && |trace| == |s.H| + 1 && trace[|s.H|] == s
    ensures forall j :: 0 <= j < |s.H| ==> (AtMost(Divide(s.residuals[j], Norm(b, sqrt)), Tolerance) <==> exit == Converged(j))
    ensures exit.UndefinedBasis? ==> s.last.Undefined?
    ensures exit == UndefinedBasis(0) <==> Dot(InitialResidual(A, b, x0), InitialResidual(A, b, x0)) == 0.0
    ensures Dot(b, b) == 0.0 ==> !exit.Converged?
    ensures stored && exit.UndefinedBasis? && exit.pass > 0 ==> Dot(b, b) == 0.0
    ensures !stored && Dot(b, b) != 0.0 && Dot(InitialResidual(A, b, x0), InitialResidual(A, b, x0)) != 0.0 ==> exit == Converged(0)
  {
    ghost var r := InitialResidual(A, b, x0);
    var normb := Norm(b, sqrt);
    s := Start(A, b, x0, n, sqrt);
    StartState(A, b, x0, n, sqrt);
    trace := [s];
    var k := 0;
    exit := Exhausted;
    while k < n
      invariant k <= n && |s.H| == k && Invariant(s, |b|, n, r, stored)
      invariant IsTrace(A, b, x0, n, sqrt, stored, trace) && |trace| == k + 1 && trace[k] == s
      invariant forall j :: 0 <= j < k ==> !AtMost(Divide(s.residuals[j], normb), Tolerance)
      invariant k == 0 ==> (s.last.Undefined? <==> Dot(r, r) == 0.0)
      invariant k > 0 ==> Dot(r, r) != 0.0 && (normb != 0.0 ==> stored && s.last.Defined?)
      invariant exit == Exhausted
    {
      if s.last.Undefined? {
        exit := UndefinedBasis(k);
        break;
      }
      var converged;
      s, converged := Round(A, s, n, normb, sqrt, stored, r, b, x0, trace);
      trace := trace + [s];
      if converged {
        exit := Converged(k);
        break;
      }
      k := k + 1;
    }
  }

  /**
   * `solve_impl` as written: the rotations are never stored, so whenever `b`
   * and the initial residual are non-zero the first pass already reports
   * convergence, with `beta` zero.  This reads line 119 as taking the column
   * (`std::get<0>`) of the tuple `apply_givens_rotation` returns, with the
   * column passed to it by value.  For `n == 1` it is the source's loop; for
   * larger `n` line 115 assigns `k + 2` entries to a column of `n + 1` rows,
   * which throws in the source, and this is the loop with that column padded.
   */
  method SolveAsWritten(A: Matrix, b: Vector, x0: Vector, n: nat, sqrt: real -> real) returns (exit: Exit, s: Krylov)
    requires IsSqrt(sqrt) && IsSquare(A, |b|) && Symmetric(A) && |x0| == |b| && n >= 1
    ensures Shaped(s, |b|, n) && Passes(exit, n, |s.H|) && AsWrittenState(s, n)
    ensures s == Run(A, b, x0, n, sqrt, false, |s.H|)
    ensures exit == UndefinedBasis(0) <==> Dot(InitialResidual(A, b, x0), InitialResidual(A, b, x0)) == 0.0
    ensures Dot(b, b) != 0.0 && Dot(InitialResidual(A, b, x0), InitialResidual(A, b, x0)) != 0.0 ==>
              exit == Converged(0) && s.beta == Zeros(n + 1)
  {
    ghost var trace;
    exit, s, trace := Iterate(A, b, x0, n, sqrt, false);
    TraceRun(A, b, x0, n, sqrt, false, trace, |s.H|);
  }

  /**
   * `solve_impl` with the rotations stored: orthonormal basis, triangular `H`,
   * `beta` as long as the initial residual while the rotations are unit ones,
   * and a basis column that is a division by zero only when `b` is zero or
   * the initial residual is.
   */
  method Solve(A: Matrix, b: Vector, x0: Vector, n: nat, sqrt: real -> real) returns (exit: Exit, s: Krylov)
    requires IsSqrt(sqrt) && IsSquare(A, |b|) && Symmetric(A) && |x0| == |b| && n >= 1
    ensures Shaped(s, |b|, n) && Passes(exit, n, |s.H|)
    ensures OrthonormalBasis(s, |b|) && UpperTriangular(s.H) && RotationKinds(s) && BetaBounded(s, InitialResidual(A, b, x0))
    ensures forall j :: 0 <= j < |s.H| ==> (AtMost(Divide(s.residuals[j], Norm(b, sqrt)), Tolerance) <==> exit == Converged(j))
    ensures exit.UndefinedBasis? ==> s.last.Undefined? && (exit.pass == 0 || Dot(b, b) == 0.0)
    ensures exit == UndefinedBasis(0) <==> Dot(InitialResidual(A, b, x0), InitialResidual(A, b, x0)) == 0.0
    ensures Dot(b, b) == 0.0 ==> !exit.Converged?
    ensures s == Run(A, b, x0, n, sqrt, true, |s.H|)
    ensures (forall j :: 0 <= j < |s.H| ==> s.H[j][j] != 0.0) ==>
              Dot(s.beta, s.beta) == Dot(InitialResidual(A, b, x0), InitialResidual(A, b, x0))
  {
    ghost var trace;
    exit, s, trace := Iterate(A, b, x0, n, sqrt, true);
    TraceRun(A, b, x0, n, sqrt, true, trace, |s.H|);
    NonZeroDiagonalBeta(s, |b|, n, InitialResidual(A, b, x0));
  }

  // ---------------------------------------------------------------- the one-pass example

  /** `A = [[2]]`, `b = [1]`, `x0 = [0]`: the initial residual is `[1]`. */
  lemma ExampleResidual()
    ensures InitialResidual([[2.0]], [1.0], [0.0]) == [1.0]
  {
    assert MatVec([[2.0]], [0.0]) == [0.0];
  }

  /** The squared lengths of `[1]` and of `[0, 0]`. */
  lemma ExampleDots()
    ensures Dot([1.0], [1.0]) == 1.0 && Dot([0.0, 0.0], [0.0, 0.0]) == 0.0
  {
    assert [1.0][1..] == [] && [0.0, 0.0][1..] == [0.0] && [0.0][1..] == [];
  }

  /** On that input the first basis column is `[1]` and `beta = [1, 0]`. */
  lemma ExampleStart(sqrt: real -> real)
    requires IsSqrt(sqrt)
    ensures Start([[2.0]], [1.0], [0.0], 1, sqrt) == Krylov([], Defined([1.0]), [], [0.0], [0.0], [1.0, 0.0], [])
  {
    var r := InitialResidual([[2.0]], [1.0], [0.0]);
    ExampleResidual();
    RootOf(sqrt, 1.0, 1.0);
    assert Norm(r, sqrt) == 1.0;
    assert Scale(1.0 / 1.0, r) == [1.0];
    assert Scale(1.0, UnitVector(2, 0)) == [1.0, 0.0];
  }

  /** Arnoldi on that input: `A [1] = [2]`, whose component along `[1]` is 2, leaving `[0]`. */
  lemma ExampleSweep()
    ensures MatVec([[2.0]], [1.0]) == [2.0]
    ensures Sweep([2.0], [[1.0]], 1) == ([0.0], [2.0])
  {
    var v: Vector, u: Vector := [2.0], [1.0];
    assert v[1..] == [] && u[1..] == [];
    assert Dot(v, u) == 2.0;
    assert MatVec([[2.0]], u)[0] == 2.0;
    assert Sub(v, Scale(2.0, u)) == [0.0];
    assert Sweep(v, [u], 0) == (v, []);
    assert [] + [2.0] == [2.0];
  }

  /** Arnoldi's column on that input, padded and rotated by no stored rotation, is `[2, 0]`. */
  lemma ExampleColumn(sqrt: real -> real)
    requires IsSqrt(sqrt)
    ensures Rotated([[2.0]], [[1.0]], [], [], 2, sqrt) == [2.0, 0.0]
  {
    ExampleSweep();
    RootOf(sqrt, 0.0, 0.0);
    assert Norm([0.0], sqrt) == 0.0;
    assert ArnoldiColumn([[2.0]], [[1.0]], sqrt) == [2.0, 0.0];
    assert Pad([2.0, 0.0], 2) == [2.0, 0.0];
  }

  /** The first pass from the start state rotates the column `[2, 0]`. */
  lemma ExampleFirstColumn(sqrt: real -> real)
    requires IsSqrt(sqrt)
    ensures var p := Start([[2.0]], [1.0], [0.0], 1, sqrt);
            p.last.Defined? && Rotated([[2.0]], p.Q + [p.last.v], p.cs[..0], p.sn[..0], 2, sqrt) == [2.0, 0.0]
  {
    ExampleStart(sqrt);
    ExampleColumn(sqrt);
    assert [] + [[1.0]] == [[1.0]];
    assert [0.0][..0] == [];
  }

  /** A pair `(v1, 0)` with `v1 > 0` is rotated by `(1, 0)`, which leaves `v1` above. */
  lemma GivensPositive(v1: real, sqrt: real -> real)
    requires IsSqrt(sqrt) && v1 > 0.0
    ensures Upper(GivensRotation(v1, 0.0, sqrt), v1, 0.0) == v1
  {
    var g := GivensRotation(v1, 0.0, sqrt);
    UnitUpper(g, v1);
  }

  lemma UnitUpper(g: Rotation, v1: real)
    requires v1 > 0.0 && g.cs > 0.0 && g.cs * g.cs + g.sn * g.sn == 1.0 && Lower(g, v1, 0.0) == 0.0
    ensures Upper(g, v1, 0.0) == v1
  {
    assert g.sn * v1 == 0.0;
    assert g.sn == 0.0;
    assert (g.cs - 1.0) * (g.cs + 1.0) == 0.0;
  }

  /** Entry `k` of the eliminated column is what the new rotation writes above. */
  lemma EliminatedEntry(h: seq<real>, k: nat, sqrt: real -> real)
    requires IsSqrt(sqrt) && k + 1 < |h|
    ensures Eliminate(h, k, sqrt)[k] == Upper(GivensRotation(h[k], h[k + 1], sqrt), h[k], h[k + 1])
  {
  }

  /** The diagonal entry a pass writes into `H` is what its rotation leaves above in the rotated column. */
  lemma StepDiagonalEntry(A: Matrix, p: Krylov, n: nat, sqrt: real -> real, stored: bool)
    requires IsSqrt(sqrt) && IsSquare(A, |A|) && Shaped(p, |A|, n) && |p.H| < n && p.last.Defined?
    ensures var k := |p.H|;
            var rotated := Rotated(A, p.Q + [p.last.v], p.cs[..k], p.sn[..k], n + 1, sqrt);
            Step(A, p, n, sqrt, stored).H[k][k] == Upper(GivensRotation(rotated[k], rotated[k + 1], sqrt), rotated[k], rotated[k + 1])
  {
    var k := |p.H|;
    var column, g, next := StepFacts(A, p, n, sqrt, stored);
    EliminatedEntry(Rotated(A, p.Q + [p.last.v], p.cs[..k], p.sn[..k], n + 1, sqrt), k, sqrt);
  }

  /** The first pass on that input keeps the invariant of the loop, with or without the rotation stored. */
  lemma ExampleInvariant(sqrt: real -> real, stored: bool)
    requires IsSqrt(sqrt)
    ensures var p := Start([[2.0]], [1.0], [0.0], 1, sqrt);
            p.last.Defined? && Invariant(Step([[2.0]], p, 1, sqrt, stored), 1, 1, [1.0], stored)
  {
    var A: Matrix, b: Vector, x0: Vector := [[2.0]], [1.0], [0.0];
    var p := Start(A, b, x0, 1, sqrt);
    ExampleResidual();
    ExampleFirstColumn(sqrt);
    StartState(A, b, x0, 1, sqrt);
    StepInvariant(A, p, 1, sqrt, stored, [1.0]);
  }

  /** The first pass on that input puts the diagonal entry 2 in `H`, with or without the rotation stored. */
  lemma ExampleDiagonal(sqrt: real -> real, stored: bool)
    requires IsSqrt(sqrt)
    ensures var p := Start([[2.0]], [1.0], [0.0], 1, sqrt);
            p.last.Defined? && Step([[2.0]], p, 1, sqrt, stored).H[0][0] == 2.0
  {
    var p := Start([[2.0]], [1.0], [0.0], 1, sqrt);
    ExampleFirstColumn(sqrt);
    StepDiagonalEntry([[2.0]], p, 1, sqrt, stored);
    GivensPositive(2.0, sqrt);
  }

  /** The state after one pass on that input: the diagonal entry 2, and the invariant of the loop. */
  lemma ExampleFirstPass(sqrt: real -> real, stored: bool)
    requires IsSqrt(sqrt)
    ensures var s := Run([[2.0]], [1.0], [0.0], 1, sqrt, stored, 1);
            |s.H| == 1 && s.H[0][0] == 2.0 && Invariant(s, 1, 1, [1.0], stored)
  {
    var p := Start([[2.0]], [1.0], [0.0], 1, sqrt);
    ExampleInvariant(sqrt, stored);
    ExampleDiagonal(sqrt, stored);
    RunStep([[2.0]], [1.0], [0.0], 1, sqrt, stored, 1, p, Step([[2.0]], p, 1, sqrt, stored));
  }

  /**
   * The input of the finding, one pass: the as-written loop and the loop
   * with stored rotations both put the non-zero diagonal entry 2 in `H`,
   * but as written `beta` comes out zero while the initial residual has
   * length 1; with the rotation stored `beta` keeps that length.
   */
  lemma OnePassExample(sqrt: real -> real)
    requires IsSqrt(sqrt)
    ensures Dot(InitialResidual([[2.0]], [1.0], [0.0]), InitialResidual([[2.0]], [1.0], [0.0])) == 1.0
    ensures var s := Run([[2.0]], [1.0], [0.0], 1, sqrt, false, 1);
            |s.H| == 1 && s.H[0][0] == 2.0 && s.beta == [0.0, 0.0] && Dot(s.beta, s.beta) == 0.0
    ensures var s := Run([[2.0]], [1.0], [0.0], 1, sqrt, true, 1);
            |s.H| == 1 && s.H[0][0] == 2.0 && Dot(s.beta, s.beta) == 1.0
  {
    ExampleResidual();
    ExampleDots();
    ExampleFirstPass(sqrt, false);
    ExampleFirstPass(sqrt, true);
    var s := Run([[2.0]], [1.0], [0.0], 1, sqrt, true, 1);
    assert forall j :: 0 <= j < |s.H| ==> s.H[j][j] != 0.0;
    NonZeroDiagonalBeta(s, 1, 1, [1.0]);
    assert Zeros(2) == [0.0, 0.0];
  }
}
