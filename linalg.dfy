/**
 * Dense vectors and matrices over exact `real` arithmetic, standing in for the
 * Blaze containers the solvers are written against.  Matrices are row-major
 * sequences of rows.  Floating-point rounding is not modelled; where the C++
 * code would divide by zero (and so produce an infinity or a NaN) the model
 * says so explicitly with `Quotient`.
 */
module LinAlg {

  type Vector = seq<real>
  type Matrix = seq<seq<real>>

  /** A resizable dense vector owned by the caller and updated in place (Blaze's `DynamicVector`). */
  class DenseVector {
    var values: Vector

    constructor (init: Vector)
      ensures values == init
    {
      values := init;
    }
  }

  // ---------------------------------------------------------------- shapes

  /** Every row of `A` has `c` entries, i.e. `A.columns() == c`. */
  predicate HasColumns(A: Matrix, c: nat)
  {
    forall i :: 0 <= i < |A| ==> |A[i]| == c
  }

  /** `A` is an `n`-by-`n` matrix. */
  predicate IsSquare(A: Matrix, n: nat)
  {
    |A| == n && HasColumns(A, n)
  }

  predicate Symmetric(A: Matrix)
    requires IsSquare(A, |A|)
  {
    forall i, j :: 0 <= i < |A| && 0 <= j < |A| ==> A[i][j] == A[j][i]
  }

  // ---------------------------------------------------------------- vectors

  function Zeros(n: nat): (v: Vector)
    ensures |v| == n && forall i :: 0 <= i < n ==> v[i] == 0.0
  {
    seq(n, _ => 0.0)
  }

  /** `e_j` of length `n`: one at index `j`, zero elsewhere. */
  function UnitVector(n: nat, j: nat): (e: Vector)
    requires j < n
    ensures |e| == n && e[j] == 1.0
    ensures forall i :: 0 <= i < n && i != j ==> e[i] == 0.0
  {
    seq(n, i => if i == j then 1.0 else 0.0)
  }

  function Add(u: Vector, v: Vector): (w: Vector)
    requires |u| == |v|
    ensures |w| == |u|
  {
    seq(|u|, i requires 0 <= i < |u| => u[i] + v[i])
  }

  function Sub(u: Vector, v: Vector): (w: Vector)
    requires |u| == |v|
    ensures |w| == |u|
  {
    seq(|u|, i requires 0 <= i < |u| => u[i] - v[i])
  }

  function Scale(a: real, v: Vector): (w: Vector)
    ensures |w| == |v|
  {
    seq(|v|, i requires 0 <= i < |v| => a * v[i])
  }

  /** The inner product `trans(u) * v`. */
  function Dot(u: Vector, v: Vector): real
    requires |u| == |v|
  {
    if |u| == 0 then 0.0 else u[0] * v[0] + Dot(u[1..], v[1..])
  }

  function Abs(a: real): (r: real)
    ensures r >= 0.0 && (r == a || r == -a)
  {
    if a < 0.0 then -a else a
  }

  // ---------------------------------------------------------------- matrices

  /** The matrix-vector product `A * v`. */
  function MatVec(A: Matrix, v: Vector): (w: Vector)
    requires HasColumns(A, |v|)
    ensures |w| == |A|
  {
    seq(|A|, i requires 0 <= i < |A| => Dot(A[i], v))
  }

  function Column(A: Matrix, j: nat): (c: Vector)
    requires IsSquare(A, |A|) && j < |A|
  {
    seq(|A|, i requires 0 <= i < |A| => A[i][j])
  }

  function Transpose(A: Matrix): (T: Matrix)
    requires IsSquare(A, |A|)
    ensures IsSquare(T, |A|)
    ensures forall i, j :: 0 <= i < |A| && 0 <= j < |A| ==> T[i][j] == A[j][i]
  {
    seq(|A|, i requires 0 <= i < |A| => Column(A, i))
  }

  function MatAdd(A: Matrix, B: Matrix): (C: Matrix)
    requires IsSquare(A, |A|) && IsSquare(B, |A|)
    ensures IsSquare(C, |A|)
    ensures forall i, j :: 0 <= i < |A| && 0 <= j < |A| ==> C[i][j] == A[i][j] + B[i][j]
  {
    seq(|A|, i requires 0 <= i < |A| => Add(A[i], B[i]))
  }

  /** The matrix product `A * B`. */
  function MatMul(A: Matrix, B: Matrix): (C: Matrix)
    requires IsSquare(A, |A|) && IsSquare(B, |A|)
    ensures IsSquare(C, |A|)
    ensures forall i, j :: 0 <= i < |A| && 0 <= j < |A| ==> C[i][j] == Dot(A[i], Column(B, j))
  {
    seq(|A|, i requires 0 <= i < |A| => seq(|A|, j requires 0 <= j < |A| => Dot(A[i], Column(B, j))))
  }

  function Identity(n: nat): (I: Matrix)
    ensures IsSquare(I, n)
  {
    seq(n, i requires 0 <= i < n => UnitVector(n, i))
  }

  // ---------------------------------------------------------------- scalars of the C++ code

  /**
   * The value of a floating-point division `a / d` of a non-negative `a`:
   * finite when `d` is non-zero, otherwise an infinity or a NaN, and in both
   * of those cases every `<=` comparison against a finite bound is false.
   */
  datatype Quotient = Finite(value: real) | NotFinite

  function Divide(a: real, d: real): (q: Quotient)
    ensures q.Finite? <==> d != 0.0
    ensures q.Finite? ==> q.value * d == a
  {
    if d == 0.0 then NotFinite else Finite(a / d)
  }

  /** `q <= bound` as the C++ comparison evaluates it. */
  predicate AtMost(q: Quotient, bound: real)
  {
    q.Finite? && q.value <= bound
  }

  /** `sqrt` is a square root on the non-negative reals (the C++ library's `sqrt`, taken as given). */
  ghost predicate IsSqrt(sqrt: real -> real)
  {
    forall x :: 0.0 <= x ==> 0.0 <= sqrt(x) && sqrt(x) * sqrt(x) == x
  }

  /** Blaze's `norm(v)`: the Euclidean length. */
  function Norm(v: Vector, sqrt: real -> real): (t: real)
    requires IsSqrt(sqrt)
    ensures t >= 0.0 && t * t == Dot(v, v)
    ensures t == 0.0 <==> Dot(v, v) == 0.0
  {
    DotSelfNonNegative(v);
    RootZero(sqrt(Dot(v, v)), Dot(v, v));
    sqrt(Dot(v, v))
  }

  // ---------------------------------------------------------------- facts about Dot and MatVec

  /*
   * Sign facts about squares.  They are stated over `Times(a, a)` rather than
   * `a * a`: the solver keeps a strict bound on a named product, where a bound
   * on a bare square next to an equation between squares is lost.
   */
  function Times(a: real, b: real): real
  {
    a * b
  }

  lemma ProductPositive(a: real, b: real)
    requires (a > 0.0 && b > 0.0) || (a < 0.0 && b < 0.0)
    ensures Times(a, b) > 0.0
  {
    if a < 0.0 {
      assert (-a) * (-b) > 0.0;
    }
  }

  lemma SquarePositive(a: real)
    requires a != 0.0
    ensures Times(a, a) > 0.0
  {
    ProductPositive(a, a);
  }

  lemma SquareNonNegative(a: real)
    ensures Times(a, a) >= 0.0
  {
    if a != 0.0 {
      ProductPositive(a, a);
    }
  }

  /** A root of a non-zero number is non-zero, and a root of zero is zero. */
  lemma RootZero(t: real, x: real)
    requires t * t == x
    ensures t != 0.0 <==> x != 0.0
  {
    if t != 0.0 {
      SquarePositive(t);
    }
  }

  /** `sqrt` picks the non-negative root: any `y >= 0` with `y * y == x` is `sqrt(x)`. */
  lemma RootOf(sqrt: real -> real, x: real, y: real)
    requires IsSqrt(sqrt) && y >= 0.0 && y * y == x
    ensures sqrt(x) == y
  {
    var t := sqrt(x);
    assert t >= 0.0 && t * t == x;
    assert (t - y) * (t + y) == t * t - y * y;
    ZeroProduct(t - y, t + y);
  }

  lemma ZeroProduct(a: real, b: real)
    requires a * b == 0.0
    ensures a == 0.0 || b == 0.0
  {
  }

  lemma {:induction false} DotSelfNonNegative(v: Vector)
    ensures Dot(v, v) >= 0.0
  {
    if |v| > 0 {
      DotSelfNonNegative(v[1..]);
      SquareNonNegative(v[0]);
    }
  }

  /** `Dot(v, v)` is zero only for the zero vector. */
  lemma {:induction false} DotSelfZero(v: Vector)
    requires Dot(v, v) == 0.0
    ensures v == Zeros(|v|)
  {
    if |v| > 0 {
      DotSelfNonNegative(v[1..]);
      if v[0] != 0.0 {
        SquarePositive(v[0]);
        assert false;
      }
      DotSelfZero(v[1..]);
      assert v == [v[0]] + v[1..];
    }
  }

  lemma {:induction false} DotSymmetric(u: Vector, v: Vector)
    requires |u| == |v|
    ensures Dot(u, v) == Dot(v, u)
  {
    if |u| > 0 {
      DotSymmetric(u[1..], v[1..]);
    }
  }

  lemma {:induction false} DotAdd(u: Vector, v: Vector, w: Vector)
    requires |u| == |v| == |w|
    ensures Dot(u, Add(v, w)) == Dot(u, v) + Dot(u, w)
  {
    if |u| > 0 {
      assert Add(v, w)[1..] == Add(v[1..], w[1..]);
      DotAdd(u[1..], v[1..], w[1..]);
    }
  }

  lemma {:induction false} DotSub(u: Vector, v: Vector, w: Vector)
    requires |u| == |v| == |w|
    ensures Dot(u, Sub(v, w)) == Dot(u, v) - Dot(u, w)
  {
    if |u| > 0 {
      assert Sub(v, w)[1..] == Sub(v[1..], w[1..]);
      DotSub(u[1..], v[1..], w[1..]);
    }
  }

  lemma {:induction false} DotScale(u: Vector, a: real, v: Vector)
    requires |u| == |v|
    ensures Dot(u, Scale(a, v)) == a * Dot(u, v)
  {
    if |u| > 0 {
      forall i | 0 <= i < |v| - 1 ensures Scale(a, v)[1..][i] == Scale(a, v[1..])[i] {
        assert Scale(a, v)[i + 1] == a * v[i + 1];
      }
      assert Scale(a, v)[1..] == Scale(a, v[1..]);
      DotScale(u[1..], a, v[1..]);
      assert u[0] * (a * v[0]) == a * (u[0] * v[0]);
    }
  }

  /** Two inner products whose termwise products agree are equal. */
  lemma {:induction false} DotTermwise(u: Vector, v: Vector, u': Vector, v': Vector)
    requires |u| == |v| == |u'| == |v'|
    requires forall k :: 0 <= k < |u| ==> u[k] * v[k] == u'[k] * v'[k]
    ensures Dot(u, v) == Dot(u', v')
  {
    if |u| > 0 {
      DotTermwise(u[1..], v[1..], u'[1..], v'[1..]);
    }
  }

  /** An inner product with a vector that is zero except at `k` picks out one term. */
  lemma {:induction false} DotSelect(u: Vector, v: Vector, k: nat)
    requires |u| == |v| && k < |u|
    requires forall j :: 0 <= j < |v| && j != k ==> v[j] == 0.0
    ensures Dot(u, v) == u[k] * v[k]
  {
    if k == 0 {
      DotWithZeros(u[1..], v[1..]);
    } else {
      DotSelect(u[1..], v[1..], k - 1);
    }
  }

  lemma {:induction false} DotWithZeros(u: Vector, v: Vector)
    requires |u| == |v|
    requires forall j :: 0 <= j < |v| ==> v[j] == 0.0
    ensures Dot(u, v) == 0.0
  {
    if |u| > 0 {
      DotWithZeros(u[1..], v[1..]);
    }
  }

  /** Overwriting entry `j` changes `Dot(v, v)` by the difference of the squares. */
  lemma {:induction false} DotSelfUpdate(v: Vector, j: nat, a: real)
    requires j < |v|
    ensures Dot(v[j := a], v[j := a]) == Dot(v, v) - v[j] * v[j] + a * a
  {
    if j > 0 {
      assert v[j := a][1..] == v[1..][j - 1 := a];
      DotSelfUpdate(v[1..], j - 1, a);
    } else {
      assert v[j := a][1..] == v[1..];
    }
  }

  /** Matrix-vector multiplication is linear: `A(x + a p) == A x + a (A p)`. */
  lemma MatVecAxpy(A: Matrix, x: Vector, a: real, p: Vector)
    requires |x| == |p| && HasColumns(A, |x|)
    ensures MatVec(A, Add(x, Scale(a, p))) == Add(MatVec(A, x), Scale(a, MatVec(A, p)))
  {
    forall i | 0 <= i < |A|
      ensures MatVec(A, Add(x, Scale(a, p)))[i] == Add(MatVec(A, x), Scale(a, MatVec(A, p)))[i]
    {
      DotAdd(A[i], x, Scale(a, p));
      DotScale(A[i], a, p);
    }
  }
}
