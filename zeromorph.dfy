/**
 * The ZeroMorph formulas the prover is checked against: the geometric sum
 * Φ_k(x) = Σ_{i<2^k} x^i, its efficient closed form, the batched lifted
 * degree quotient q̂ = Σ_k y^k·X^{N−2^k}·q_k, the partially evaluated degree
 * check polynomial ζ_x and the partially evaluated identity polynomial Z_x.
 *
 * A quotient q_k is given by its 2^k coefficients (degree 2^k − 1), and all
 * polynomials are in coefficient form, lowest degree first. The tests store
 * each q_k padded with zeros to N coefficients; trailing zeros change neither
 * an evaluation nor the sums `add_scaled` forms, so the model keeps only the
 * 2^k coefficients that carry the quotient.
 */
module ZeroMorph {
  import opened Polynomials

  // ---------------------------------------------------------------------
  // Φ
  // ---------------------------------------------------------------------

  /** Σ_{i<m} x^i */
  function GeometricSum(x: int, m: nat): int
  {
    if m == 0 then 0 else GeometricSum(x, m - 1) + Pow(x, m - 1)
  }

  /** Φ_k(x) = Σ_{i<2^k} x^i */
  function PhiValue(x: int, subscript: nat): int
  {
    GeometricSum(x, Pow2(subscript))
  }

  /** The efficient formula, multiplied out: (Σ_{i<m} x^i)·(x − 1) = x^m − 1. */
  lemma {:induction false} GeometricSumClosedForm(x: int, m: nat)
    ensures GeometricSum(x, m) * (x - 1) == Pow(x, m) - 1
    decreases m
  {
    if m > 0 {
      GeometricSumClosedForm(x, m - 1);
      PowStep(x, m - 1);
      GeometricStep(GeometricSum(x, m - 1), Pow(x, m - 1), x);
    }
  }

  lemma PowStep(x: int, n: nat)
    ensures Pow(x, n + 1) == Pow(x, n) * x
  {
  }

  lemma GeometricStep(s: int, p: int, x: int)
    requires s * (x - 1) == p - 1
    ensures (s + p) * (x - 1) == p * x - 1
  {
  }

  /** Φ_n(x)·(x − 1) = x^{2^n} − 1. */
  lemma PhiEfficient(x: int, n: nat)
    ensures PhiValue(x, n) * (x - 1) == Pow(x, Pow2(n)) - 1
  {
    GeometricSumClosedForm(x, Pow2(n));
  }

  /** Φ_{n−k−1}(x^{2^{k+1}})·(x^{2^{k+1}} − 1) = x^{2^n} − 1, for k < n. */
  lemma PhiLiftedEfficient(x: int, n: nat, k: nat)
    requires k < n
    ensures PhiValue(Pow(x, Pow2(k + 1)), n - k - 1) * (Pow(x, Pow2(k + 1)) - 1) == Pow(x, Pow2(n)) - 1
  {
    PhiEfficient(Pow(x, Pow2(k + 1)), n - k - 1);
    Pow2Add(k + 1, n - k - 1);
    PowMul(x, Pow2(k + 1), Pow2(n - k - 1));
  }

  /** The direct computation: add up x^idx for idx below 2^subscript. */
  method Phi(challenge: int, subscript: nat) returns (result: int)
    ensures result == PhiValue(challenge, subscript)
    ensures result * (challenge - 1) == Pow(challenge, Pow2(subscript)) - 1
  {
    var length := Pow2(subscript);
    result := 0;
    for idx := 0 to length
      invariant result == GeometricSum(challenge, idx)
    {
      result := result + Pow(challenge, idx);
    }
    PhiEfficient(challenge, subscript);
  }

  // ---------------------------------------------------------------------
  // Polynomial buffers
  // ---------------------------------------------------------------------

  /** Polynomial::add_scaled on a buffer at least as long as q: buffer += s·q. */
  method AddScaledInPlace(buffer: array<int>, q: seq<int>, s: int)
    requires |q| <= buffer.Length
    modifies buffer
    ensures buffer[..] == AddScaled(old(buffer[..]), q, s)
  {
    ghost var before := buffer[..];
    for i := 0 to |q|
      invariant forall j :: 0 <= j < i ==> buffer[j] == before[j] + s * q[j]
      invariant forall j :: i <= j < buffer.Length ==> buffer[j] == before[j]
    {
      buffer[i] := buffer[i] + s * q[i];
    }
    assert forall j :: 0 <= j < buffer.Length ==> buffer[j] == Coef(before, j) + s * Coef(q, j);
  }

  /** A buffer holding the coefficients of p. */
  method Buffer(p: seq<int>) returns (buffer: array<int>)
    ensures fresh(buffer) && buffer[..] == p
  {
    buffer := new int[|p|];
    for i := 0 to |p|
      invariant buffer[..i] == p[..i]
    {
      buffer[i] := p[i];
    }
  }

  // ---------------------------------------------------------------------
  // Lifting and batching
  // ---------------------------------------------------------------------

  /** q_k has 2^k coefficients and every quotient fits into N. */
  predicate QuotientDegrees(quotients: seq<seq<int>>, n: nat)
  {
    forall k :: 0 <= k < |quotients| ==> |quotients[k]| == Pow2(k) <= n
  }

  /** X^{N−|q|}·q: q's coefficients moved to the top of a size-N polynomial. */
  function Lift(q: seq<int>, n: nat): (lifted: seq<int>)
    requires |q| <= n
    ensures |lifted| == n
    ensures forall i :: 0 <= i < n - |q| ==> lifted[i] == 0
    ensures forall i :: n - |q| <= i < n ==> lifted[i] == q[i - (n - |q|)]
  {
    Zeros(n - |q|) + q
  }

  /** Lifting multiplies by the monomial: Lift(q)(x) = x^{N−|q|}·q(x). */
  lemma LiftEval(q: seq<int>, n: nat, x: int)
    requires |q| <= n
    ensures Eval(Lift(q, n), x) == Pow(x, n - |q|) * Eval(q, x)
  {
    EvalMonomialShift(q, n - |q|, x);
  }

  /** Σ_{k<m} y^k·Lift(q_k): the batched lifted degree quotient over the first m quotients. */
  function Batched(quotients: seq<seq<int>>, y: int, n: nat, m: nat): (batched: seq<int>)
    requires m <= |quotients| && QuotientDegrees(quotients, n)
    ensures |batched| == n
  {
    if m == 0 then Zeros(n)
    else AddScaled(Batched(quotients, y, n, m - 1), Lift(quotients[m - 1], n), Pow(y, m - 1))
  }

  /** Σ_{k<m} y^k·x^{N−2^k}·q_k(x) */
  function LiftedSum(quotients: seq<seq<int>>, y: int, x: int, n: nat, m: nat): int
    requires m <= |quotients| && QuotientDegrees(quotients, n)
  {
    if m == 0 then 0
    else LiftedSum(quotients, y, x, n, m - 1) + Pow(y, m - 1) * Pow(x, n - Pow2(m - 1)) * Eval(quotients[m - 1], x)
  }

  /** q̂(x) = Σ_k y^k·x^{N−2^k}·q_k(x). */
  lemma {:induction false} BatchedEval(quotients: seq<seq<int>>, y: int, n: nat, m: nat, x: int)
    requires m <= |quotients| && QuotientDegrees(quotients, n)
    ensures Eval(Batched(quotients, y, n, m), x) == LiftedSum(quotients, y, x, n, m)
  {
    if m == 0 {
      EvalMonomialShift([], n, x);
      assert Zeros(n) + [] == Zeros(n);
    } else {
      var q := quotients[m - 1];
      BatchedEval(quotients, y, n, m - 1, x);
      EvalAddScaled(Batched(quotients, y, n, m - 1), Lift(q, n), Pow(y, m - 1), x);
      LiftEval(q, n, x);
      Associate3(Pow(y, m - 1), Pow(x, n - Pow2(m - 1)), Eval(q, x));
    }
  }

  lemma Associate3(a: int, b: int, c: int)
    ensures a * (b * c) == a * b * c
  {
  }

  /**
   * The expected batched quotient, built as the test builds it: a zero
   * buffer of size N, to which each lifted q_k is added scaled by y^k.
   */
  method BatchedLiftedDegreeQuotient(quotients: seq<seq<int>>, y: int, n: nat) returns (batched: seq<int>)
    requires QuotientDegrees(quotients, n)
    ensures batched == Batched(quotients, y, n, |quotients|)
    ensures forall x :: Eval(batched, x) == LiftedSum(quotients, y, x, n, |quotients|)
  {
    var buffer := new int[n](_ => 0);
    assert buffer[..] == Zeros(n);
    for k := 0 to |quotients|
      invariant buffer[..] == Batched(quotients, y, n, k)
    {
      AddScaledInPlace(buffer, Lift(quotients[k], n), Pow(y, k));
    }
    batched := buffer[..];
    forall x
      ensures Eval(batched, x) == LiftedSum(quotients, y, x, n, |quotients|)
    {
      BatchedEval(quotients, y, n, |quotients|, x);
    }
  }

  // ---------------------------------------------------------------------
  // ζ_x
  // ---------------------------------------------------------------------

  /** batched − Σ_{k<m} y^k·x^{N−2^k}·q_k */
  function ZetaX(batched: seq<int>, quotients: seq<seq<int>>, y: int, x: int, n: nat, m: nat): (zeta: seq<int>)
    requires |batched| == n && m <= |quotients| && QuotientDegrees(quotients, n)
    ensures |zeta| == n
  {
    if m == 0 then batched
    else AddScaled(ZetaX(batched, quotients, y, x, n, m - 1), quotients[m - 1], -(Pow(y, m - 1) * Pow(x, n - Pow2(m - 1))))
  }

  /** ζ_x(x) = q̂(x) − Σ_k y^k·x^{N−2^k}·q_k(x). */
  lemma {:induction false} ZetaXEval(batched: seq<int>, quotients: seq<seq<int>>, y: int, x: int, n: nat, m: nat)
    requires |batched| == n && m <= |quotients| && QuotientDegrees(quotients, n)
    ensures Eval(ZetaX(batched, quotients, y, x, n, m), x) == Eval(batched, x) - LiftedSum(quotients, y, x, n, m)
  {
    if m > 0 {
      var q := quotients[m - 1];
      var c := Pow(y, m - 1) * Pow(x, n - Pow2(m - 1));
      var prev := ZetaX(batched, quotients, y, x, n, m - 1);
      ZetaXEval(batched, quotients, y, x, n, m - 1);
      EvalAddScaled(prev, q, -c, x);
      assert ZetaX(batched, quotients, y, x, n, m) == AddScaled(prev, q, -c);
      assert LiftedSum(quotients, y, x, n, m) == LiftedSum(quotients, y, x, n, m - 1) + c * Eval(q, x);
      SubtractStep(Eval(AddScaled(prev, q, -c), x), Eval(prev, x), Eval(batched, x),
        LiftedSum(quotients, y, x, n, m - 1), c, Eval(q, x));
    }
  }

  /** Subtracting c·e from a running difference b − sum extends the sum by c·e. */
  lemma SubtractStep(z: int, prev: int, b: int, sum: int, c: int, e: int)
    requires z == prev + -c * e && prev == b - sum
    ensures z == b - (sum + c * e)
  {
  }

  /**
   * For the batched lifted quotient, ζ_x vanishes at x: the partial
   * evaluation removes exactly what each lifted quotient contributes there.
   */
  lemma ZetaXVanishesAtX(quotients: seq<seq<int>>, y: int, x: int, n: nat)
    requires QuotientDegrees(quotients, n)
    ensures Eval(ZetaX(Batched(quotients, y, n, |quotients|), quotients, y, x, n, |quotients|), x) == 0
  {
    BatchedEval(quotients, y, n, |quotients|, x);
    ZetaXEval(Batched(quotients, y, n, |quotients|), quotients, y, x, n, |quotients|);
  }

  /**
   * The expected ζ_x, built as the test builds it: a copy of the batched
   * quotient, to which each q_k is added scaled by −y^k·x^{N−2^k}.
   */
  method PartiallyEvaluatedQuotientZeta(batched: seq<int>, quotients: seq<seq<int>>, y: int, x: int, n: nat)
    returns (zeta: seq<int>)
    requires |batched| == n && QuotientDegrees(quotients, n)
    ensures zeta == ZetaX(batched, quotients, y, x, n, |quotients|)
    ensures Eval(zeta, x) == Eval(batched, x) - LiftedSum(quotients, y, x, n, |quotients|)
  {
    var buffer := Buffer(batched);
    for k := 0 to |quotients|
      invariant buffer[..] == ZetaX(batched, quotients, y, x, n, k)
    {
      var scalar := -(Pow(y, k) * Pow(x, n - Pow2(k)));
      assert ZetaX(batched, quotients, y, x, n, k + 1)
          == AddScaled(ZetaX(batched, quotients, y, x, n, k), quotients[k], scalar);
      AddScaledInPlace(buffer, quotients[k], scalar);
    }
    zeta := buffer[..];
    ZetaXEval(batched, quotients, y, x, n, |quotients|);
  }

  // ---------------------------------------------------------------------
  // Z_x
  // ---------------------------------------------------------------------

  /** x^{2^k}·Φ_{n−k−1}(x^{2^{k+1}}) − u_k·Φ_{n−k}(x^{2^k}), with n = |u|. */
  function ZScalar(x: int, u: seq<int>, k: nat): int
    requires k < |u|
  {
    var n := |u|;
    Pow(x, Pow2(k)) * PhiValue(Pow(x, Pow2(k + 1)), n - k - 1) - u[k] * PhiValue(Pow(x, Pow2(k)), n - k)
  }

  /**
   * The scalar multiplied out: with N = 2^n,
   * ZScalar·(x^{2^{k+1}} − 1) = (x^N − 1)·(x^{2^k} − u_k·(x^{2^k} + 1)).
   */
  lemma ZScalarEfficient(x: int, u: seq<int>, k: nat)
    requires k < |u|
    ensures ZScalar(x, u, k) * (Pow(x, Pow2(k + 1)) - 1)
         == (Pow(x, Pow2(|u|)) - 1) * (Pow(x, Pow2(k)) - u[k] * (Pow(x, Pow2(k)) + 1))
  {
    var n := |u|;
    var p := Pow(x, Pow2(k));
    var top := Pow(x, Pow2(n)) - 1;
    PhiLiftedEfficient(x, n, k);
    SquarePow(x, k);
    PhiEfficient(p, n - k);
    Pow2Add(k, n - k);
    PowMul(x, Pow2(k), Pow2(n - k));
    assert Pow2(k) * Pow2(n - k) == Pow2(n);
    var a := PhiValue(Pow(x, Pow2(k + 1)), n - k - 1);
    var b := PhiValue(p, n - k);
    assert a * (p * p - 1) == top;
    assert b * (p - 1) == top;
    ScalarIdentity(a, b, p, u[k], top);
  }

  lemma ScalarIdentity(a: int, b: int, p: int, u: int, top: int)
    requires a * (p * p - 1) == top && b * (p - 1) == top
    ensures (p * a - u * b) * (p * p - 1) == top * (p - u * (p + 1))
  {
    calc {
      (p * a - u * b) * (p * p - 1);
      p * (a * (p * p - 1)) - u * (b * (p - 1)) * (p + 1);
      p * top - u * top * (p + 1);
      top * (p - u * (p + 1));
    }
  }

  /** f with v taken from its constant coefficient. */
  function SubtractConstant(f: seq<int>, v: int): (g: seq<int>)
    requires |f| >= 1
    ensures |g| == |f| && g[0] == f[0] - v && g[1..] == f[1..]
  {
    f[0 := f[0] - v]
  }

  /** f − v − Σ_{k<m} ZScalar_k·q_k */
  function ZX(f: seq<int>, v: int, u: seq<int>, quotients: seq<seq<int>>, x: int, m: nat): (z: seq<int>)
    requires |f| >= 1 && m <= |u| == |quotients|
    requires forall k :: 0 <= k < |quotients| ==> |quotients[k]| <= |f|
    ensures |z| == |f|
  {
    if m == 0 then SubtractConstant(f, v)
    else AddScaled(ZX(f, v, u, quotients, x, m - 1), quotients[m - 1], -ZScalar(x, u, m - 1))
  }

  /** Σ_{k<m} ZScalar_k·q_k(x) */
  function ScaledQuotientSum(u: seq<int>, quotients: seq<seq<int>>, x: int, m: nat): int
    requires m <= |u| == |quotients|
  {
    if m == 0 then 0 else ScaledQuotientSum(u, quotients, x, m - 1) + ZScalar(x, u, m - 1) * Eval(quotients[m - 1], x)
  }

  /** Taking v from the constant coefficient takes v from the value. */
  lemma SubtractConstantEval(f: seq<int>, v: int, x: int)
    requires |f| >= 1
    ensures Eval(SubtractConstant(f, v), x) == Eval(f, x) - v
  {
    var g := SubtractConstant(f, v);
    EvalHead(f, x);
    EvalHead(g, x);
    assert Tail(g) == Tail(f);
  }

  /** Z_x(x) = f(x) − v − Σ_k ZScalar_k·q_k(x). */
  lemma {:induction false} ZXEval(f: seq<int>, v: int, u: seq<int>, quotients: seq<seq<int>>, x: int, m: nat)
    requires |f| >= 1 && m <= |u| == |quotients|
    requires forall k :: 0 <= k < |quotients| ==> |quotients[k]| <= |f|
    ensures Eval(ZX(f, v, u, quotients, x, m), x) == Eval(f, x) - v - ScaledQuotientSum(u, quotients, x, m)
  {
    if m == 0 {
      SubtractConstantEval(f, v, x);
    } else {
      var q := quotients[m - 1];
      var c := ZScalar(x, u, m - 1);
      var prev := ZX(f, v, u, quotients, x, m - 1);
      ZXEval(f, v, u, quotients, x, m - 1);
      EvalAddScaled(prev, q, -c, x);
      assert ZX(f, v, u, quotients, x, m) == AddScaled(prev, q, -c);
      assert ScaledQuotientSum(u, quotients, x, m) == ScaledQuotientSum(u, quotients, x, m - 1) + c * Eval(q, x);
      SubtractStep(Eval(AddScaled(prev, q, -c), x), Eval(prev, x), Eval(f, x) - v,
        ScaledQuotientSum(u, quotients, x, m - 1), c, Eval(q, x));
    }
  }

  /**
   * The scalar of q_k in Z_x, computed as the test computes it: both powers
   * of x, then each Φ directly.
   */
  method QuotientScalar(x: int, u: seq<int>, k: nat) returns (scalar: int)
    requires k < |u|
    ensures scalar == ZScalar(x, u, k)
  {
    var logN := |u|;
    var xPow2k := Pow(x, Pow2(k));
    var xPow2kp1 := Pow(x, Pow2(k + 1));
    var phiNext := Phi(xPow2kp1, logN - k - 1);
    var phiHere := Phi(xPow2k, logN - k);
    scalar := xPow2k * phiNext - u[k] * phiHere;
  }

  /** The loop over k that turns f − v into Z_x, in place. */
  method SubtractScaledQuotients(buffer: array<int>, f: seq<int>, v: int, u: seq<int>, quotients: seq<seq<int>>, x: int)
    requires |f| >= 1 && |u| == |quotients|
    requires forall k :: 0 <= k < |quotients| ==> |quotients[k]| <= |f|
    requires buffer[..] == ZX(f, v, u, quotients, x, 0)
    modifies buffer
    ensures buffer[..] == ZX(f, v, u, quotients, x, |u|)
  {
    for k := 0 to |u|
      invariant buffer[..] == ZX(f, v, u, quotients, x, k)
    {
      var scalar := QuotientScalar(x, u, k);
      AddScaledInPlace(buffer, quotients[k], -scalar);
    }
  }

  /**
   * The expected Z_x, built as the test builds it: a copy of f with v taken
   * from the constant coefficient, then for each k, q_k added scaled by
   * −(x^{2^k}·Φ_{n−k−1}(x^{2^{k+1}}) − u_k·Φ_{n−k}(x^{2^k})), each Φ
   * computed directly.
   */
  method PartiallyEvaluatedQuotientZ(f: seq<int>, v: int, u: seq<int>, quotients: seq<seq<int>>, x: int)
    returns (z: seq<int>)
    requires |f| >= 1 && |u| == |quotients|
    requires forall k :: 0 <= k < |quotients| ==> |quotients[k]| <= |f|
    ensures z == ZX(f, v, u, quotients, x, |u|)
    ensures Eval(z, x) == Eval(f, x) - v - ScaledQuotientSum(u, quotients, x, |u|)
  {
    var buffer := Buffer(f);
    buffer[0] := buffer[0] - v;
    assert buffer[..] == SubtractConstant(f, v);
    SubtractScaledQuotients(buffer, f, v, u, quotients, x);
    z := buffer[..];
    ZXEval(f, v, u, quotients, x, |u|);
  }
}
