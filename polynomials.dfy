/**
 * Exact arithmetic shared by the model.
 *
 * Field elements are modelled as unbounded integers. The statements proved
 * about field elements outside the ECCVM set relation are ring identities (no
 * division is used), so they hold just as well after reduction modulo the
 * field's prime. Exponents and sizes (`Pow2`, `Msb`) are plain naturals.
 *
 * Polynomials are in coefficient form, lowest degree first, as barretenberg's
 * `Polynomial` stores them; a missing coefficient counts as zero.
 */
module Polynomials {

  /** x^n */
  function Pow(x: int, n: nat): int
  {
    if n == 0 then 1 else x * Pow(x, n - 1)
  }

  /** 2^n, the `1 << n` of the source */
  function Pow2(n: nat): (r: nat)
    ensures r >= 1
  {
    if n == 0 then 1 else 2 * Pow2(n - 1)
  }

  /** Index of the most significant set bit of n (numeric::get_msb): floor(log2(n)). */
  function Msb(n: nat): (r: nat)
    requires n >= 1
    ensures Pow2(r) <= n < Pow2(r + 1)
  {
    if n == 1 then 0 else 1 + Msb(n / 2)
  }

  lemma {:induction false} PowAdd(x: int, a: nat, b: nat)
    ensures Pow(x, a + b) == Pow(x, a) * Pow(x, b)
    decreases a
  {
    if a > 0 {
      PowAdd(x, a - 1, b);
      assert Pow(x, a + b) == x * Pow(x, a - 1 + b);
    }
  }

  lemma {:induction false} PowMul(x: int, a: nat, b: nat)
    ensures Pow(x, a * b) == Pow(Pow(x, a), b)
    decreases b
  {
    if b > 0 {
      PowMul(x, a, b - 1);
      assert a * b == a * (b - 1) + a;
      PowAdd(x, a * (b - 1), a);
      assert Pow(x, a * b) == Pow(x, a * (b - 1)) * Pow(x, a);
    }
  }

  lemma {:induction false} Pow2Add(a: nat, b: nat)
    ensures Pow2(a + b) == Pow2(a) * Pow2(b)
    decreases a
  {
    if a > 0 {
      Pow2Add(a - 1, b);
    }
  }

  /** Squaring x^(2^i) gives x^(2^(i+1)): the step of repeated squaring. */
  lemma SquarePow(x: int, i: nat)
    ensures Pow(x, Pow2(i + 1)) == Pow(x, Pow2(i)) * Pow(x, Pow2(i))
  {
    PowAdd(x, Pow2(i), Pow2(i));
  }

  /** Coefficient i of p, zero beyond its length. */
  function Coef(p: seq<int>, i: nat): int
  {
    if i < |p| then p[i] else 0
  }

  /** p without its constant coefficient (p / X, rounded down). */
  function Tail(p: seq<int>): seq<int>
  {
    if p == [] then [] else p[1..]
  }

  /** The value of p at x (Horner's rule). */
  function Eval(p: seq<int>, x: int): int
  {
    if p == [] then 0 else p[0] + x * Eval(p[1..], x)
  }

  function Max(a: nat, b: nat): nat
  {
    if a < b then b else a
  }

  /** p + s·q, padded to the longer length: Polynomial::add_scaled. */
  function AddScaled(p: seq<int>, q: seq<int>, s: int): (r: seq<int>)
    ensures |r| == Max(|p|, |q|)
    ensures forall i :: 0 <= i < |r| ==> r[i] == Coef(p, i) + s * Coef(q, i)
  {
    seq(Max(|p|, |q|), i requires 0 <= i < Max(|p|, |q|) => Coef(p, i) + s * Coef(q, i))
  }

  /** n zero coefficients */
  function Zeros(n: nat): (r: seq<int>)
    ensures |r| == n && forall i :: 0 <= i < n ==> r[i] == 0
  {
    seq(n, _ => 0)
  }

  lemma EvalHead(p: seq<int>, x: int)
    ensures Eval(p, x) == Coef(p, 0) + x * Eval(Tail(p), x)
  {
  }

  /** The value at 0 is the constant coefficient. */
  lemma EvalAtZero(p: seq<int>)
    ensures Eval(p, 0) == Coef(p, 0)
  {
  }

  /** Evaluation is linear: (p + s·q)(x) = p(x) + s·q(x). */
  lemma {:induction false} EvalAddScaled(p: seq<int>, q: seq<int>, s: int, x: int)
    ensures Eval(AddScaled(p, q, s), x) == Eval(p, x) + s * Eval(q, x)
    decreases |p| + |q|
  {
    var r := AddScaled(p, q, s);
    if |r| > 0 {
      var tail := AddScaled(Tail(p), Tail(q), s);
      assert r[1..] == tail;
      EvalAddScaled(Tail(p), Tail(q), s, x);
      EvalHead(p, x);
      EvalHead(q, x);
      HornerStep(Coef(p, 0), Coef(q, 0), s, x, Eval(Tail(p), x), Eval(Tail(q), x));
    }
  }

  lemma HornerStep(p0: int, q0: int, s: int, x: int, ep: int, eq: int)
    ensures (p0 + s * q0) + x * (ep + s * eq) == (p0 + x * ep) + s * (q0 + x * eq)
  {
  }

  /** Multiplying by X^k prepends k zero coefficients: (X^k·q)(x) = x^k·q(x). */
  lemma {:induction false} EvalMonomialShift(q: seq<int>, k: nat, x: int)
    ensures Eval(Zeros(k) + q, x) == Pow(x, k) * Eval(q, x)
    decreases k
  {
    if k > 0 {
      var shifted := Zeros(k) + q;
      assert shifted[0] == 0;
      assert shifted[1..] == Zeros(k - 1) + q;
      EvalMonomialShift(q, k - 1, x);
      assert Eval(shifted, x) == shifted[0] + x * Eval(shifted[1..], x);
      assert Pow(x, k) == x * Pow(x, k - 1);
      assert x * (Pow(x, k - 1) * Eval(q, x)) == (x * Pow(x, k - 1)) * Eval(q, x);
    } else {
      assert Zeros(k) + q == q;
    }
  }
}
