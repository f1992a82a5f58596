/**
 * The ProtoGalaxy perturbator as a value.
 *
 * The prover turns the vector e of per-row relation values (one per row of an
 * instance of 2^t rows) into the perturbator polynomial by a binary-tree
 * reduction: level L pairs adjacent nodes, copies the even child and adds the
 * odd child once scaled by β_L and once shifted up a degree and scaled by δ_L.
 * This module states that reduction as functions (the imperative version in
 * ProtoGalaxyProver is proved equal to them) and proves what it computes:
 *
 *   perturbator(X) = Σ_i e_i · ∏_L (β_L + δ_L·X)^{bit_L(i)}
 */
module Perturbator {
  import opened Polynomials

  /** Every node holds exactly k coefficients. */
  predicate Uniform(nodes: seq<seq<int>>, k: nat)
  {
    forall j :: 0 <= j < |nodes| ==> |nodes[j]| == k
  }

  /**
   * The parent of two siblings: coefficient d is
   * even[d] + odd[d]·β + odd[d-1]·δ, where even[k] and odd[-1] count as 0.
   */
  function Combine(even: seq<int>, odd: seq<int>, beta: int, delta: int): (r: seq<int>)
    requires |even| == |odd|
    ensures |r| == |odd| + 1
  {
    seq(|odd| + 1, d requires 0 <= d <= |odd| =>
      Coef(even, d) + Coef(odd, d) * beta + (if d == 0 then 0 else odd[d - 1] * delta))
  }

  /** One level of the tree: node j of the result is the parent of nodes 2j and 2j+1. */
  function NextLevel(nodes: seq<seq<int>>, k: nat, beta: int, delta: int): (r: seq<seq<int>>)
    requires |nodes| % 2 == 0 && Uniform(nodes, k)
    ensures |r| == |nodes| / 2 && Uniform(r, k + 1)
  {
    seq(|nodes| / 2, j requires 0 <= j < |nodes| / 2 => Combine(nodes[2 * j], nodes[2 * j + 1], beta, delta))
  }

  /** The first level, built directly from the row values. */
  function FirstLevel(e: seq<int>, beta: int, delta: int): (r: seq<seq<int>>)
    requires |e| % 2 == 0
    ensures |r| == |e| / 2 && Uniform(r, 2)
  {
    seq(|e| / 2, j requires 0 <= j < |e| / 2 => [e[2 * j] + e[2 * j + 1] * beta, e[2 * j + 1] * delta])
  }

  /**
   * compute_level: starting from the nodes of `level` (each with level+1
   * coefficients), reduce until level == |betas| and return the root.
   */
  function Reduce(level: nat, betas: seq<int>, deltas: seq<int>, nodes: seq<seq<int>>): (r: seq<int>)
    requires level <= |betas| <= |deltas|
    requires |nodes| == Pow2(|betas| - level) && Uniform(nodes, level + 1)
    ensures |r| == |betas| + 1
    decreases |betas| - level
  {
    if level == |betas| then nodes[0]
    else Reduce(level + 1, betas, deltas, NextLevel(nodes, level + 1, betas[level], deltas[level]))
  }

  /** construct_perturbator_coeffs */
  function Perturbator(betas: seq<int>, deltas: seq<int>, e: seq<int>): (r: seq<int>)
    requires 1 <= |betas| <= |deltas| && |e| == Pow2(|betas|)
  {
    Reduce(1, betas, deltas, FirstLevel(e, betas[0], deltas[0]))
  }

  // ---------------------------------------------------------------------------
  // The closed form

  /** Bit l of i, counting from the least significant. */
  function Bit(i: nat, l: nat): nat
  {
    if l == 0 then i % 2 else Bit(i / 2, l - 1)
  }

  /** (β + δ·x)^bit for a bit */
  function Factor(beta: int, delta: int, bit: nat, x: int): int
  {
    if bit == 1 then beta + delta * x else 1
  }

  /** ∏_{L < m} (β_L + δ_L·x)^{bit_L(i)} */
  function WeightUpTo(betas: seq<int>, deltas: seq<int>, i: nat, x: int, m: nat): int
    requires m <= |betas| <= |deltas|
  {
    if m == 0 then 1
    else WeightUpTo(betas, deltas, i, x, m - 1) * Factor(betas[m - 1], deltas[m - 1], Bit(i, m - 1), x)
  }

  /** The weight of row i: ∏_L (β_L + δ_L·x)^{bit_L(i)} over every level L. */
  function Weight(betas: seq<int>, deltas: seq<int>, i: nat, x: int): int
    requires |betas| <= |deltas|
  {
    WeightUpTo(betas, deltas, i, x, |betas|)
  }

  /** Σ_{i < m} e_i · Weight(i) */
  function WeightedSum(betas: seq<int>, deltas: seq<int>, e: seq<int>, x: int, m: nat): int
    requires |betas| <= |deltas| && m <= |e|
  {
    if m == 0 then 0
    else WeightedSum(betas, deltas, e, x, m - 1) + e[m - 1] * Weight(betas, deltas, m - 1, x)
  }

  /** The reference definition of the perturbator's value at x. */
  function ClosedForm(betas: seq<int>, deltas: seq<int>, e: seq<int>, x: int): int
    requires |betas| <= |deltas|
  {
    WeightedSum(betas, deltas, e, x, |e|)
  }

  /** ∏_{L < m, bit_L(i) = 1} β_L */
  function BetaProduct(betas: seq<int>, i: nat, m: nat): int
    requires m <= |betas|
  {
    if m == 0 then 1
    else BetaProduct(betas, i, m - 1) * (if Bit(i, m - 1) == 1 then betas[m - 1] else 1)
  }

  /** Σ_{i < m} e_i · ∏_{bit_L(i) = 1} β_L: the direct recomputation of the perturbator at 0. */
  function PowBetaSum(betas: seq<int>, e: seq<int>, m: nat): int
    requires m <= |e|
  {
    if m == 0 then 0
    else PowBetaSum(betas, e, m - 1) + e[m - 1] * BetaProduct(betas, m - 1, |betas|)
  }

  /** ∏_{lo <= L < hi} δ_L */
  function DeltaProduct(deltas: seq<int>, lo: nat, hi: nat): int
    requires lo <= hi <= |deltas|
    decreases hi - lo
  {
    if lo == hi then 1 else deltas[lo] * DeltaProduct(deltas, lo + 1, hi)
  }

  // ---------------------------------------------------------------------------
  // Evaluation of one level

  /** The parent is even + β·odd + δ·(X·odd). */
  lemma CombineAsAddScaled(even: seq<int>, odd: seq<int>, beta: int, delta: int)
    requires |even| == |odd|
    ensures Combine(even, odd, beta, delta) == AddScaled(AddScaled(even, odd, beta), [0] + odd, delta)
  {
    var c := Combine(even, odd, beta, delta);
    var r := AddScaled(AddScaled(even, odd, beta), [0] + odd, delta);
    forall d | 0 <= d < |c|
      ensures c[d] == r[d]
    {
      assert Coef([0] + odd, d) == if d == 0 then 0 else odd[d - 1];
    }
  }

  /** The parent evaluates to even(x) + (β + δ·x)·odd(x). */
  lemma CombineEval(even: seq<int>, odd: seq<int>, beta: int, delta: int, x: int)
    requires |even| == |odd|
    ensures Eval(Combine(even, odd, beta, delta), x) == Eval(even, x) + (beta + delta * x) * Eval(odd, x)
  {
    var low := AddScaled(even, odd, beta);
    var shifted := [0] + odd;
    assert shifted[1..] == odd;
    assert Eval(shifted, x) == x * Eval(odd, x);
    CombineAsAddScaled(even, odd, beta, delta);
    EvalAddScaled(low, shifted, delta, x);
    EvalAddScaled(even, odd, beta, x);
    Distribute(Eval(even, x), Eval(odd, x), beta, delta, x);
  }

  lemma Distribute(ee: int, eo: int, beta: int, delta: int, x: int)
    ensures (ee + beta * eo) + delta * (x * eo) == ee + (beta + delta * x) * eo
  {
  }

  /** Splitting off the lowest bit: weight(i) = (β_0 + δ_0·x)^{i mod 2} · weight'(i / 2). */
  lemma {:induction false} WeightUpToShift(betas: seq<int>, deltas: seq<int>, i: nat, x: int, m: nat)
    requires m < |betas| <= |deltas|
    ensures WeightUpTo(betas, deltas, i, x, m + 1)
         == Factor(betas[0], deltas[0], i % 2, x) * WeightUpTo(betas[1..], deltas[1..], i / 2, x, m)
  {
    if m > 0 {
      WeightUpToShift(betas, deltas, i, x, m - 1);
      assert Bit(i, m) == Bit(i / 2, m - 1);
      assert betas[1..][m - 1] == betas[m] && deltas[1..][m - 1] == deltas[m];
      var f0 := Factor(betas[0], deltas[0], i % 2, x);
      var rest := WeightUpTo(betas[1..], deltas[1..], i / 2, x, m - 1);
      var g := Factor(betas[m], deltas[m], Bit(i, m), x);
      assert WeightUpTo(betas, deltas, i, x, m + 1) == WeightUpTo(betas, deltas, i, x, m) * g;
      assert WeightUpTo(betas, deltas, i, x, m) == f0 * rest;
      assert WeightUpTo(betas[1..], deltas[1..], i / 2, x, m) == rest * g;
      Associate(f0, rest, g);
    } else {
      assert WeightUpTo(betas, deltas, i, x, 1) == Factor(betas[0], deltas[0], Bit(i, 0), x);
    }
  }

  lemma WeightShift(betas: seq<int>, deltas: seq<int>, i: nat, x: int)
    requires 1 <= |betas| <= |deltas|
    ensures Weight(betas, deltas, i, x)
         == Factor(betas[0], deltas[0], i % 2, x) * Weight(betas[1..], deltas[1..], i / 2, x)
  {
    WeightUpToShift(betas, deltas, i, x, |betas| - 1);
  }

  /** Σ_{j < m} nodes_j(x) · Weight_{level..}(j): the value of a partly reduced tree. */
  function NodeSum(nodes: seq<seq<int>>, betas: seq<int>, deltas: seq<int>, level: nat, x: int, m: nat): int
    requires m <= |nodes| && level <= |betas| <= |deltas|
  {
    if m == 0 then 0
    else NodeSum(nodes, betas, deltas, level, x, m - 1)
         + Eval(nodes[m - 1], x) * Weight(betas[level..], deltas[level..], m - 1, x)
  }

  /** One level of reduction preserves the weighted value of the tree. */
  lemma {:induction false} NextLevelSum(nodes: seq<seq<int>>, k: nat, betas: seq<int>, deltas: seq<int>,
                                        level: nat, x: int, h: nat)
    requires level < |betas| <= |deltas|
    requires |nodes| % 2 == 0 && Uniform(nodes, k) && h <= |nodes| / 2
    ensures NodeSum(NextLevel(nodes, k, betas[level], deltas[level]), betas, deltas, level + 1, x, h)
         == NodeSum(nodes, betas, deltas, level, x, 2 * h)
  {
    if h > 0 {
      NextLevelSum(nodes, k, betas, deltas, level, x, h - 1);
      var next := NextLevel(nodes, k, betas[level], deltas[level]);
      var j := h - 1;
      NodeSumStep(next, betas, deltas, level + 1, x, j);
      NodeSumPair(nodes, betas, deltas, level, x, j);
      ParentValue(nodes, k, betas, deltas, level, j, x);
    }
  }

  /** A parent's weighted value is the sum of its two children's weighted values. */
  lemma ParentValue(nodes: seq<seq<int>>, k: nat, betas: seq<int>, deltas: seq<int>, level: nat, j: nat, x: int)
    requires level < |betas| <= |deltas|
    requires |nodes| % 2 == 0 && Uniform(nodes, k) && j < |nodes| / 2
    ensures Eval(NextLevel(nodes, k, betas[level], deltas[level])[j], x)
            * Weight(betas[level + 1..], deltas[level + 1..], j, x)
         == Eval(nodes[2 * j], x) * Weight(betas[level..], deltas[level..], 2 * j, x)
          + Eval(nodes[2 * j + 1], x) * Weight(betas[level..], deltas[level..], 2 * j + 1, x)
  {
    var beta, delta := betas[level], deltas[level];
    var f := beta + delta * x;
    var w := Weight(betas[level + 1..], deltas[level + 1..], j, x);
    var wa := Weight(betas[level..], deltas[level..], 2 * j, x);
    var wb := Weight(betas[level..], deltas[level..], 2 * j + 1, x);
    var a, b, c := Eval(nodes[2 * j], x), Eval(nodes[2 * j + 1], x), Eval(NextLevel(nodes, k, beta, delta)[j], x);
    SiblingWeights(betas, deltas, level, j, x);
    NextLevelNodeEval(nodes, k, beta, delta, j, x);
    PairWeights(a, b, f, w, c, wa, wb);
  }

  /** One more node adds its weighted value. */
  lemma NodeSumStep(nodes: seq<seq<int>>, betas: seq<int>, deltas: seq<int>, level: nat, x: int, j: nat)
    requires j < |nodes| && level <= |betas| <= |deltas|
    ensures NodeSum(nodes, betas, deltas, level, x, j + 1)
         == NodeSum(nodes, betas, deltas, level, x, j) + Eval(nodes[j], x) * Weight(betas[level..], deltas[level..], j, x)
  {
  }

  /** Two more nodes of a level add their weighted values. */
  lemma NodeSumPair(nodes: seq<seq<int>>, betas: seq<int>, deltas: seq<int>, level: nat, x: int, j: nat)
    requires 2 * j + 2 <= |nodes| && level <= |betas| <= |deltas|
    ensures NodeSum(nodes, betas, deltas, level, x, 2 * j + 2)
         == NodeSum(nodes, betas, deltas, level, x, 2 * j)
          + Eval(nodes[2 * j], x) * Weight(betas[level..], deltas[level..], 2 * j, x)
          + Eval(nodes[2 * j + 1], x) * Weight(betas[level..], deltas[level..], 2 * j + 1, x)
  {
  }

  /** Node j of the next level evaluates to even(x) + (β + δ·x)·odd(x) for its children. */
  lemma NextLevelNodeEval(nodes: seq<seq<int>>, k: nat, beta: int, delta: int, j: nat, x: int)
    requires |nodes| % 2 == 0 && Uniform(nodes, k) && j < |nodes| / 2
    ensures Eval(NextLevel(nodes, k, beta, delta)[j], x)
         == Eval(nodes[2 * j], x) + (beta + delta * x) * Eval(nodes[2 * j + 1], x)
  {
    assert NextLevel(nodes, k, beta, delta)[j] == Combine(nodes[2 * j], nodes[2 * j + 1], beta, delta);
    CombineEval(nodes[2 * j], nodes[2 * j + 1], beta, delta, x);
  }

  /** Siblings 2j and 2j+1 weigh w and (β + δ·x)·w, where w is their parent's weight one level up. */
  lemma SiblingWeights(betas: seq<int>, deltas: seq<int>, level: nat, j: nat, x: int)
    requires level < |betas| <= |deltas|
    ensures Weight(betas[level..], deltas[level..], 2 * j, x) == Weight(betas[level + 1..], deltas[level + 1..], j, x)
    ensures Weight(betas[level..], deltas[level..], 2 * j + 1, x)
         == (betas[level] + deltas[level] * x) * Weight(betas[level + 1..], deltas[level + 1..], j, x)
  {
    var bs, ds := betas[level..], deltas[level..];
    assert bs[1..] == betas[level + 1..] && ds[1..] == deltas[level + 1..];
    WeightShift(bs, ds, 2 * j, x);
    WeightShift(bs, ds, 2 * j + 1, x);
    assert (2 * j) / 2 == j && (2 * j) % 2 == 0;
    assert (2 * j + 1) / 2 == j && (2 * j + 1) % 2 == 1;
  }

  lemma PairWeights(a: int, b: int, f: int, w: int, c: int, wa: int, wb: int)
    requires c == a + f * b && wa == w && wb == f * w
    ensures c * w == a * wa + b * wb
  {
  }

  /** The root of the reduction evaluates to the weighted value of the nodes it started from. */
  lemma {:induction false} ReduceEval(level: nat, betas: seq<int>, deltas: seq<int>, nodes: seq<seq<int>>, x: int)
    requires level <= |betas| <= |deltas|
    requires |nodes| == Pow2(|betas| - level) && Uniform(nodes, level + 1)
    ensures Eval(Reduce(level, betas, deltas, nodes), x) == NodeSum(nodes, betas, deltas, level, x, |nodes|)
    decreases |betas| - level
  {
    if level == |betas| {
      assert betas[level..] == [];
      assert Weight(betas[level..], deltas[level..], 0, x) == 1;
    } else {
      assert Pow2(|betas| - level) == 2 * Pow2(|betas| - level - 1);
      Halve(|nodes|, Pow2(|betas| - level - 1));
      var next := NextLevel(nodes, level + 1, betas[level], deltas[level]);
      ReduceEval(level + 1, betas, deltas, next, x);
      NextLevelSum(nodes, level + 1, betas, deltas, level, x, |nodes| / 2);
    }
  }

  /** The row values as constant polynomials, the tree's leaves. */
  function Leaves(e: seq<int>): (r: seq<seq<int>>)
    ensures |r| == |e| && Uniform(r, 1)
  {
    seq(|e|, i requires 0 <= i < |e| => [e[i]])
  }

  lemma FirstLevelIsNextLevel(e: seq<int>, beta: int, delta: int)
    requires |e| % 2 == 0
    ensures FirstLevel(e, beta, delta) == NextLevel(Leaves(e), 1, beta, delta)
  {
    var fl, nl := FirstLevel(e, beta, delta), NextLevel(Leaves(e), 1, beta, delta);
    forall j | 0 <= j < |e| / 2
      ensures fl[j] == nl[j]
    {
      assert Leaves(e)[2 * j] == [e[2 * j]] && Leaves(e)[2 * j + 1] == [e[2 * j + 1]];
    }
  }

  lemma {:induction false} LeavesSum(betas: seq<int>, deltas: seq<int>, e: seq<int>, x: int, m: nat)
    requires |betas| <= |deltas| && m <= |e|
    ensures NodeSum(Leaves(e), betas, deltas, 0, x, m) == WeightedSum(betas, deltas, e, x, m)
  {
    assert betas[0..] == betas && deltas[0..] == deltas;
    if m > 0 {
      LeavesSum(betas, deltas, e, x, m - 1);
      assert Leaves(e)[m - 1] == [e[m - 1]];
      assert Eval([e[m - 1]], x) == e[m - 1];
    }
  }

  // ---------------------------------------------------------------------------
  // What the perturbator is

  /** The perturbator is the reduction of the first level, which has 2^{|betas|-1} nodes. */
  lemma PerturbatorUnfold(betas: seq<int>, deltas: seq<int>, e: seq<int>)
    requires 1 <= |betas| <= |deltas| && |e| == Pow2(|betas|)
    ensures |FirstLevel(e, betas[0], deltas[0])| == Pow2(|betas| - 1)
    ensures Perturbator(betas, deltas, e) == Reduce(1, betas, deltas, FirstLevel(e, betas[0], deltas[0]))
  {
    assert Pow2(|betas|) == 2 * Pow2(|betas| - 1);
    Halve(|e|, Pow2(|betas| - 1));
  }

  /**
   * The perturbator evaluates, at every x, to Σ_i e_i · ∏_L (β_L + δ_L·x)^{bit_L(i)}.
   */
  /** The first level carries the weighted sum of the row values. */
  lemma FirstLevelSum(betas: seq<int>, deltas: seq<int>, e: seq<int>, x: int)
    requires 1 <= |betas| <= |deltas| && |e| % 2 == 0
    ensures NodeSum(FirstLevel(e, betas[0], deltas[0]), betas, deltas, 1, x, |e| / 2)
         == WeightedSum(betas, deltas, e, x, |e|)
  {
    FirstLevelIsNextLevel(e, betas[0], deltas[0]);
    NextLevelSum(Leaves(e), 1, betas, deltas, 0, x, |e| / 2);
    assert 2 * (|e| / 2) == |e|;
    LeavesSum(betas, deltas, e, x, |e|);
  }

  lemma PerturbatorClosedForm(betas: seq<int>, deltas: seq<int>, e: seq<int>, x: int)
    requires 1 <= |betas| <= |deltas| && |e| == Pow2(|betas|)
    ensures Eval(Perturbator(betas, deltas, e), x) == ClosedForm(betas, deltas, e, x)
  {
    PerturbatorUnfold(betas, deltas, e);
    var first := FirstLevel(e, betas[0], deltas[0]);
    assert Eval(Reduce(1, betas, deltas, first), x) == NodeSum(first, betas, deltas, 1, x, |first|) by {
      ReduceEval(1, betas, deltas, first, x);
    }
    FirstLevelSum(betas, deltas, e, x);
  }

  lemma {:induction false} WeightAtZero(betas: seq<int>, deltas: seq<int>, i: nat, m: nat)
    requires m <= |betas| <= |deltas|
    ensures WeightUpTo(betas, deltas, i, 0, m) == BetaProduct(betas, i, m)
  {
    if m > 0 {
      WeightAtZero(betas, deltas, i, m - 1);
    }
  }

  lemma {:induction false} WeightedSumAtZero(betas: seq<int>, deltas: seq<int>, e: seq<int>, m: nat)
    requires |betas| <= |deltas| && m <= |e|
    ensures WeightedSum(betas, deltas, e, 0, m) == PowBetaSum(betas, e, m)
  {
    if m > 0 {
      WeightedSumAtZero(betas, deltas, e, m - 1);
      WeightAtZero(betas, deltas, m - 1, |betas|);
    }
  }

  /** The constant coefficient is Σ_i e_i · ∏_{bit_L(i) = 1} β_L. */
  lemma PerturbatorConstantCoefficient(betas: seq<int>, deltas: seq<int>, e: seq<int>)
    requires 1 <= |betas| <= |deltas| && |e| == Pow2(|betas|)
    ensures Perturbator(betas, deltas, e)[0] == PowBetaSum(betas, e, |e|)
  {
    PerturbatorClosedForm(betas, deltas, e, 0);
    EvalAtZero(Perturbator(betas, deltas, e));
    WeightedSumAtZero(betas, deltas, e, |e|);
  }

  /** The parent's top coefficient is δ times the odd child's top coefficient. */
  lemma CombineTop(even: seq<int>, odd: seq<int>, beta: int, delta: int)
    requires |even| == |odd| >= 1
    ensures Combine(even, odd, beta, delta)[|odd|] == odd[|odd| - 1] * delta
  {
    var k := |odd|;
    assert Coef(even, k) == 0 && Coef(odd, k) == 0;
  }

  /** The top coefficient of the root is the last node's top coefficient times ∏ δ_L over the remaining levels. */
  lemma {:induction false} ReduceTop(level: nat, betas: seq<int>, deltas: seq<int>, nodes: seq<seq<int>>)
    requires level <= |betas| <= |deltas|
    requires |nodes| == Pow2(|betas| - level) && Uniform(nodes, level + 1)
    ensures Reduce(level, betas, deltas, nodes)[|betas|]
         == nodes[|nodes| - 1][level] * DeltaProduct(deltas, level, |betas|)
    decreases |betas| - level
  {
    if level < |betas| {
      var half := Pow2(|betas| - level - 1);
      assert |nodes| == 2 * half;
      Halve(|nodes|, half);
      var next := NextLevel(nodes, level + 1, betas[level], deltas[level]);
      ReduceTop(level + 1, betas, deltas, next);
      NextLevelLastTop(nodes, level + 1, betas[level], deltas[level]);
      DeltaProductHead(deltas, level, |betas|);
      TopStep(Reduce(level, betas, deltas, nodes)[|betas|], next[|next| - 1][level + 1],
              nodes[|nodes| - 1][level], deltas[level], DeltaProduct(deltas, level + 1, |betas|),
              DeltaProduct(deltas, level, |betas|));
    }
  }

  /** The last parent's top coefficient is δ times its odd child's top coefficient. */
  lemma NextLevelLastTop(nodes: seq<seq<int>>, k: nat, beta: int, delta: int)
    requires |nodes| % 2 == 0 && |nodes| >= 2 && k >= 1 && Uniform(nodes, k)
    ensures NextLevel(nodes, k, beta, delta)[|nodes| / 2 - 1][k] == nodes[|nodes| - 1][k - 1] * delta
  {
    var last := |nodes| / 2 - 1;
    assert 2 * last + 1 == |nodes| - 1;
    assert NextLevel(nodes, k, beta, delta)[last] == Combine(nodes[2 * last], nodes[2 * last + 1], beta, delta);
    CombineTop(nodes[2 * last], nodes[2 * last + 1], beta, delta);
  }

  lemma TopStep(r: int, t: int, top: int, d: int, rest: int, product: int)
    requires r == t * rest && t == top * d && product == d * rest
    ensures r == top * product
  {
    Associate(top, d, rest);
  }

  lemma Associate(a: int, b: int, c: int)
    ensures (a * b) * c == a * (b * c)
  {
  }

  /** The last first-level node's top coefficient is δ times the last row value. */
  lemma FirstLevelTop(e: seq<int>, beta: int, delta: int, half: nat)
    requires |e| == 2 * half && half >= 1
    ensures FirstLevel(e, beta, delta)[half - 1][1] == e[|e| - 1] * delta
  {
    assert 2 * (half - 1) + 1 == |e| - 1;
  }

  /** 2·h is even and halves to h. */
  lemma Halve(n: nat, h: nat)
    requires n == 2 * h
    ensures n % 2 == 0 && n / 2 == h
  {
  }

  /** One step of the reduction: reduce the next level instead. */
  lemma ReduceStep(level: nat, betas: seq<int>, deltas: seq<int>, nodes: seq<seq<int>>)
    requires level < |betas| <= |deltas|
    requires |nodes| == Pow2(|betas| - level) && Uniform(nodes, level + 1)
    ensures |nodes| % 2 == 0 && |nodes| / 2 == Pow2(|betas| - (level + 1))
    ensures Reduce(level, betas, deltas, nodes)
         == Reduce(level + 1, betas, deltas, NextLevel(nodes, level + 1, betas[level], deltas[level]))
  {
    assert Pow2(|betas| - level) == 2 * Pow2(|betas| - level - 1);
    Halve(|nodes|, Pow2(|betas| - level - 1));
  }

  /** The root's top coefficient, read off the last first-level node. */
  lemma ReduceFirstLevelTop(betas: seq<int>, deltas: seq<int>, e: seq<int>, half: nat)
    requires 1 <= |betas| <= |deltas| && half == Pow2(|betas| - 1) && |e| == 2 * half
    ensures |e| % 2 == 0
    ensures Reduce(1, betas, deltas, FirstLevel(e, betas[0], deltas[0]))[|betas|]
         == (e[|e| - 1] * deltas[0]) * DeltaProduct(deltas, 1, |betas|)
  {
    Halve(|e|, half);
    FirstLevelTop(e, betas[0], deltas[0], half);
    ReduceTopFromLastNode(betas, deltas, FirstLevel(e, betas[0], deltas[0]), e[|e| - 1] * deltas[0]);
  }

  /** ReduceTop, from level 1, with the last node's top coefficient named. */
  lemma ReduceTopFromLastNode(betas: seq<int>, deltas: seq<int>, first: seq<seq<int>>, top: int)
    requires 1 <= |betas| <= |deltas| && |first| == Pow2(|betas| - 1) && Uniform(first, 2)
    requires first[|first| - 1][1] == top
    ensures Reduce(1, betas, deltas, first)[|betas|] == top * DeltaProduct(deltas, 1, |betas|)
  {
    ReduceTop(1, betas, deltas, first);
  }

  /** ∏_{lo <= L < hi} δ_L = δ_lo · ∏_{lo < L < hi} δ_L */
  lemma DeltaProductHead(deltas: seq<int>, lo: nat, hi: nat)
    requires lo < hi <= |deltas|
    ensures DeltaProduct(deltas, lo, hi) == deltas[lo] * DeltaProduct(deltas, lo + 1, hi)
  {
  }

  /** The top coefficient is e[n-1] · ∏_L δ_L. */
  lemma PerturbatorTopCoefficient(betas: seq<int>, deltas: seq<int>, e: seq<int>)
    requires 1 <= |betas| <= |deltas| && |e| == Pow2(|betas|)
    ensures Perturbator(betas, deltas, e)[|betas|] == e[|e| - 1] * DeltaProduct(deltas, 0, |betas|)
  {
    PerturbatorUnfold(betas, deltas, e);
    assert |e| == 2 * Pow2(|betas| - 1);
    ReduceFirstLevelTop(betas, deltas, e, Pow2(|betas| - 1));
    DeltaProductHead(deltas, 0, |betas|);
    Associate(e[|e| - 1], deltas[0], DeltaProduct(deltas, 1, |betas|));
  }

  // ---------------------------------------------------------------------------
  // Linearity in e

  /** a·p + b·q, coefficientwise */
  function Lin(a: int, p: seq<int>, b: int, q: seq<int>): (r: seq<int>)
    requires |p| == |q|
    ensures |r| == |p|
  {
    seq(|p|, i requires 0 <= i < |p| => a * p[i] + b * q[i])
  }

  function LinNodes(a: int, n1: seq<seq<int>>, b: int, n2: seq<seq<int>>, k: nat): (r: seq<seq<int>>)
    requires |n1| == |n2| && Uniform(n1, k) && Uniform(n2, k)
    ensures |r| == |n1| && Uniform(r, k)
  {
    seq(|n1|, j requires 0 <= j < |n1| => Lin(a, n1[j], b, n2[j]))
  }

  lemma CombineLinear(a: int, b: int, e1: seq<int>, o1: seq<int>, e2: seq<int>, o2: seq<int>, beta: int, delta: int)
    requires |e1| == |o1| == |e2| == |o2|
    ensures Combine(Lin(a, e1, b, e2), Lin(a, o1, b, o2), beta, delta)
         == Lin(a, Combine(e1, o1, beta, delta), b, Combine(e2, o2, beta, delta))
  {
    var lhs := Combine(Lin(a, e1, b, e2), Lin(a, o1, b, o2), beta, delta);
    var rhs := Lin(a, Combine(e1, o1, beta, delta), b, Combine(e2, o2, beta, delta));
    forall d | 0 <= d < |lhs|
      ensures lhs[d] == rhs[d]
    {
      var x1, x2 := Coef(e1, d), Coef(e2, d);
      var y1, y2 := Coef(o1, d), Coef(o2, d);
      var z1, z2 := if d == 0 then 0 else o1[d - 1], if d == 0 then 0 else o2[d - 1];
      var le, lo := Lin(a, e1, b, e2), Lin(a, o1, b, o2);
      assert Coef(le, d) == a * x1 + b * x2;
      assert Coef(lo, d) == a * y1 + b * y2;
      assert d > 0 ==> lo[d - 1] == a * z1 + b * z2;
      assert lhs[d] == (a * x1 + b * x2) + (a * y1 + b * y2) * beta + (a * z1 + b * z2) * delta;
      assert rhs[d] == a * (x1 + y1 * beta + z1 * delta) + b * (x2 + y2 * beta + z2 * delta);
      LinearStep(a, b, x1, x2, y1, y2, z1, z2, beta, delta);
    }
  }

  lemma LinearStep(a: int, b: int, x1: int, x2: int, y1: int, y2: int, z1: int, z2: int, beta: int, delta: int)
    ensures (a * x1 + b * x2) + (a * y1 + b * y2) * beta + (a * z1 + b * z2) * delta
         == a * (x1 + y1 * beta + z1 * delta) + b * (x2 + y2 * beta + z2 * delta)
  {
  }

  lemma PairLinear(a: int, b: int, x1: int, x2: int, y1: int, y2: int, beta: int)
    ensures (a * x1 + b * x2) + (a * y1 + b * y2) * beta == a * (x1 + y1 * beta) + b * (x2 + y2 * beta)
  {
  }

  lemma ScaleLinear(a: int, b: int, x1: int, x2: int, c: int)
    ensures (a * x1 + b * x2) * c == a * (x1 * c) + b * (x2 * c)
  {
  }

  lemma NextLevelLinear(a: int, n1: seq<seq<int>>, b: int, n2: seq<seq<int>>, k: nat, beta: int, delta: int)
    requires |n1| == |n2| && |n1| % 2 == 0 && Uniform(n1, k) && Uniform(n2, k)
    ensures NextLevel(LinNodes(a, n1, b, n2, k), k, beta, delta)
         == LinNodes(a, NextLevel(n1, k, beta, delta), b, NextLevel(n2, k, beta, delta), k + 1)
  {
    var lhs := NextLevel(LinNodes(a, n1, b, n2, k), k, beta, delta);
    var rhs := LinNodes(a, NextLevel(n1, k, beta, delta), b, NextLevel(n2, k, beta, delta), k + 1);
    forall j | 0 <= j < |lhs|
      ensures lhs[j] == rhs[j]
    {
      CombineLinear(a, b, n1[2 * j], n1[2 * j + 1], n2[2 * j], n2[2 * j + 1], beta, delta);
    }
  }

  lemma {:induction false} ReduceLinear(level: nat, betas: seq<int>, deltas: seq<int>,
                                        a: int, n1: seq<seq<int>>, b: int, n2: seq<seq<int>>)
    requires level <= |betas| <= |deltas|
    requires |n1| == |n2| == Pow2(|betas| - level) && Uniform(n1, level + 1) && Uniform(n2, level + 1)
    ensures Reduce(level, betas, deltas, LinNodes(a, n1, b, n2, level + 1))
         == Lin(a, Reduce(level, betas, deltas, n1), b, Reduce(level, betas, deltas, n2))
    decreases |betas| - level
  {
    if level < |betas| {
      var half := Pow2(|betas| - level - 1);
      assert |n1| == 2 * half;
      Halve(|n1|, half);
      NextLevelLinear(a, n1, b, n2, level + 1, betas[level], deltas[level]);
      ReduceLinear(level + 1, betas, deltas,
                   a, NextLevel(n1, level + 1, betas[level], deltas[level]),
                   b, NextLevel(n2, level + 1, betas[level], deltas[level]));
    }
  }

  /** Node j of the first level, for a linear combination of row values. */
  lemma FirstLevelLinearAt(a: int, e1: seq<int>, b: int, e2: seq<int>, beta: int, delta: int, j: nat)
    requires |e1| == |e2| && |e1| % 2 == 0 && j < |e1| / 2
    ensures FirstLevel(Lin(a, e1, b, e2), beta, delta)[j]
         == Lin(a, FirstLevel(e1, beta, delta)[j], b, FirstLevel(e2, beta, delta)[j])
  {
    var u1, v1, u2, v2 := e1[2 * j], e1[2 * j + 1], e2[2 * j], e2[2 * j + 1];
    var c1, c2 := [u1 + v1 * beta, v1 * delta], [u2 + v2 * beta, v2 * delta];
    assert FirstLevel(e1, beta, delta)[j] == c1 && FirstLevel(e2, beta, delta)[j] == c2;
    var lhs := FirstLevel(Lin(a, e1, b, e2), beta, delta)[j];
    var rhs := Lin(a, c1, b, c2);
    var w0, w1 := a * u1 + b * u2, a * v1 + b * v2;
    assert lhs == [w0 + w1 * beta, w1 * delta];
    PairLinear(a, b, u1, u2, v1, v2, beta);
    ScaleLinear(a, b, v1, v2, delta);
    assert lhs[0] == rhs[0] && lhs[1] == rhs[1];
  }

  lemma FirstLevelLinear(a: int, e1: seq<int>, b: int, e2: seq<int>, beta: int, delta: int)
    requires |e1| == |e2| && |e1| % 2 == 0
    ensures FirstLevel(Lin(a, e1, b, e2), beta, delta)
         == LinNodes(a, FirstLevel(e1, beta, delta), b, FirstLevel(e2, beta, delta), 2)
  {
    var lhs := FirstLevel(Lin(a, e1, b, e2), beta, delta);
    var rhs := LinNodes(a, FirstLevel(e1, beta, delta), b, FirstLevel(e2, beta, delta), 2);
    forall j | 0 <= j < |lhs|
      ensures lhs[j] == rhs[j]
    {
      FirstLevelLinearAt(a, e1, b, e2, beta, delta, j);
    }
  }

  /** The perturbator is linear in the row values. */
  lemma PerturbatorLinear(betas: seq<int>, deltas: seq<int>, a: int, e1: seq<int>, b: int, e2: seq<int>)
    requires 1 <= |betas| <= |deltas| && |e1| == |e2| == Pow2(|betas|)
    ensures Perturbator(betas, deltas, Lin(a, e1, b, e2))
         == Lin(a, Perturbator(betas, deltas, e1), b, Perturbator(betas, deltas, e2))
  {
    var combined := Lin(a, e1, b, e2);
    PerturbatorUnfold(betas, deltas, e1);
    PerturbatorUnfold(betas, deltas, e2);
    PerturbatorUnfold(betas, deltas, combined);
    var f1, f2 := FirstLevel(e1, betas[0], deltas[0]), FirstLevel(e2, betas[0], deltas[0]);
    FirstLevelLinear(a, e1, b, e2, betas[0], deltas[0]);
    ReduceLinear(1, betas, deltas, a, f1, b, f2);
  }

  /** All-zero row values give the all-zero perturbator of length |betas| + 1. */
  lemma PerturbatorOfZero(betas: seq<int>, deltas: seq<int>, e: seq<int>)
    requires 1 <= |betas| <= |deltas| && |e| == Pow2(|betas|)
    requires forall i :: 0 <= i < |e| ==> e[i] == 0
    ensures Perturbator(betas, deltas, e) == Zeros(|betas| + 1)
  {
    assert Lin(0, e, 0, e) == e;
    PerturbatorLinear(betas, deltas, 0, e, 0, e);
    var p := Perturbator(betas, deltas, e);
    assert p == Lin(0, p, 0, p);
  }

  /** A four-row instance with one violated row: e = [1, 0, 0, 0], β = [1, 1], δ = [2, 2] gives [1, 0, 0]. */
  lemma PerturbatorOfSingleViolation()
    ensures Perturbator([1, 1], [2, 2], [1, 0, 0, 0]) == [1, 0, 0]
  {
    assert Pow2(2) == 4 && Pow2(1) == 2 && Pow2(0) == 1;
    var first := FirstLevel([1, 0, 0, 0], 1, 2);
    assert first == [[1, 0], [0, 0]];
    var root := NextLevel(first, 2, 1, 2);
    assert root[0] == Combine([1, 0], [0, 0], 1, 2) == [1, 0, 0];
    assert Reduce(2, [1, 1], [2, 2], root) == root[0];
  }
}
