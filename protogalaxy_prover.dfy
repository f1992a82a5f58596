/**
 * The ProtoGalaxy folding prover's perturbator computation, as the prover
 * runs it: buffers are allocated first and filled index by index, and the
 * levels of the tree are reduced by a recursive method.
 *
 * Each method is proved against the functions of module Perturbator, whose
 * properties (closed form, constant and top coefficient, linearity) are
 * proved there.
 */
module ProtoGalaxyProver {
  import opened Wrappers
  import opened Polynomials
  import opened Perturbator
  import opened RelationTypes

  /** One accumulated execution: its trace columns, relation parameters and gate separation challenges β. */
  datatype Instance = Instance(
    proverPolynomials: seq<seq<int>>,
    relationParameters: RelationParameters,
    gateSeparationChallenges: seq<int>)

  /** The two checks of compute_perturbator. */
  datatype FoldingError = DeltasLengthMismatch | BetasLengthMismatch

  /** compute_full_honk_relation_row_value: a row, α and the relation parameters to the row's relation value. */
  type RowEvaluator = (seq<int>, int, RelationParameters) -> int

  /** A collection of trace columns of one common length. */
  predicate WellFormedColumns(polys: seq<seq<int>>)
  {
    |polys| >= 1 && |polys[0]| >= 1 && forall k :: 0 <= k < |polys| ==> |polys[k]| == |polys[0]|
  }

  /** The values of every column at `row`, in column order. */
  function ExecutionRow(polys: seq<seq<int>>, row: nat): seq<int>
    requires forall k :: 0 <= k < |polys| ==> row < |polys[k]|
  {
    seq(|polys|, k requires 0 <= k < |polys| => polys[k][row])
  }

  /** The relation value of every row of the instance: the vector e folded into the perturbator. */
  function RowValues(polys: seq<seq<int>>, alpha: int, params: RelationParameters, rowValue: RowEvaluator): (e: seq<int>)
    requires WellFormedColumns(polys)
    ensures |e| == |polys[0]|
  {
    seq(|polys[0]|, idx requires 0 <= idx < |polys[0]| => rowValue(ExecutionRow(polys, idx), alpha, params))
  }

  /** δ squared k times. */
  function RepeatedSquare(x: int, k: nat): int
  {
    if k == 0 then x else RepeatedSquare(x, k - 1) * RepeatedSquare(x, k - 1)
  }

  /** Squaring k times raises to the power 2^k. */
  lemma {:induction false} RepeatedSquareIsPow(x: int, k: nat)
    ensures RepeatedSquare(x, k) == Pow(x, Pow2(k))
  {
    if k > 0 {
      RepeatedSquareIsPow(x, k - 1);
      SquarePow(x, k - 1);
    }
  }

  /** compute_round_challenge_pows: [δ, δ², δ⁴, …] by repeated squaring. */
  method ComputeRoundChallengePows(logInstanceSize: nat, roundChallenge: int) returns (pows: seq<int>)
    requires logInstanceSize >= 1
    ensures |pows| == logInstanceSize
    ensures forall i :: 0 <= i < |pows| ==> pows[i] == Pow(roundChallenge, Pow2(i))
  {
    var buffer := new int[logInstanceSize];
    buffer[0] := roundChallenge;
    for i := 1 to logInstanceSize
      invariant forall k :: 0 <= k < i ==> buffer[k] == RepeatedSquare(roundChallenge, k)
    {
      buffer[i] := buffer[i - 1] * buffer[i - 1];
    }
    pows := buffer[..];
    forall i | 0 <= i < |pows|
      ensures pows[i] == Pow(roundChallenge, Pow2(i))
    {
      RepeatedSquareIsPow(roundChallenge, i);
    }
  }

  /** get_execution_row: slot k of the result is column k's entry at `row`. */
  method GetExecutionRow(polys: seq<seq<int>>, row: nat) returns (rowEvals: seq<int>)
    requires forall k :: 0 <= k < |polys| ==> row < |polys[k]|
    ensures |rowEvals| == |polys|
    ensures forall k :: 0 <= k < |polys| ==> rowEvals[k] == polys[k][row]
  {
    var buffer := new int[|polys|];
    var idx := 0;
    while idx < |polys|
      invariant 0 <= idx <= |polys|
      invariant forall k :: 0 <= k < idx ==> buffer[k] == polys[k][row]
    {
      buffer[idx] := polys[idx][row];
      idx := idx + 1;
    }
    rowEvals := buffer[..];
  }

  /** The rows of a matrix as sequences. */
  function Rows(matrix: array2<int>): (r: seq<seq<int>>)
    reads matrix
    ensures |r| == matrix.Length0 && Uniform(r, matrix.Length1)
    ensures forall j, c :: 0 <= j < matrix.Length0 && 0 <= c < matrix.Length1 ==> r[j][c] == matrix[j, c]
  {
    seq(matrix.Length0, j requires 0 <= j < matrix.Length0 reads matrix =>
      seq(matrix.Length1, c requires 0 <= c < matrix.Length1 reads matrix => matrix[j, c]))
  }

  /**
   * Coefficient c of a parent after copying the even child and running the
   * first `done` steps of the loop over d.
   */
  function PartialCombine(even: seq<int>, odd: seq<int>, beta: int, delta: int, done: nat, c: nat): int
    requires |even| == |odd| && done <= |odd|
  {
    Coef(even, c)
    + (if c < done then odd[c] * beta else 0)
    + (if 1 <= c <= done then odd[c - 1] * delta else 0)
  }

  /**
   * The body of compute_level's loop for one parent: copy the even child into
   * the parent's zeroed buffer, then add odd[d]·β at d and odd[d]·δ at d + 1.
   */
  method CombineInto(levelCoeffs: array2<int>, parent: nat, even: seq<int>, odd: seq<int>, beta: int, delta: int)
    requires parent < levelCoeffs.Length0
    requires |even| == |odd| && levelCoeffs.Length1 == |odd| + 1
    requires forall c :: 0 <= c < levelCoeffs.Length1 ==> levelCoeffs[parent, c] == 0
    modifies levelCoeffs
    ensures forall c :: 0 <= c < levelCoeffs.Length1 ==> levelCoeffs[parent, c] == Combine(even, odd, beta, delta)[c]
    ensures forall p, c :: 0 <= p < levelCoeffs.Length0 && p != parent && 0 <= c < levelCoeffs.Length1 ==>
              levelCoeffs[p, c] == old(levelCoeffs[p, c])
  {
    var degree := |odd|;
    for c := 0 to degree
      invariant forall c' :: 0 <= c' < c ==> levelCoeffs[parent, c'] == even[c']
      invariant forall c' :: c <= c' <= degree ==> levelCoeffs[parent, c'] == 0
      invariant forall p, c' :: 0 <= p < levelCoeffs.Length0 && p != parent && 0 <= c' <= degree ==>
                  levelCoeffs[p, c'] == old(levelCoeffs[p, c'])
    {
      levelCoeffs[parent, c] := even[c];
    }
    for d := 0 to degree
      invariant forall c :: 0 <= c <= degree ==>
                  levelCoeffs[parent, c] == PartialCombine(even, odd, beta, delta, d, c)
      invariant forall p, c' :: 0 <= p < levelCoeffs.Length0 && p != parent && 0 <= c' <= degree ==>
                  levelCoeffs[p, c'] == old(levelCoeffs[p, c'])
    {
      levelCoeffs[parent, d] := levelCoeffs[parent, d] + odd[d] * beta;
      levelCoeffs[parent, d + 1] := levelCoeffs[parent, d + 1] + odd[d] * delta;
    }
  }

  /**
   * The body of one compute_level call: a zeroed buffer of |prev| / 2 nodes
   * of degree + 1 coefficients, node p filled from children 2p and 2p + 1.
   */
  method ComputeLevelNodes(prevLevelCoeffs: seq<seq<int>>, degree: nat, beta: int, delta: int)
    returns (levelNodes: seq<seq<int>>)
    requires |prevLevelCoeffs| % 2 == 0 && Uniform(prevLevelCoeffs, degree)
    ensures levelNodes == NextLevel(prevLevelCoeffs, degree, beta, delta)
  {
    var prevLevelWidth := |prevLevelCoeffs|;
    var levelCoeffs := new int[prevLevelWidth / 2, degree + 1]((_, _) => 0);
    var node := 0;
    while node < prevLevelWidth
      invariant 0 <= node <= prevLevelWidth && node % 2 == 0
      invariant forall p, c :: 0 <= p < node / 2 && 0 <= c <= degree ==>
                  levelCoeffs[p, c] == Combine(prevLevelCoeffs[2 * p], prevLevelCoeffs[2 * p + 1], beta, delta)[c]
      invariant forall p, c :: node / 2 <= p < prevLevelWidth / 2 && 0 <= c <= degree ==> levelCoeffs[p, c] == 0
    {
      var parent := node / 2;
      CombineInto(levelCoeffs, parent, prevLevelCoeffs[node], prevLevelCoeffs[node + 1], beta, delta);
      node := node + 2;
    }
    levelNodes := Rows(levelCoeffs);
    var expected := NextLevel(prevLevelCoeffs, degree, beta, delta);
    forall j | 0 <= j < |levelNodes|
      ensures levelNodes[j] == expected[j]
    {
      var combined := Combine(prevLevelCoeffs[2 * j], prevLevelCoeffs[2 * j + 1], beta, delta);
      assert expected[j] == combined;
      assert forall c :: 0 <= c <= degree ==> levelNodes[j][c] == combined[c];
    }
  }

  /**
   * compute_level: reduce the nodes of `level` (each with level + 1
   * coefficients) one level per call until level == |betas|, and return the root.
   */
  method ComputeLevel(level: nat, betas: seq<int>, deltas: seq<int>, prevLevelCoeffs: seq<seq<int>>)
    returns (r: seq<int>)
    requires level <= |betas| <= |deltas|
    requires |prevLevelCoeffs| == Pow2(|betas| - level) && Uniform(prevLevelCoeffs, level + 1)
    ensures r == Reduce(level, betas, deltas, prevLevelCoeffs)
    decreases |betas| - level
  {
    if level == |betas| {
      return prevLevelCoeffs[0];
    }
    ReduceStep(level, betas, deltas, prevLevelCoeffs);
    var levelNodes := ComputeLevelNodes(prevLevelCoeffs, level + 1, betas[level], deltas[level]);
    r := ComputeLevel(level + 1, betas, deltas, levelNodes);
  }

  /**
   * The first loop of construct_perturbator_coeffs: node p of a zeroed
   * buffer becomes [e_2p + e_2p+1·β_0, e_2p+1·δ_0].
   */
  method ComputeFirstLevel(e: seq<int>, beta: int, delta: int) returns (firstLevel: seq<seq<int>>)
    requires |e| % 2 == 0
    ensures firstLevel == FirstLevel(e, beta, delta)
  {
    var width := |e|;
    var firstLevelCoeffs := new int[width / 2, 2]((_, _) => 0);
    var node := 0;
    while node < width
      invariant 0 <= node <= width && node % 2 == 0
      invariant forall p, c :: 0 <= p < node / 2 && 0 <= c < 2 ==>
                  firstLevelCoeffs[p, c] == FirstLevel(e, beta, delta)[p][c]
    {
      var idx := node / 2;
      firstLevelCoeffs[idx, 0] := e[node] + e[node + 1] * beta;
      firstLevelCoeffs[idx, 1] := e[node + 1] * delta;
      node := node + 2;
    }
    firstLevel := Rows(firstLevelCoeffs);
    var expected := FirstLevel(e, beta, delta);
    forall j | 0 <= j < |firstLevel|
      ensures firstLevel[j] == expected[j]
    {
      assert firstLevel[j][0] == expected[j][0] && firstLevel[j][1] == expected[j][1];
    }
  }

  /**
   * construct_perturbator_coeffs: build the first level from the row values,
   * then reduce. The result has |betas| + 1 coefficients and evaluates to
   * Σ_i e_i · ∏_L (β_L + δ_L·x)^{bit_L(i)} at every x.
   */
  method ConstructPerturbatorCoeffs(betas: seq<int>, deltas: seq<int>, fullHonkEvaluations: seq<int>)
    returns (r: seq<int>)
    requires 1 <= |betas| <= |deltas|
    requires |fullHonkEvaluations| == Pow2(|betas|)
    ensures r == Perturbator.Perturbator(betas, deltas, fullHonkEvaluations)
    ensures |r| == |betas| + 1
    ensures forall x :: Eval(r, x) == ClosedForm(betas, deltas, fullHonkEvaluations, x)
    ensures r[0] == PowBetaSum(betas, fullHonkEvaluations, |fullHonkEvaluations|)
    ensures r[|betas|] == fullHonkEvaluations[|fullHonkEvaluations| - 1] * DeltaProduct(deltas, 0, |betas|)
  {
    var e := fullHonkEvaluations;
    assert Pow2(|betas|) == 2 * Pow2(|betas| - 1);
    Halve(|e|, Pow2(|betas| - 1));
    var firstLevel := ComputeFirstLevel(e, betas[0], deltas[0]);
    r := ComputeLevel(1, betas, deltas, firstLevel);
    forall x
      ensures Eval(r, x) == ClosedForm(betas, deltas, e, x)
    {
      PerturbatorClosedForm(betas, deltas, e, x);
    }
    PerturbatorConstantCoefficient(betas, deltas, e);
    PerturbatorTopCoefficient(betas, deltas, e);
  }

  /**
   * compute_perturbator: evaluate every row of the accumulator, then fold the
   * row values into the perturbator with the accumulator's β and the round's δ.
   * Both challenge vectors must have log2(instance size) entries; deltas are
   * checked first, betas after the rows are evaluated.
   */
  method ComputePerturbator(accumulator: Instance, deltas: seq<int>, alpha: int, rowValue: RowEvaluator)
    returns (result: Result<seq<int>, FoldingError>)
    requires WellFormedColumns(accumulator.proverPolynomials)
    requires var n := |accumulator.proverPolynomials[0]|;
             |deltas| == Msb(n) && |accumulator.gateSeparationChallenges| == Msb(n) ==> n == Pow2(Msb(n)) && n >= 2
    ensures var n := |accumulator.proverPolynomials[0]|;
            |deltas| != Msb(n) ==> result == Failure(DeltasLengthMismatch)
    ensures var n := |accumulator.proverPolynomials[0]|;
            |deltas| == Msb(n) && |accumulator.gateSeparationChallenges| != Msb(n) ==> result == Failure(BetasLengthMismatch)
    ensures var n := |accumulator.proverPolynomials[0]|;
            var betas := accumulator.gateSeparationChallenges;
            |deltas| == Msb(n) && |betas| == Msb(n) ==>
              && 1 <= |betas| && n == Pow2(|betas|)
              && result == Success(Perturbator.Perturbator(betas, deltas,
                   RowValues(accumulator.proverPolynomials, alpha, accumulator.relationParameters, rowValue)))
  {
    var polys := accumulator.proverPolynomials;
    var instanceSize := |polys[0]|;
    var logInstanceSize := Msb(instanceSize);
    if |deltas| != logInstanceSize {
      return Failure(DeltasLengthMismatch);
    }
    var fullHonkEvaluations := new int[instanceSize];
    for idx := 0 to instanceSize
      invariant forall i :: 0 <= i < idx ==>
                  fullHonkEvaluations[i] == rowValue(ExecutionRow(polys, i), alpha, accumulator.relationParameters)
    {
      var rowEvaluations := GetExecutionRow(polys, idx);
      assert rowEvaluations == ExecutionRow(polys, idx);
      fullHonkEvaluations[idx] := rowValue(rowEvaluations, alpha, accumulator.relationParameters);
    }
    var betas := accumulator.gateSeparationChallenges;
    if |betas| != logInstanceSize {
      return Failure(BetasLengthMismatch);
    }
    assert logInstanceSize >= 1;
    var e := fullHonkEvaluations[..];
    assert e == RowValues(polys, alpha, accumulator.relationParameters, rowValue);
    var coeffs := ConstructPerturbatorCoeffs(betas, deltas, e);
    return Success(coeffs);
  }

  /** The folding prover: the instances being folded, the first of which is the running accumulator. */
  class ProtoGalaxyProver {
    var instances: seq<Instance>

    constructor (insts: seq<Instance>)
      ensures instances == insts
    {
      instances := insts;
    }

    /** get_accumulator */
    function GetAccumulator(): (accumulator: Instance)
      reads this
      requires |instances| >= 1
      ensures accumulator == instances[0]
    {
      instances[0]
    }
  }
}
