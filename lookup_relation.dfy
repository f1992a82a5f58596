/**
 * The lookup grand-product relation: the per-row numerator and denominator
 * of the lookup grand product Z_lookup, and the two subrelations that check
 * Z_lookup was built from them, accumulated in the verifier's scalar form.
 */
module LookupRelation {
  import opened Wrappers
  import opened Polynomials
  import opened RelationTypes

  /** Lengths of the grand-product construction and left-shiftable subrelations. */
  const SUBRELATION_LENGTHS: seq<nat> := [6, 3]

  /** The lookup relation declares no linear-independence flags. */
  const LOOKUP_RELATION: RelationImpl := RelationImpl(SUBRELATION_LENGTHS, None)

  /** The entries of one row that the lookup relation reads. */
  datatype AllEntities = AllEntities(
    wL: int, wR: int, wO: int,
    wLShift: int, wRShift: int, wOShift: int,
    table1: int, table2: int, table3: int, table4: int,
    table1Shift: int, table2Shift: int, table3Shift: int, table4Shift: int,
    qO: int, qR: int, qM: int, qC: int, qLookup: int,
    sortedAccum: int, sortedAccumShift: int,
    zLookup: int, zLookupShift: int,
    lagrangeFirst: int, lagrangeLast: int)

  /** get_grand_product_polynomial */
  function GrandProductPolynomial(input: AllEntities): (z: int)
    ensures z == input.zLookup
  {
    input.zLookup
  }

  /** get_shifted_grand_product_polynomial */
  function ShiftedGrandProductPolynomial(input: AllEntities): (zShift: int)
    ensures zShift == input.zLookupShift
  {
    input.zLookupShift
  }

  /**
   * The compressed lookup query f: the three wires, each plus its step size
   * times its shift (q_r, q_m, q_c serve as step sizes), and the table index
   * q_o, combined with powers of η. It is the polynomial with those four
   * coefficients, evaluated at η.
   */
  function WireAccum(input: AllEntities, eta: int): (f: int)
    ensures f == Eval([input.wL + input.qR * input.wLShift, input.wR + input.qM * input.wRShift,
                       input.wO + input.qC * input.wOShift, input.qO], eta)
  {
    CompressionOfFour(input.wL + input.qR * input.wLShift, input.wR + input.qM * input.wRShift,
                      input.wO + input.qC * input.wOShift, input.qO, eta);
    (input.wL + input.qR * input.wLShift) + (input.wR + input.qM * input.wRShift) * eta
    + (input.wO + input.qC * input.wOShift) * (eta * eta) + input.qO * (eta * eta * eta)
  }

  /** The compressed table entry t = t₁ + ηt₂ + η²t₃ + η³t₄: the four table columns evaluated at η. */
  function TableAccum(input: AllEntities, eta: int): (t: int)
    ensures t == Eval([input.table1, input.table2, input.table3, input.table4], eta)
  {
    CompressionOfFour(input.table1, input.table2, input.table3, input.table4, eta);
    input.table1 + input.table2 * eta + input.table3 * (eta * eta) + input.table4 * (eta * eta * eta)
  }

  /** The compressed shifted table entry: the four shifted table columns evaluated at η. */
  function TableAccumShift(input: AllEntities, eta: int): (t: int)
    ensures t == Eval([input.table1Shift, input.table2Shift, input.table3Shift, input.table4Shift], eta)
  {
    CompressionOfFour(input.table1Shift, input.table2Shift, input.table3Shift, input.table4Shift, eta);
    input.table1Shift + input.table2Shift * eta + input.table3Shift * (eta * eta) + input.table4Shift * (eta * eta * eta)
  }

  /**
   * compute_grand_product_numerator:
   * (q_lookup·f + γ) · (t + β·t_shift + γ(1 + β)) · (1 + β).
   * A row that looks nothing up (q_lookup = 0) still has the nonzero numerator
   * γ(1 + β)·(t + β·t_shift + γ(1 + β)); a lookup row (q_lookup = 1) has
   * (1 + β)·(f + γ)·((t + γ) + β·(t_shift + γ)).
   */
  function GrandProductNumerator(input: AllEntities, params: RelationParameters): (num: int)
    ensures input.qLookup == 0 ==>
              num == params.gamma * (1 + params.beta)
                     * (TableAccum(input, params.eta) + TableAccumShift(input, params.eta) * params.beta + params.gamma * (1 + params.beta))
    ensures input.qLookup == 1 ==>
              num == (1 + params.beta) * (WireAccum(input, params.eta) + params.gamma)
                     * ((TableAccum(input, params.eta) + params.gamma) + params.beta * (TableAccumShift(input, params.eta) + params.gamma))
  {
    NumeratorCases(input.qLookup, WireAccum(input, params.eta), TableAccum(input, params.eta),
                   TableAccumShift(input, params.eta), params.beta, params.gamma);
    var onePlusBeta := 1 + params.beta;
    var gammaByOnePlusBeta := params.gamma * onePlusBeta;
    var tmp := input.qLookup * WireAccum(input, params.eta) + params.gamma;
    var tmp := tmp * (TableAccum(input, params.eta) + TableAccumShift(input, params.eta) * params.beta + gammaByOnePlusBeta);
    tmp * onePlusBeta
  }

  /** The numerator's two selector cases, over plain integers. */
  lemma NumeratorCases(q: int, f: int, t: int, ts: int, beta: int, gamma: int)
    ensures q == 0 ==> (q * f + gamma) * (t + ts * beta + gamma * (1 + beta)) * (1 + beta)
                       == gamma * (1 + beta) * (t + ts * beta + gamma * (1 + beta))
    ensures q == 1 ==> (q * f + gamma) * (t + ts * beta + gamma * (1 + beta)) * (1 + beta)
                       == (1 + beta) * (f + gamma) * ((t + gamma) + beta * (ts + gamma))
  {
    var u := t + ts * beta + gamma * (1 + beta);
    assert u == (t + gamma) + beta * (ts + gamma);
    if q == 0 {
      assert q * f + gamma == gamma;
    } else if q == 1 {
      assert q * f + gamma == f + gamma;
    }
  }

  /**
   * compute_grand_product_denominator: s + β·s_shift + γ(1 + β), over the
   * sorted accumulator column; that is, (s + γ) + β·(s_shift + γ).
   */
  function GrandProductDenominator(input: AllEntities, params: RelationParameters): (den: int)
    ensures den == (input.sortedAccum + params.gamma) + params.beta * (input.sortedAccumShift + params.gamma)
  {
    var onePlusBeta := 1 + params.beta;
    input.sortedAccum + input.sortedAccumShift * params.beta + params.gamma * onePlusBeta
  }

  /**
   * Contribution (1), before scaling: num·(z + L_first) − den·(z_shift + L_last·Δ).
   * On an inner row it vanishes exactly when z_shift·den = z·num, the step of
   * the grand product; on the first row, where z = 0, exactly when z_shift·den = num.
   */
  function GrandProductContribution(input: AllEntities, params: RelationParameters): (c: int)
    ensures input.lagrangeFirst == 0 && input.lagrangeLast == 0 ==>
              (c == 0 <==> input.zLookupShift * GrandProductDenominator(input, params)
                           == input.zLookup * GrandProductNumerator(input, params))
    ensures input.lagrangeFirst == 1 && input.lagrangeLast == 0 && input.zLookup == 0 ==>
              (c == 0 <==> input.zLookupShift * GrandProductDenominator(input, params)
                           == GrandProductNumerator(input, params))
  {
    ContributionCases(GrandProductNumerator(input, params), GrandProductDenominator(input, params),
                      input.zLookup, input.zLookupShift, input.lagrangeFirst, input.lagrangeLast,
                      params.lookupGrandProductDelta);
    GrandProductNumerator(input, params) * (input.zLookup + input.lagrangeFirst)
    - GrandProductDenominator(input, params) * (input.zLookupShift + input.lagrangeLast * params.lookupGrandProductDelta)
  }

  /** The contribution's selector cases, over plain integers. */
  lemma ContributionCases(num: int, den: int, z: int, zShift: int, first: int, last: int, delta: int)
    ensures first == 0 && last == 0 ==>
              (num * (z + first) - den * (zShift + last * delta) == 0 <==> zShift * den == z * num)
    ensures first == 1 && last == 0 && z == 0 ==>
              (num * (z + first) - den * (zShift + last * delta) == 0 <==> zShift * den == num)
  {
    if last == 0 {
      assert den * (zShift + last * delta) == zShift * den;
      if first == 0 {
        assert num * (z + first) == z * num;
      } else if first == 1 && z == 0 {
        assert num * (z + first) == num;
      }
    }
  }

  /** Contribution (2), before scaling: L_last · z_shift, which is zero off the last row and z_shift on it. */
  function LeftShiftableContribution(input: AllEntities): (c: int)
    ensures input.lagrangeLast == 0 ==> c == 0
    ensures input.lagrangeLast == 1 ==> c == input.zLookupShift
  {
    input.lagrangeLast * input.zLookupShift
  }

  /** The verifier's two accumulator slots after one call of accumulate. */
  function AccumulateValues(accumulators: seq<int>, newTerm: AllEntities, params: RelationParameters, scalingFactor: int): (r: seq<int>)
    requires |accumulators| == |SUBRELATION_LENGTHS|
    ensures |r| == |SUBRELATION_LENGTHS|
  {
    [accumulators[0] + GrandProductContribution(newTerm, params) * scalingFactor,
     accumulators[1] + LeftShiftableContribution(newTerm) * scalingFactor]
  }

  /** accumulate: add both scaled contributions of `newTerm` into the two slots, in place. */
  method Accumulate(accumulators: array<int>, newTerm: AllEntities, params: RelationParameters, scalingFactor: int)
    requires accumulators.Length == |SUBRELATION_LENGTHS|
    modifies accumulators
    ensures accumulators[..] == AccumulateValues(old(accumulators[..]), newTerm, params, scalingFactor)
  {
    var grandProductDelta := params.lookupGrandProductDelta;
    var lhs := GrandProductNumerator(newTerm, params);
    var rhs := GrandProductDenominator(newTerm, params);
    var tmp := lhs * (newTerm.zLookup + newTerm.lagrangeFirst)
               - rhs * (newTerm.zLookupShift + newTerm.lagrangeLast * grandProductDelta);
    accumulators[0] := accumulators[0] + tmp * scalingFactor;
    accumulators[1] := accumulators[1] + (newTerm.lagrangeLast * newTerm.zLookupShift) * scalingFactor;
  }

  // ---------------------------------------------------------------------
  // The shape of the relation
  // ---------------------------------------------------------------------

  /** Two subrelations, of lengths 6 and 3, both linearly independent. */
  lemma LookupShape()
    ensures |SUBRELATION_LENGTHS| == 2 && SUBRELATION_LENGTHS[0] == 6 && SUBRELATION_LENGTHS[1] == 3
    ensures IsSubrelationLinearlyIndependent(LOOKUP_RELATION, 0)
    ensures IsSubrelationLinearlyIndependent(LOOKUP_RELATION, 1)
  {
  }

  // ---------------------------------------------------------------------
  // The numerator and denominator
  // ---------------------------------------------------------------------

  /** c₀ + c₁η + c₂η² + c₃η³ is Horner's evaluation of [c₀, c₁, c₂, c₃] at η. */
  lemma CompressionOfFour(c0: int, c1: int, c2: int, c3: int, eta: int)
    ensures c0 + c1 * eta + c2 * (eta * eta) + c3 * (eta * eta * eta) == Eval([c0, c1, c2, c3], eta)
  {
    assert [c0, c1, c2, c3][1..] == [c1, c2, c3];
    assert [c1, c2, c3][1..] == [c2, c3];
    assert [c2, c3][1..] == [c3];
    assert [c3][1..] == [];
    assert Eval([c3], eta) == c3;
    assert Eval([c2, c3], eta) == c2 + eta * c3;
    assert Eval([c1, c2, c3], eta) == c1 + eta * (c2 + eta * c3);
    assert Eval([c0, c1, c2, c3], eta) == c0 + eta * (c1 + eta * (c2 + eta * c3));
    HornerOfFour(c0, c1, c2, c3, eta);
  }

  lemma HornerOfFour(c0: int, c1: int, c2: int, c3: int, eta: int)
    ensures c0 + eta * (c1 + eta * (c2 + eta * c3)) == c0 + c1 * eta + c2 * (eta * eta) + c3 * (eta * eta * eta)
  {
  }

  /**
   * With q_lookup = 0 the numerator reads no wire, wire shift or step-size
   * selector: two such rows with the same tables have the same numerator.
   */
  lemma NumeratorIgnoresWiresWithoutLookup(input: AllEntities, other: AllEntities, params: RelationParameters)
    requires input.qLookup == 0 && other.qLookup == 0
    requires input.table1 == other.table1 && input.table2 == other.table2
    requires input.table3 == other.table3 && input.table4 == other.table4
    requires input.table1Shift == other.table1Shift && input.table2Shift == other.table2Shift
    requires input.table3Shift == other.table3Shift && input.table4Shift == other.table4Shift
    ensures GrandProductNumerator(input, params) == GrandProductNumerator(other, params)
  {
  }

  /**
   * The denominator reads only sorted_accum, its shift, β and γ: rows that
   * agree there, under parameters that agree on β and γ, have equal denominators.
   */
  lemma DenominatorReadsOnlySorted(input: AllEntities, other: AllEntities, params: RelationParameters, otherParams: RelationParameters)
    requires input.sortedAccum == other.sortedAccum && input.sortedAccumShift == other.sortedAccumShift
    requires params.beta == otherParams.beta && params.gamma == otherParams.gamma
    ensures GrandProductDenominator(input, params) == GrandProductDenominator(other, otherParams)
  {
  }

  // ---------------------------------------------------------------------
  // Accumulation
  // ---------------------------------------------------------------------

  /** A zero scaling factor leaves both slots as they were. */
  lemma AccumulateZeroScaling(accumulators: seq<int>, newTerm: AllEntities, params: RelationParameters)
    requires |accumulators| == |SUBRELATION_LENGTHS|
    ensures AccumulateValues(accumulators, newTerm, params, 0) == accumulators
  {
  }

  /** Away from the last row (lagrange_last = 0) the left-shiftable slot is unchanged. */
  lemma AccumulateAwayFromLastRow(accumulators: seq<int>, newTerm: AllEntities, params: RelationParameters, scalingFactor: int)
    requires |accumulators| == |SUBRELATION_LENGTHS| && newTerm.lagrangeLast == 0
    ensures AccumulateValues(accumulators, newTerm, params, scalingFactor)[1] == accumulators[1]
  {
  }

  /** Accumulating two rows gives the same slots in either order. */
  lemma AccumulateCommutes(accumulators: seq<int>, first: AllEntities, second: AllEntities, params: RelationParameters,
                           firstScaling: int, secondScaling: int)
    requires |accumulators| == |SUBRELATION_LENGTHS|
    ensures AccumulateValues(AccumulateValues(accumulators, first, params, firstScaling), second, params, secondScaling)
         == AccumulateValues(AccumulateValues(accumulators, second, params, secondScaling), first, params, firstScaling)
  {
  }

  /** One call of accumulate: a row and its scaling factor. */
  datatype ScaledRow = ScaledRow(row: AllEntities, scalingFactor: int)

  /** What one call adds to the two slots. */
  function Contribution(term: ScaledRow, params: RelationParameters): (c: seq<int>)
    ensures |c| == |SUBRELATION_LENGTHS|
  {
    [GrandProductContribution(term.row, params) * term.scalingFactor,
     LeftShiftableContribution(term.row) * term.scalingFactor]
  }

  /** Slot-wise sum of two accumulator pairs. */
  function Plus(a: seq<int>, b: seq<int>): (r: seq<int>)
    requires |a| == |b| == |SUBRELATION_LENGTHS|
    ensures |r| == |SUBRELATION_LENGTHS|
  {
    [a[0] + b[0], a[1] + b[1]]
  }

  /** The slot-wise total of the contributions of all calls. */
  function Total(terms: seq<ScaledRow>, params: RelationParameters): (t: seq<int>)
    ensures |t| == |SUBRELATION_LENGTHS|
  {
    if terms == [] then [0, 0] else Plus(Contribution(terms[0], params), Total(terms[1..], params))
  }

  /** Accumulating the calls one after another, front to back. */
  function AccumulateRows(accumulators: seq<int>, terms: seq<ScaledRow>, params: RelationParameters): (r: seq<int>)
    requires |accumulators| == |SUBRELATION_LENGTHS|
    ensures |r| == |SUBRELATION_LENGTHS|
    decreases |terms|
  {
    if terms == [] then accumulators
    else AccumulateRows(AccumulateValues(accumulators, terms[0].row, params, terms[0].scalingFactor), terms[1..], params)
  }

  /** However many calls are made, the slots end at their start values plus the calls' total. */
  lemma {:induction false} AccumulateRowsTotal(accumulators: seq<int>, terms: seq<ScaledRow>, params: RelationParameters)
    requires |accumulators| == |SUBRELATION_LENGTHS|
    ensures AccumulateRows(accumulators, terms, params) == Plus(accumulators, Total(terms, params))
    decreases |terms|
  {
    if terms != [] {
      AccumulateRowsTotal(AccumulateValues(accumulators, terms[0].row, params, terms[0].scalingFactor), terms[1..], params);
    }
  }

  /** Taking call i out of the sequence takes exactly its contribution out of the total. */
  lemma {:induction false} TotalRemove(terms: seq<ScaledRow>, i: nat, params: RelationParameters)
    requires i < |terms|
    ensures Total(terms, params) == Plus(Contribution(terms[i], params), Total(terms[..i] + terms[i + 1..], params))
    decreases i
  {
    if i == 0 {
      assert terms[..0] + terms[1..] == terms[1..];
    } else {
      var rest := terms[1..];
      TotalRemove(rest, i - 1, params);
      assert rest[i - 1] == terms[i];
      assert terms[..i] + terms[i + 1..] == [terms[0]] + (rest[..i - 1] + rest[i..]);
      assert (terms[..i] + terms[i + 1..])[1..] == rest[..i - 1] + rest[i..];
    }
  }

  /**
   * The order of the calls does not matter: any rearrangement of the same
   * calls leaves the same total.
   */
  lemma {:induction false} TotalPermutation(terms: seq<ScaledRow>, reordered: seq<ScaledRow>, params: RelationParameters)
    requires multiset(terms) == multiset(reordered)
    ensures Total(terms, params) == Total(reordered, params)
    decreases |terms|
  {
    if terms == [] {
      assert |reordered| == |multiset(reordered)| == 0;
    } else {
      assert terms[0] in multiset(reordered);
      var j :| 0 <= j < |reordered| && reordered[j] == terms[0];
      var others := reordered[..j] + reordered[j + 1..];
      assert reordered == reordered[..j] + [reordered[j]] + reordered[j + 1..];
      assert multiset(reordered) == multiset(reordered[..j]) + multiset{terms[0]} + multiset(reordered[j + 1..]);
      assert multiset(others) == multiset(reordered[..j]) + multiset(reordered[j + 1..]);
      assert terms == [terms[0]] + terms[1..];
      assert multiset(terms) == multiset{terms[0]} + multiset(terms[1..]);
      assert multiset(terms[1..]) == multiset(terms) - multiset{terms[0]};
      assert multiset(others) == multiset(reordered) - multiset{terms[0]};
      TotalPermutation(terms[1..], others, params);
      TotalRemove(reordered, j, params);
    }
  }

  /** Hence accumulating the same calls in any order leaves the same slots. */
  lemma AccumulateRowsPermutation(accumulators: seq<int>, terms: seq<ScaledRow>, reordered: seq<ScaledRow>, params: RelationParameters)
    requires |accumulators| == |SUBRELATION_LENGTHS|
    requires multiset(terms) == multiset(reordered)
    ensures AccumulateRows(accumulators, terms, params) == AccumulateRows(accumulators, reordered, params)
  {
    AccumulateRowsTotal(accumulators, terms, params);
    AccumulateRowsTotal(accumulators, reordered, params);
    TotalPermutation(terms, reordered, params);
  }

  // ---------------------------------------------------------------------
  // What the relation checks: the grand product closes
  // ---------------------------------------------------------------------

  /** Consecutive rows of a trace: each row's z_lookup_shift is the next row's z_lookup. */
  predicate ShiftsConsistent(trace: seq<AllEntities>)
  {
    forall i :: 0 <= i < |trace| - 1 ==> ShiftedGrandProductPolynomial(trace[i]) == GrandProductPolynomial(trace[i + 1])
  }

  /** lagrange_first is 1 exactly at the first row, lagrange_last 1 exactly at the last. */
  predicate LagrangeSelectors(trace: seq<AllEntities>)
  {
    forall i :: 0 <= i < |trace| ==>
      && trace[i].lagrangeFirst == (if i == 0 then 1 else 0)
      && trace[i].lagrangeLast == (if i == |trace| - 1 then 1 else 0)
  }

  /** ∏_{lo <= i < hi} of the numerators of the rows. */
  function NumeratorProduct(trace: seq<AllEntities>, params: RelationParameters, hi: nat): int
    requires hi <= |trace|
  {
    if hi == 0 then 1 else NumeratorProduct(trace, params, hi - 1) * GrandProductNumerator(trace[hi - 1], params)
  }

  /** ∏_{i < hi} of the denominators of the rows. */
  function DenominatorProduct(trace: seq<AllEntities>, params: RelationParameters, hi: nat): int
    requires hi <= |trace|
  {
    if hi == 0 then 1 else DenominatorProduct(trace, params, hi - 1) * GrandProductDenominator(trace[hi - 1], params)
  }

  /**
   * While every row satisfies the grand-product subrelation, z_lookup at row
   * k carries the prefix product: ∏_{i<k} num_i = z_k · ∏_{i<k} den_i.
   */
  lemma {:induction false} PrefixProduct(trace: seq<AllEntities>, params: RelationParameters, k: nat)
    requires 1 <= k < |trace|
    requires ShiftsConsistent(trace) && LagrangeSelectors(trace) && trace[0].zLookup == 0
    requires forall i :: 0 <= i < |trace| ==> GrandProductContribution(trace[i], params) == 0
    ensures NumeratorProduct(trace, params, k) == trace[k].zLookup * DenominatorProduct(trace, params, k)
  {
    var row := trace[k - 1];
    var num, den := GrandProductNumerator(row, params), GrandProductDenominator(row, params);
    assert row.zLookupShift == trace[k].zLookup;
    assert row.lagrangeLast == 0;
    assert GrandProductContribution(row, params) == 0;
    if k == 1 {
      assert row.lagrangeFirst == 1 && row.zLookup == 0;
      assert num * (0 + 1) == den * trace[1].zLookup;
      assert NumeratorProduct(trace, params, 1) == num;
      assert DenominatorProduct(trace, params, 1) == den;
    } else {
      PrefixProduct(trace, params, k - 1);
      assert row.lagrangeFirst == 0;
      assert num * row.zLookup == den * trace[k].zLookup;
      var np, dp := NumeratorProduct(trace, params, k - 1), DenominatorProduct(trace, params, k - 1);
      ShiftProduct(np, dp, row.zLookup, num, den, trace[k].zLookup);
    }
  }

  lemma ShiftProduct(np: int, dp: int, z: int, num: int, den: int, zNext: int)
    requires np == z * dp && num * z == den * zNext
    ensures np * num == zNext * (dp * den)
  {
    calc {
      np * num;
      (z * dp) * num;
      (num * z) * dp;
      (den * zNext) * dp;
      zNext * (dp * den);
    }
  }

  /**
   * A trace of at least two rows on which both subrelations vanish, with
   * z_lookup = 0 on the first row, has ∏ num_i = Δ · ∏ den_i, where Δ is
   * lookup_grand_product_delta: the products the grand product compares.
   */
  lemma GrandProductCloses(trace: seq<AllEntities>, params: RelationParameters)
    requires |trace| >= 2
    requires ShiftsConsistent(trace) && LagrangeSelectors(trace) && trace[0].zLookup == 0
    requires forall i :: 0 <= i < |trace| ==> GrandProductContribution(trace[i], params) == 0
    requires forall i :: 0 <= i < |trace| ==> LeftShiftableContribution(trace[i]) == 0
    ensures NumeratorProduct(trace, params, |trace|)
         == params.lookupGrandProductDelta * DenominatorProduct(trace, params, |trace|)
  {
    var n := |trace|;
    var last := trace[n - 1];
    PrefixProduct(trace, params, n - 1);
    var num, den := GrandProductNumerator(last, params), GrandProductDenominator(last, params);
    assert num * last.zLookup == den * params.lookupGrandProductDelta by {
      assert last.lagrangeFirst == 0 && last.lagrangeLast == 1;
      LastRow(last, params);
    }
    ShiftProduct(NumeratorProduct(trace, params, n - 1), DenominatorProduct(trace, params, n - 1),
                 last.zLookup, num, den, params.lookupGrandProductDelta);
  }

  /** On the last row, both subrelations vanishing gives num·z = den·Δ. */
  lemma LastRow(last: AllEntities, params: RelationParameters)
    requires last.lagrangeFirst == 0 && last.lagrangeLast == 1
    requires GrandProductContribution(last, params) == 0 && LeftShiftableContribution(last) == 0
    ensures GrandProductNumerator(last, params) * last.zLookup
         == GrandProductDenominator(last, params) * params.lookupGrandProductDelta
  {
    assert last.zLookupShift == 0;
    var num, den := GrandProductNumerator(last, params), GrandProductDenominator(last, params);
    assert num * (last.zLookup + 0) - den * (0 + 1 * params.lookupGrandProductDelta) == 0;
  }

  /** The left-shiftable subrelation vanishes on the last row exactly when z_lookup_shift is 0 there. */
  lemma LeftShiftableAtLastRow(input: AllEntities)
    requires input.lagrangeLast == 1
    ensures LeftShiftableContribution(input) == 0 <==> ShiftedGrandProductPolynomial(input) == 0
  {
  }
}
