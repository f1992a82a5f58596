/**
 * The ECCVM set relation's visible helpers: its subrelation lengths, the
 * lengths its GetAccumulatorTypes instantiates, the grand-product column
 * getters and convert_to_wnaf, which turns two 2-bit slices of a scalar into
 * one signed, odd windowed-NAF digit.
 */
module EccSetRelation {
  import opened Wrappers
  import opened RelationTypes

  /** Grand product construction and left-shiftable subrelations. */
  const SUBRELATION_LENGTHS: seq<nat> := [19, 19]
  const LEN_1: nat := 19
  const LEN_2: nat := 19

  /** The ECCVM set relation declares no linear-independence flags. */
  const ECC_SET_RELATION: RelationImpl := RelationImpl(SUBRELATION_LENGTHS, None)

  /** The columns of a row the getters select between. */
  datatype AllEntities = AllEntities(zPerm: int, zPermShift: int)

  /** The lengths GetAccumulatorTypes hands to an accumulator template: LEN_1, twice. */
  function AccumulatorLengths(): (lengths: seq<nat>)
    ensures lengths == SUBRELATION_LENGTHS
  {
    [LEN_1, LEN_1]
  }

  /**
   * The accumulators built from GetAccumulatorTypes have the declared
   * subrelation lengths; this rests on LEN_1 == LEN_2.
   */
  lemma AccumulatorTypesMatchLengths()
    ensures LEN_1 == LEN_2
    ensures UnivariateShaped(UnivariateAccumulators(AccumulatorLengths()), SUBRELATION_LENGTHS)
    ensures |ValueAccumulators(AccumulatorLengths())| == |SUBRELATION_LENGTHS| == 2
    ensures IsSubrelationLinearlyIndependent(ECC_SET_RELATION, 0) && IsSubrelationLinearlyIndependent(ECC_SET_RELATION, 1)
  {
  }

  /** get_grand_product_polynomial */
  function GrandProductPolynomial(input: AllEntities): (z: int)
    ensures z == input.zPerm
  {
    input.zPerm
  }

  /** get_shifted_grand_product_polynomial */
  function ShiftedGrandProductPolynomial(input: AllEntities): (zShift: int)
    ensures zShift == input.zPermShift
  {
    input.zPermShift
  }

  /** The window value 4·s0 + s1 that convert_to_wnaf builds by doubling twice and adding. */
  function WindowValue(s0: int, s1: int): (t: int)
    ensures t == 4 * s0 + s1
  {
    var t := s0 + s0;
    var t := t + t;
    t + s1
  }

  /** convert_to_wnaf: the digit 2t − 15 of the window t. */
  function ConvertToWnaf(s0: int, s1: int): (naf: int)
    ensures naf == 8 * s0 + 2 * s1 - 15
    ensures naf % 2 == 1
  {
    var t := WindowValue(s0, s1);
    t + t - 15
  }

  /** A 2-bit slice. */
  predicate IsSlice(s: int)
  {
    0 <= s < 4
  }

  /** On 2-bit slices the digit is an odd number between −15 and 15. */
  lemma WnafDigitRange(s0: int, s1: int)
    requires IsSlice(s0) && IsSlice(s1)
    ensures -15 <= ConvertToWnaf(s0, s1) <= 15
    ensures ConvertToWnaf(0, 0) == -15 && ConvertToWnaf(3, 3) == 15
  {
  }

  /** The two slices of a window, recovered from its digit. */
  function SlicesOfWnaf(naf: int): (slices: (int, int))
  {
    var t := (naf + 15) / 2;
    (t / 4, t % 4)
  }

  /** On 2-bit slices the digit determines both slices: convert_to_wnaf loses nothing. */
  lemma {:induction false} WnafRoundTrip(s0: int, s1: int)
    requires IsSlice(s0) && IsSlice(s1)
    ensures SlicesOfWnaf(ConvertToWnaf(s0, s1)) == (s0, s1)
  {
    var t := 4 * s0 + s1;
    assert (ConvertToWnaf(s0, s1) + 15) / 2 == t;
    assert t / 4 == s0 && t % 4 == s1;
  }

  /** Hence distinct slice pairs give distinct digits. */
  lemma WnafInjective(s0: int, s1: int, r0: int, r1: int)
    requires IsSlice(s0) && IsSlice(s1) && IsSlice(r0) && IsSlice(r1)
    requires ConvertToWnaf(s0, s1) == ConvertToWnaf(r0, r1)
    ensures s0 == r0 && s1 == r1
  {
    WnafRoundTrip(s0, s1);
    WnafRoundTrip(r0, r1);
  }
}
