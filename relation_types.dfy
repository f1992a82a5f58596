/**
 * The shapes of the accumulators a relation adds its subrelation
 * contributions into, and the linear-independence flag of a subrelation.
 *
 * The sumcheck prover accumulates one univariate per subrelation, of the
 * length the relation declares for it; the verifier accumulates one field
 * element per subrelation. Field elements are modelled as `int`.
 */
module RelationTypes {
  import opened Wrappers

  /** The challenges and public values shared by every relation. */
  datatype RelationParameters = RelationParameters(
    eta: int,
    beta: int,
    gamma: int,
    publicInputDelta: int,
    lookupGrandProductDelta: int)

  /**
   * What a relation implementation declares about its subrelations: their
   * lengths, and optionally a SUBRELATION_LINEARLY_INDEPENDENT flag for each.
   */
  datatype RelationImpl = RelationImpl(
    subrelationLengths: seq<nat>,
    linearlyIndependent: Option<seq<bool>>)

  /** Slot i of a univariate accumulator tuple has lengths[i] evaluations. */
  predicate UnivariateShaped(acc: seq<seq<int>>, lengths: seq<nat>)
  {
    |acc| == |lengths| && forall i :: 0 <= i < |acc| ==> |acc[i]| == lengths[i]
  }

  /** The prover's accumulators for the lengths GetAccumulatorTypes supplies, value-initialised. */
  function UnivariateAccumulators(lengths: seq<nat>): (acc: seq<seq<int>>)
    ensures UnivariateShaped(acc, lengths)
    ensures forall i, k :: 0 <= i < |acc| && 0 <= k < |acc[i]| ==> acc[i][k] == 0
  {
    seq(|lengths|, i requires 0 <= i < |lengths| => seq(lengths[i], _ => 0))
  }

  /** The verifier's accumulators for the same lengths: one value-initialised scalar per subrelation. */
  function ValueAccumulators(lengths: seq<nat>): (acc: seq<int>)
    ensures |acc| == |lengths|
    ensures forall i :: 0 <= i < |acc| ==> acc[i] == 0
  {
    seq(|lengths|, _ => 0)
  }

  /** The scalars a univariate accumulator tuple holds at evaluation point k. */
  function AtPoint(acc: seq<seq<int>>, k: nat): (vals: seq<int>)
    requires forall i :: 0 <= i < |acc| ==> k < |acc[i]|
    ensures |vals| == |acc|
    ensures forall i :: 0 <= i < |acc| ==> vals[i] == acc[i][k]
  {
    seq(|acc|, i requires 0 <= i < |acc| => acc[i][k])
  }

  /** Only the number of subrelations shapes the value accumulators, not their lengths. */
  lemma ValueAccumulatorsCountOnly(lengths: seq<nat>, otherLengths: seq<nat>)
    requires |lengths| == |otherLengths|
    ensures ValueAccumulators(lengths) == ValueAccumulators(otherLengths)
  {
  }

  /**
   * Both forms come from the same lengths: they have the same number of
   * slots, and the prover's accumulators read at any point every slot has
   * are the verifier's accumulators.
   */
  lemma AccumulatorFormsAgree(lengths: seq<nat>, k: nat)
    requires forall i :: 0 <= i < |lengths| ==> k < lengths[i]
    ensures |UnivariateAccumulators(lengths)| == |ValueAccumulators(lengths)|
    ensures AtPoint(UnivariateAccumulators(lengths), k) == ValueAccumulators(lengths)
  {
    var acc := UnivariateAccumulators(lengths);
    assert forall i :: 0 <= i < |acc| ==> |acc[i]| == lengths[i];
  }

  /**
   * is_subrelation_linearly_independent: true for a relation without flags,
   * whatever the index, otherwise the relation's flag for that subrelation.
   * A flagged relation must have a flag for every index asked about.
   */
  function IsSubrelationLinearlyIndependent(relation: RelationImpl, subrelationIndex: nat): (r: bool)
    requires relation.linearlyIndependent.Some? ==> subrelationIndex < |relation.linearlyIndependent.value|
    ensures !r <==> relation.linearlyIndependent.Some? && !relation.linearlyIndependent.value[subrelationIndex]
  {
    match relation.linearlyIndependent
    case None => true
    case Some(flags) => flags[subrelationIndex]
  }

  /** Declaring every subrelation independent is the same as declaring no flags. */
  lemma AllTrueFlagsAsDefault(lengths: seq<nat>, flags: seq<bool>, subrelationIndex: nat)
    requires subrelationIndex < |flags|
    requires forall i :: 0 <= i < |flags| ==> flags[i]
    ensures IsSubrelationLinearlyIndependent(RelationImpl(lengths, Some(flags)), subrelationIndex)
         == IsSubrelationLinearlyIndependent(RelationImpl(lengths, None), subrelationIndex)
  {
  }
}
