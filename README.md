# ProtoGalaxy perturbator, lookup relation and ZeroMorph formulas in Dafny

This project models part of barretenberg, the proving system of the Aztec
repository:

- **The ProtoGalaxy folding prover's perturbator computation.**
  - Repeated squaring of the round challenge δ.
  - Reading one execution row of the accumulator.
  - Evaluating every row with the full Honk relation. The row evaluator is a
    parameter of the model.
  - The binary-tree reduction that folds the 2^t row values e into a
    perturbator polynomial with t + 1 coefficients.
- **The lookup grand-product relation.**
  - Its numerator and denominator.
  - Its two subrelations, and `accumulate`, which adds their scaled
    contributions into two accumulator slots in place.
- **The relation accumulator shapes and the subrelation linear-independence
  flag.**
- **The ECCVM set relation's visible helpers.** These are `convert_to_wnaf`,
  the subrelation lengths and the grand-product getters.
- **The ZeroMorph formulas the prover's tests check.**
  - Φ_k(x) = Σ_{i<2^k} x^i and its efficient formula.
  - The batched lifted degree quotient q̂ = Σ_k y^k·X^{N−2^k}·q_k.
  - The partially evaluated polynomials ζ_x and Z_x.

Field elements are modelled as unbounded integers. In `Perturbator`,
`ProtoGalaxyProver`, `LookupRelation`, `RelationTypes` and `ZeroMorph` every
property proved about field elements is a ring identity without division, so
it also holds modulo the field's prime. Each identity the source writes with a
division is stated multiplied out, for example Φ_n(x)·(x − 1) = x^{2^n} − 1.
The exception is `EccSetRelation`: its facts about `convert_to_wnaf` (the digit
is odd, lies in [−15, 15] and determines its slices) are integer facts about
2-bit slices, and do not carry over to arbitrary field elements.

Modules, one per file:

- **`Polynomials`:** powers, `get_msb`, coefficient-form polynomials, Horner
  evaluation and `add_scaled`.
- **`Perturbator`:** the tree reduction as functions. It proves the
  perturbator's closed form Σ_i e_i·∏_L (β_L + δ_L·X)^{bit_L(i)}, its
  constant and top coefficients, and its linearity.
- **`ProtoGalaxyProver`:** the prover's methods. They use `array2` level
  buffers, loops and the recursive `compute_level`, and each is proved equal
  to the functions of `Perturbator`.
- **`RelationTypes`, `LookupRelation`, `EccSetRelation`, `ZeroMorph`:** one
  each for the relation framework, the lookup relation, the ECCVM set relation
  and the ZeroMorph formulas.

The grand-product property is proved in `LookupRelation.GrandProductCloses`.
Suppose both lookup subrelations vanish on every row of a trace, z_lookup is 0
on the first row and the Lagrange selectors mark the first and last rows. Then
∏ numerator = Δ·∏ denominator.

### Behaviour of the code worth knowing

- **Unused lookups.** With q_lookup = 0 the numerator is
  γ(1+β)·(t + β·t_shift + γ(1+β)), not 0, so a row that looks nothing up does
  not make the lookup subrelation vanish by itself
  (lookup_relation.hpp:107-110). `LookupRelation.GrandProductNumerator` states
  this case.
- **Lagrange terms.** The grand-product contribution is
  num·(z + L_first) − den·(z_shift + L_last·Δ) (lookup_relation.hpp:184-185).
- **Order of the length checks.** In `compute_perturbator` the deltas are
  checked before any row is evaluated, and the betas only after every row has
  been evaluated (protogalaxy_prover.hpp:111, 123).
  `ProtoGalaxyProver.ComputePerturbator` keeps that order.
- **Round challenge powers.** The doc comment of `compute_round_challenge_pows`
  says [δ, δ², …, δ^t] (protogalaxy_prover.hpp:30-31). The loop squares the
  previous entry (protogalaxy_prover.hpp:38), so entry i is δ^{2^i}, and the
  model follows the loop.

## Model

| member | source | states |
|---|---|---|
| Polynomials.Msb | barretenberg/cpp/src/barretenberg/honk/proof_system/protogalaxy_prover.hpp:110 | get_msb(n) is the r with 2^r ≤ n < 2^{r+1} |
| Polynomials.SquarePow | barretenberg/cpp/src/barretenberg/honk/proof_system/protogalaxy_prover.hpp:38 | squaring δ^{2^i} gives δ^{2^{i+1}} |
| Polynomials.AddScaled | barretenberg/cpp/src/barretenberg/honk/pcs/zeromorph/zeromorph.test.cpp:102-103 | add_scaled has the longer length, and coefficient i is p_i + s·q_i |
| Polynomials.EvalAddScaled | barretenberg/cpp/src/barretenberg/honk/pcs/zeromorph/zeromorph.test.cpp:102-103 | (p + s·q)(x) = p(x) + s·q(x) for every x |
| Polynomials.EvalMonomialShift | barretenberg/cpp/src/barretenberg/honk/pcs/zeromorph/zeromorph.test.cpp:96-100 | prepending k zero coefficients multiplies the value by x^k |
| Perturbator.Combine | barretenberg/cpp/src/barretenberg/honk/proof_system/protogalaxy_prover.hpp:79-86 | a parent has one coefficient more than its children |
| Perturbator.NextLevel | barretenberg/cpp/src/barretenberg/honk/proof_system/protogalaxy_prover.hpp:79-87 | a level has half as many nodes as the one below, each with one more coefficient |
| Perturbator.FirstLevel | barretenberg/cpp/src/barretenberg/honk/proof_system/protogalaxy_prover.hpp:96-102 | the first level has width/2 nodes of 2 coefficients |
| Perturbator.Reduce | barretenberg/cpp/src/barretenberg/honk/proof_system/protogalaxy_prover.hpp:65-89 | the recursion ends at level == \|betas\| with \|betas\| + 1 coefficients |
| Perturbator.CombineAsAddScaled | barretenberg/cpp/src/barretenberg/honk/proof_system/protogalaxy_prover.hpp:82-86 | parent = even + β·odd + δ·(odd shifted up one degree) |
| Perturbator.CombineEval | barretenberg/cpp/src/barretenberg/honk/proof_system/protogalaxy_prover.hpp:82-86 | parent(x) = even(x) + (β + δx)·odd(x) |
| Perturbator.CombineTop | barretenberg/cpp/src/barretenberg/honk/proof_system/protogalaxy_prover.hpp:85 | a parent's top coefficient is δ times the odd child's top coefficient |
| Perturbator.NextLevelSum | barretenberg/cpp/src/barretenberg/honk/proof_system/protogalaxy_prover.hpp:80-87 | one level preserves Σ_j node_j(x)·(weight of the rows under node j) |
| Perturbator.ReduceEval | barretenberg/cpp/src/barretenberg/honk/proof_system/protogalaxy_prover.hpp:65-89 | the root's value at x is that weighted sum over the starting level |
| Perturbator.ReduceTop | barretenberg/cpp/src/barretenberg/honk/proof_system/protogalaxy_prover.hpp:65-89 | the root's top coefficient is the last node's top coefficient times the remaining δ_L |
| Perturbator.ReduceLinear | barretenberg/cpp/src/barretenberg/honk/proof_system/protogalaxy_prover.hpp:65-89 | the reduction of a·n1 + b·n2 is a·(reduction of n1) + b·(reduction of n2) |
| Perturbator.FirstLevelIsNextLevel | barretenberg/cpp/src/barretenberg/honk/proof_system/protogalaxy_prover.hpp:96-102 | the first level is the general level step applied to the row values as constants |
| Perturbator.LeavesSum | barretenberg/cpp/src/barretenberg/honk/proof_system/protogalaxy_prover.hpp:96-102 | the weighted sum over the row values is Σ_i e_i·∏_L (β_L + δ_L x)^{bit_L(i)} |
| Perturbator.PerturbatorClosedForm | barretenberg/cpp/src/barretenberg/honk/proof_system/protogalaxy_prover.hpp:91-104 | the perturbator evaluates to Σ_i e_i·∏_L (β_L + δ_L x)^{bit_L(i)} at every x |
| Perturbator.WeightedSumAtZero | barretenberg/cpp/src/barretenberg/honk/proof_system/protogalaxy_prover.hpp:100 | at x = 0 each row's weight is ∏ of β_L over its set bits |
| Perturbator.PerturbatorConstantCoefficient | barretenberg/cpp/src/barretenberg/honk/proof_system/protogalaxy_prover.hpp:91-104 | the constant coefficient is Σ_i e_i·∏_{bit_L(i)=1} β_L |
| Perturbator.PerturbatorTopCoefficient | barretenberg/cpp/src/barretenberg/honk/proof_system/protogalaxy_prover.hpp:91-104 | the top coefficient is e[n−1]·∏_L δ_L |
| Perturbator.PerturbatorLinear | barretenberg/cpp/src/barretenberg/honk/proof_system/protogalaxy_prover.hpp:91-104 | the perturbator is linear in e |
| Perturbator.PerturbatorOfZero | barretenberg/cpp/src/barretenberg/honk/proof_system/protogalaxy_prover.hpp:91-104 | an all-zero e gives t + 1 zero coefficients |
| Perturbator.PerturbatorOfSingleViolation | barretenberg/cpp/src/barretenberg/honk/proof_system/protogalaxy_prover.hpp:91-104 | e = [1,0,0,0], β = [1,1], δ = [2,2] gives [1,0,0] |
| ProtoGalaxyProver.ComputeRoundChallengePows | barretenberg/cpp/src/barretenberg/honk/proof_system/protogalaxy_prover.hpp:33-41 | t ≥ 1 entries, entry i is δ^{2^i} |
| ProtoGalaxyProver.GetExecutionRow | barretenberg/cpp/src/barretenberg/honk/proof_system/protogalaxy_prover.hpp:43-52 | slot k is column k's entry at the row, for every column |
| ProtoGalaxyProver.RowValues | barretenberg/cpp/src/barretenberg/honk/proof_system/protogalaxy_prover.hpp:113-120 | one relation value per row of the instance |
| ProtoGalaxyProver.ProtoGalaxyProver.constructor | barretenberg/cpp/src/barretenberg/honk/proof_system/protogalaxy_prover.hpp:23-24 | the prover holds the given instances |
| ProtoGalaxyProver.ProtoGalaxyProver.GetAccumulator | barretenberg/cpp/src/barretenberg/honk/proof_system/protogalaxy_prover.hpp:54 | the accumulator is instances[0] |
| ProtoGalaxyProver.CombineInto | barretenberg/cpp/src/barretenberg/honk/proof_system/protogalaxy_prover.hpp:81-86 | the copy and the d loop leave the parent's buffer equal to Combine(even, odd), other parents untouched |
| ProtoGalaxyProver.RepeatedSquareIsPow | barretenberg/cpp/src/barretenberg/honk/proof_system/protogalaxy_prover.hpp:37-39 | squaring δ k times in a row gives δ^{2^k} |
| ProtoGalaxyProver.ComputeLevelNodes | barretenberg/cpp/src/barretenberg/honk/proof_system/protogalaxy_prover.hpp:76-87 | the parent buffer filled pair by pair by copy and the two += updates is one level of the tree (NextLevel) |
| ProtoGalaxyProver.ComputeFirstLevel | barretenberg/cpp/src/barretenberg/honk/proof_system/protogalaxy_prover.hpp:96-102 | the first-level buffer holds e_{2i} + e_{2i+1}·β_0 and e_{2i+1}·δ_0 at node i (FirstLevel) |
| ProtoGalaxyProver.ComputeLevel | barretenberg/cpp/src/barretenberg/honk/proof_system/protogalaxy_prover.hpp:65-89 | the buffers and recursion compute Reduce |
| ProtoGalaxyProver.ConstructPerturbatorCoeffs | barretenberg/cpp/src/barretenberg/honk/proof_system/protogalaxy_prover.hpp:91-104 | the result is the perturbator: \|betas\| + 1 coefficients, the closed form at every x, and the constant and top coefficients above |
| ProtoGalaxyProver.ComputePerturbator | barretenberg/cpp/src/barretenberg/honk/proof_system/protogalaxy_prover.hpp:107-125 | fails on a deltas length ≠ log2(n), then on a betas length ≠ log2(n); otherwise returns the perturbator of the row values |
| RelationTypes.UnivariateAccumulators | barretenberg/cpp/src/barretenberg/proof_system/relations/relation_types.hpp:46-49 | one zero univariate per subrelation, slot i of length lengths[i] |
| RelationTypes.ValueAccumulators | barretenberg/cpp/src/barretenberg/proof_system/relations/relation_types.hpp:50-53 | one zero scalar per subrelation |
| RelationTypes.ValueAccumulatorsCountOnly | barretenberg/cpp/src/barretenberg/proof_system/relations/relation_types.hpp:60-68 | value accumulators depend only on the number of subrelations |
| RelationTypes.AccumulatorFormsAgree | barretenberg/cpp/src/barretenberg/proof_system/relations/relation_types.hpp:58-68 | both forms built from one length list have the same slot count and both start at zero |
| RelationTypes.IsSubrelationLinearlyIndependent | barretenberg/cpp/src/barretenberg/proof_system/relations/relation_types.hpp:84-101 | false exactly when the relation has flags and flag i is false |
| RelationTypes.AllTrueFlagsAsDefault | barretenberg/cpp/src/barretenberg/proof_system/relations/relation_types.hpp:84-101 | all-true flags behave like no flags |
| LookupRelation.GrandProductPolynomial | barretenberg/cpp/src/barretenberg/proof_system/relations/lookup_relation.hpp:37 | the getter selects z_lookup |
| LookupRelation.ShiftedGrandProductPolynomial | barretenberg/cpp/src/barretenberg/proof_system/relations/lookup_relation.hpp:46 | the getter selects z_lookup_shift |
| LookupRelation.LookupShape | barretenberg/cpp/src/barretenberg/proof_system/relations/lookup_relation.hpp:26-29 | two subrelations, lengths 6 and 3, both linearly independent |
| LookupRelation.WireAccum | barretenberg/cpp/src/barretenberg/proof_system/relations/lookup_relation.hpp:97-99 | the compressed query f is the polynomial with coefficients w_1 + q_r·w_1_shift, w_2 + q_m·w_2_shift, w_3 + q_c·w_3_shift and q_o, evaluated at η |
| LookupRelation.TableAccum | barretenberg/cpp/src/barretenberg/proof_system/relations/lookup_relation.hpp:101-102 | the compressed table entry t is the four table columns as a polynomial evaluated at η |
| LookupRelation.TableAccumShift | barretenberg/cpp/src/barretenberg/proof_system/relations/lookup_relation.hpp:103-105 | the compressed shifted table entry is the four shifted table columns as a polynomial evaluated at η |
| LookupRelation.CompressionOfFour | barretenberg/cpp/src/barretenberg/proof_system/relations/lookup_relation.hpp:97-105 | c₀ + c₁η + c₂η² + c₃η³ is Horner's evaluation of [c₀, c₁, c₂, c₃] at η |
| LookupRelation.GrandProductNumerator | barretenberg/cpp/src/barretenberg/proof_system/relations/lookup_relation.hpp:59-111 | with q_lookup = 0 the numerator is γ(1+β)·(t + β·t_shift + γ(1+β)); with q_lookup = 1 it is (1+β)·(f + γ)·((t + γ) + β·(t_shift + γ)) |
| LookupRelation.GrandProductDenominator | barretenberg/cpp/src/barretenberg/proof_system/relations/lookup_relation.hpp:124-143 | the denominator is (s + γ) + β·(s_shift + γ) over sorted_accum and its shift |
| LookupRelation.GrandProductContribution | barretenberg/cpp/src/barretenberg/proof_system/relations/lookup_relation.hpp:181-185 | on an inner row the contribution vanishes exactly when z_shift·den = z·num; on the first row with z = 0, exactly when z_shift·den = num |
| LookupRelation.LeftShiftableContribution | barretenberg/cpp/src/barretenberg/proof_system/relations/lookup_relation.hpp:192-196 | the second contribution is 0 where lagrange_last = 0 and z_lookup_shift where lagrange_last = 1 |
| LookupRelation.NumeratorIgnoresWiresWithoutLookup | barretenberg/cpp/src/barretenberg/proof_system/relations/lookup_relation.hpp:97-110 | with q_lookup = 0 the numerator reads no wire or step-size column |
| LookupRelation.DenominatorReadsOnlySorted | barretenberg/cpp/src/barretenberg/proof_system/relations/lookup_relation.hpp:129-142 | the denominator depends only on sorted_accum, its shift, β and γ |
| LookupRelation.AccumulateValues | barretenberg/cpp/src/barretenberg/proof_system/relations/lookup_relation.hpp:163-198 | one call keeps exactly two slots |
| LookupRelation.Accumulate | barretenberg/cpp/src/barretenberg/proof_system/relations/lookup_relation.hpp:163-198 | slot 0 += (num·(z + L_first) − den·(z_shift + L_last·Δ))·s, slot 1 += L_last·z_shift·s |
| LookupRelation.AccumulateZeroScaling | barretenberg/cpp/src/barretenberg/proof_system/relations/lookup_relation.hpp:186-196 | scaling factor 0 leaves both slots unchanged |
| LookupRelation.AccumulateAwayFromLastRow | barretenberg/cpp/src/barretenberg/proof_system/relations/lookup_relation.hpp:196 | lagrange_last = 0 leaves slot 1 unchanged |
| LookupRelation.AccumulateCommutes | barretenberg/cpp/src/barretenberg/proof_system/relations/lookup_relation.hpp:186-196 | two rows accumulate to the same slots in either order |
| LookupRelation.AccumulateRowsTotal | barretenberg/cpp/src/barretenberg/proof_system/relations/lookup_relation.hpp:186-196 | a run of calls ends at the start slots plus the total of the contributions |
| LookupRelation.TotalRemove | barretenberg/cpp/src/barretenberg/proof_system/relations/lookup_relation.hpp:186-196 | removing one call removes exactly its contribution from the total |
| LookupRelation.TotalPermutation | barretenberg/cpp/src/barretenberg/proof_system/relations/lookup_relation.hpp:186-196 | any rearrangement of the calls has the same total |
| LookupRelation.AccumulateRowsPermutation | barretenberg/cpp/src/barretenberg/proof_system/relations/lookup_relation.hpp:186-196 | accumulating the same calls in any order gives the same slots |
| LookupRelation.PrefixProduct | barretenberg/cpp/src/barretenberg/proof_system/relations/lookup_relation.hpp:184-186 | on a satisfying trace, ∏_{i<k} num_i = z_k·∏_{i<k} den_i |
| LookupRelation.GrandProductCloses | barretenberg/cpp/src/barretenberg/proof_system/relations/lookup_relation.hpp:184-196 | on a trace where both subrelations vanish, ∏ num = Δ·∏ den |
| LookupRelation.LeftShiftableAtLastRow | barretenberg/cpp/src/barretenberg/proof_system/relations/lookup_relation.hpp:196 | on the last row, subrelation 2 vanishes exactly when z_lookup_shift is 0 |
| EccSetRelation.AccumulatorLengths | barretenberg/cpp/src/barretenberg/proof_system/relations/ecc_vm/ecc_set_relation.hpp:24-25 | GetAccumulatorTypes' lengths [LEN_1, LEN_1] are SUBRELATION_LENGTHS |
| EccSetRelation.AccumulatorTypesMatchLengths | barretenberg/cpp/src/barretenberg/proof_system/relations/ecc_vm/ecc_set_relation.hpp:17-25 | LEN_1 = LEN_2, so both accumulator forms have the declared shape, and both subrelations are independent |
| EccSetRelation.GrandProductPolynomial | barretenberg/cpp/src/barretenberg/proof_system/relations/ecc_vm/ecc_set_relation.hpp:37 | the getter selects z_perm |
| EccSetRelation.ShiftedGrandProductPolynomial | barretenberg/cpp/src/barretenberg/proof_system/relations/ecc_vm/ecc_set_relation.hpp:38 | the getter selects z_perm_shift |
| EccSetRelation.WindowValue | barretenberg/cpp/src/barretenberg/proof_system/relations/ecc_vm/ecc_set_relation.hpp:29-31 | doubling twice and adding gives t = 4·s0 + s1 |
| EccSetRelation.ConvertToWnaf | barretenberg/cpp/src/barretenberg/proof_system/relations/ecc_vm/ecc_set_relation.hpp:27-35 | the digit is 8·s0 + 2·s1 − 15 and is odd |
| EccSetRelation.WnafDigitRange | barretenberg/cpp/src/barretenberg/proof_system/relations/ecc_vm/ecc_set_relation.hpp:33 | for 2-bit slices the digit lies in [−15, 15], with (0,0) giving −15 |
| EccSetRelation.WnafRoundTrip | barretenberg/cpp/src/barretenberg/proof_system/relations/ecc_vm/ecc_set_relation.hpp:27-35 | for 2-bit slices the slices are recovered from the digit |
| EccSetRelation.WnafInjective | barretenberg/cpp/src/barretenberg/proof_system/relations/ecc_vm/ecc_set_relation.hpp:27-35 | distinct slice pairs give distinct digits |
| ZeroMorph.GeometricSumClosedForm | barretenberg/cpp/src/barretenberg/honk/pcs/zeromorph/zeromorph.test.cpp:147-151 | (Σ_{i<m} x^i)·(x − 1) = x^m − 1 |
| ZeroMorph.PhiEfficient | barretenberg/cpp/src/barretenberg/honk/pcs/zeromorph/zeromorph.test.cpp:158-167 | Φ_n(x)·(x − 1) = x^{2^n} − 1 |
| ZeroMorph.PhiLiftedEfficient | barretenberg/cpp/src/barretenberg/honk/pcs/zeromorph/zeromorph.test.cpp:169-183 | Φ_{n−k−1}(x^{2^{k+1}})·(x^{2^{k+1}} − 1) = x^{2^n} − 1 for k < n |
| ZeroMorph.Phi | barretenberg/cpp/src/barretenberg/honk/pcs/zeromorph/zeromorph.test.cpp:17-25 | the loop sums x^i for i < 2^k, and the sum times (x − 1) is x^{2^k} − 1 |
| ZeroMorph.AddScaledInPlace | barretenberg/cpp/src/barretenberg/honk/pcs/zeromorph/zeromorph.test.cpp:102-103 | the buffer becomes buffer + s·q |
| ZeroMorph.Lift | barretenberg/cpp/src/barretenberg/honk/pcs/zeromorph/zeromorph.test.cpp:96-100 | q's coefficients sit at N−\|q\| … N−1 with zeros below |
| ZeroMorph.LiftEval | barretenberg/cpp/src/barretenberg/honk/pcs/zeromorph/zeromorph.test.cpp:96-100 | the lifted q at x is x^{N−\|q\|}·q(x) |
| ZeroMorph.Batched | barretenberg/cpp/src/barretenberg/honk/pcs/zeromorph/zeromorph.test.cpp:97-103 | the batched quotient has N coefficients |
| ZeroMorph.BatchedEval | barretenberg/cpp/src/barretenberg/honk/pcs/zeromorph/zeromorph.test.cpp:96-105 | q̂(x) = Σ_k y^k·x^{N−2^k}·q_k(x) |
| ZeroMorph.BatchedLiftedDegreeQuotient | barretenberg/cpp/src/barretenberg/honk/pcs/zeromorph/zeromorph.test.cpp:96-105 | the buffer built with add_scaled is Σ_k y^k·lift(q_k), with that value at every x |
| ZeroMorph.ZetaX | barretenberg/cpp/src/barretenberg/honk/pcs/zeromorph/zeromorph.test.cpp:136-142 | ζ_x keeps the batched quotient's N coefficients |
| ZeroMorph.ZetaXEval | barretenberg/cpp/src/barretenberg/honk/pcs/zeromorph/zeromorph.test.cpp:136-144 | ζ_x(x) = q̂(x) − Σ_k y^k·x^{N−2^k}·q_k(x) |
| ZeroMorph.ZetaXVanishesAtX | barretenberg/cpp/src/barretenberg/honk/pcs/zeromorph/zeromorph.test.cpp:129-144 | for the batched lifted quotient, ζ_x(x) = 0 |
| ZeroMorph.PartiallyEvaluatedQuotientZeta | barretenberg/cpp/src/barretenberg/honk/pcs/zeromorph/zeromorph.test.cpp:136-144 | the buffer built with add_scaled is ζ_x, with the value above at x |
| ZeroMorph.ZScalarEfficient | barretenberg/cpp/src/barretenberg/honk/pcs/zeromorph/zeromorph.test.cpp:221-224 | scalar_k·(x^{2^{k+1}} − 1) = (x^N − 1)·(x^{2^k} − u_k·(x^{2^k} + 1)) |
| ZeroMorph.SubtractConstant | barretenberg/cpp/src/barretenberg/honk/pcs/zeromorph/zeromorph.test.cpp:218-219 | only the constant coefficient changes, by −v |
| ZeroMorph.ZX | barretenberg/cpp/src/barretenberg/honk/pcs/zeromorph/zeromorph.test.cpp:217-226 | Z_x has as many coefficients as f |
| ZeroMorph.QuotientScalar | barretenberg/cpp/src/barretenberg/honk/pcs/zeromorph/zeromorph.test.cpp:222-224 | the scalar computed from the powers x^{2^k}, x^{2^{k+1}} and two Φ values is scalar_k |
| ZeroMorph.SubtractConstantEval | barretenberg/cpp/src/barretenberg/honk/pcs/zeromorph/zeromorph.test.cpp:218-219 | subtracting v from the constant coefficient lowers the evaluation at every x by v |
| ZeroMorph.SubtractScaledQuotients | barretenberg/cpp/src/barretenberg/honk/pcs/zeromorph/zeromorph.test.cpp:220-226 | after the loop the buffer is f − v − Σ_k scalar_k·q_k, coefficient by coefficient |
| ZeroMorph.ZXEval | barretenberg/cpp/src/barretenberg/honk/pcs/zeromorph/zeromorph.test.cpp:217-228 | Z_x(x) = f(x) − v − Σ_k scalar_k·q_k(x) |
| ZeroMorph.PartiallyEvaluatedQuotientZ | barretenberg/cpp/src/barretenberg/honk/pcs/zeromorph/zeromorph.test.cpp:217-228 | the buffer built with −= and add_scaled, each Φ computed by the direct loop, is Z_x, with the value above at x |

## Left out

- Field arithmetic modulo the prime is not modelled. Integers stand in for field elements. Every identity stated outside `EccSetRelation` is a ring identity. The wNAF range, parity and round-trip facts of `EccSetRelation` are integer facts about 2-bit slices; they do not hold for arbitrary elements modulo the prime.
- The Univariate and UnivariateView types are library code whose bodies are not shown. The lookup relation is therefore modelled in the verifier's scalar form only. `RelationTypes.AccumulatorFormsAgree` states only that the two forms built from one length list have the same slot count and both start at zero.
- The pedersen hash headers hold declarations only.
- `prepare_for_folding`, `fold_instances` and `compute_full_honk_relation_row_value` have no bodies. The row evaluator is a function parameter of `ComputePerturbator`.
- The transcript member of the prover is not modelled.
- `info(...)` logging in `compute_perturbator` is not modelled.
- `ProtoGalaxyProver.ComputePerturbator`:
  - It requires the instance size to be a power of two, at least 2, whenever both challenge lengths equal log2 of the size. For other sizes the source indexes past the end of its buffers.
  - The source's `assert`s are modelled as `Failure` results, in the source's order.
  - Those `assert`s are compiled out when NDEBUG is defined. The model does not capture such a build: there a deltas vector longer than log2 of the size is accepted, and only its first log2 entries are read.
- `ProtoGalaxyProver.ConstructPerturbatorCoeffs` requires 2^|betas| row values. For any larger multiple of that count the source returns the root of the first subtree only. `compute_perturbator` never passes such a count.
- The instances are shared pointers in the source. The model holds them as values, so aliasing between the prover and other owners is not modelled.
- The ECCVM set relation's `compute_permutation_numerator`, `compute_permutation_denominator` and `accumulate` are declared without bodies.
- The ZeroMorph prover functions and commitments are not part of this model, and neither are the QuotientConstruction test (its assertion is disabled) and the Single test (it asserts a constant). The model states the expected values the other tests compute. It does not state that the prover produces them.
- `ZeroMorph.Phi`: the test computes 2^k as `1 << k` on an `int`, which overflows once k ≥ 31 (zeromorph.test.cpp:19, 162, 176, 221-222). The model's `Pow2` is unbounded, so it does not capture that overflow; the tests use N = 8.
- `random_polynomial`, `random_evaluation_point` and `evaluate_mle` are test and library helpers whose bodies are not shown.
- The source contains no concurrency. The model makes no performance or memory claims.
