# Verification of the Halo2/KZG verifier

This project models the parts of the repository whose correctness is algebra, byte formats and state
machines, and proves what they promise. `dafny verify dfyconfig.toml` checks all of it.

- **Scalar arithmetic** (`HalfLimbs`, `Montgomery`, `ScalarField*`): CIOS Montgomery multiplication on
  eight 32-bit half-limbs with explicit wrapping 64-bit operations, the byte codec, reduction modulo the
  order and exponentiation. The limb operations are shown to be those of a field.
- **Fields and polynomials** (`Fields`, `Polynomials`, `Interpolation`, `Vanishing`, `LinearProducts`): an
  abstract prime field, coefficient lists, the factor theorem, interpolation in its direct and its cached form, and
  batch inversion.
- **Multi-opening** (`Kzg`, `Grouping`, `Gwc`, `GwcOpening`, `RotationSets`, `Shplonk`, `ShplonkOpening`,
  `ShplonkSoundness`): the batched checks of eprint 2019/953 (section 3) and eprint 2020/081 (section 4). A G1 point is its discrete
  logarithm, so a pairing product is a field sum.
- **PLONK algebra** (`PowersOfTwo`, `Domain`, `Lagrange`, `Plonk`, `Queries`, `QueryOrder`,
  `HonestQueries`, `WitnessCount`, `Verifier`, `ExpressionOrder`, `Permutation`, `PermutationArgument`,
  `CopyConstraints`): the evaluation domain, Lagrange evaluations, instance columns, the query list, the
  witness count, the quotient check, the copy-constraint argument, and what an accepted opening says about
  every field of the proof.
- **Merkle trees** (`MerkleTree`, `OnChainImt`, `OffChainImt`, `ImtRefinement`): the incremental tree,
  the rebuilt tree, inclusion proofs and the in-circuit fold over an uninterpreted two-to-one hash.
- **Gate bytecode** (`Expression`, `ExpressionLanguage`, `ExpressionEncoder`): compiler and evaluator.
- **Wire formats** (`Bytes`, `Formats`, `VkFormat`, `VkCodec`, `ProofFormat`, `ProofWriter`,
  `ProofScript`, `ProofReader`, `ProofParsers`, `ProofNoFs`, `ProofAgreement`, `ProofShape`,
  `ChallengePlaces`, `Transcript`): the verifying key, the proof, its writer and its two parsers, the sizes of
  what they accept, the place of every challenge, and the Fiat-Shamir transcripts over an uninterpreted digest.

Conventions. Generic code is verified over a record of field operations (`Fields.Field`) whose laws are
hypotheses (`Valid`, `Canonical`); `ScalarFieldLaws.ScalarsAreAField` and `ScalarsAreCanonical` show that
the limb representation satisfies them when the modulus is prime, and primality of the modulus is the one
arithmetic fact taken as a hypothesis (`IsPrime(MODULUS)`). Code that updates state in the repository is
imperative here: arrays updated in place for limbs, interpolation and batch inversion, classes for the
two trees, the reader and the transcripts. Error messages are dropped; error kinds are kept.

Where the code and its own comments differ, the code is followed: `permutation.rs` supports fixed and
instance columns although its header says advice only; the proof carries two, not three, evaluations for
the last permutation chunk although the reader's header lists three per chunk; `verifier.rs` evaluates any
gate although its header says one hard-coded gate. The two proof parsers test the single-phase case with
different conditions; they agree for every key the parser of verifying keys returns, which is how
`ProofAgreement.ParseBothWays` states it.

Where a promise does not hold for every input, the exact condition is proved beside an input that breaks
it:

- The reader's witness count is the number of point groups if and only if, for x != 0, the last row is
  counted as it is opened, and, for x = 0, there is one rotation (`WitnessCount.WitnessCountAgrees`). It
  fails for x = 0 with two rotations (`ZeroChallengeMiscounts`), and for a key with more blinding factors
  than rows, where the verifier opens row 0 while the reader counts row -(b+1) (`SaturatedMiscounts`). With
  b+1 rows on the domain it always holds (`LastRowOnDomain`).
- The array tree holds the abstract tree if and only if no inner node equals the marker 1, unless the zero
  value of its level does too (`OffChainImt.ArrayIsTreeIff`); `ImtRefinement.SentinelMatters` gives a hash
  and a leaf for which the two roots differ.
- A Merkle proof of full length with bit sides is accepted if and only if it is the honest one or contains
  a collision of the hash (`MerkleTree.ProofsAreBinding`); nothing is assumed of the hash.
- A phase table the compiler writes is read back if and only if no phase is 255, and rejected otherwise
  (`VkCodec.CompiledPhasesAccepted`, `PhaseOutOfReach`). The phases come from the Halo2 constraint system,
  which is not part of this model; the gates of the vendored halo2-base only declare phases 0 to 2
  (`vendor/halo2-base/src/gates/flex_gate/mod.rs:65-69`), so no circuit built from them reaches that value.

## Model

| member | source | states |
|---|---|---|
| HalfLimbs.MulAddDoesNotWrap | crates/verifier/src/field.rs:106-113 | with 32-bit operands the wrapping product, sum and carry never wrap: the bound the comment relies on |
| HalfLimbs.SplitIntoHalfLimbs | crates/verifier/src/field.rs:65-74 | eight digits below 2^32 with the same value as the four limbs |
| HalfLimbs.Ge | crates/verifier/src/field.rs:79-91 | true exactly when the value of the left limbs is at least that of the right |
| HalfLimbs.SubAssign | crates/verifier/src/field.rs:94-104 | the array afterwards holds the difference of the values modulo 2^256 |
| Montgomery.QuotientDigitClears | crates/verifier/src/field.rs:134-136 | the digit m makes the lowest half-limb of t + m*p zero modulo 2^32 |
| Montgomery.AddRow | crates/verifier/src/field.rs:124-129 | t plus carry times 2^256 becomes t + a_i*b, every digit below 2^32, nothing wrapping |
| Montgomery.ReduceRow | crates/verifier/src/field.rs:134-143 | t becomes the upper digits of t + m*p, the dropped digit being zero, nothing wrapping |
| Montgomery.OuterIteration | crates/verifier/src/field.rs:122-147 | one CIOS iteration: 2^32 * T_new = T + a_i*b + m*p for the accumulator T including its top digits |
| Montgomery.Finish | crates/verifier/src/field.rs:149-159 | the conditional subtraction returns T or T - p, below p whenever T < 2p |
| Montgomery.MontMul | crates/verifier/src/field.rs:114-159 | for ANY two operands, out*2^256 is congruent to left*right modulo p; out < p whenever right <= p (out < p or out < right in general); after each of the eight iterations T < right + p |
| ScalarField.LimbsFromBe | crates/verifier/src/field.rs:162-173 | the limbs have the value of the 32 big-endian bytes |
| ScalarField.IsStrictlyLess | crates/verifier/src/field.rs:298-307 | byte comparison decides the order of the values |
| ScalarField.DecodedBytesEncodeBack | crates/verifier/src/field.rs:182-209 | exactly the strings below p decode, and encoding the element gives the string back |
| ScalarField.EncodedElementDecodesBack | crates/verifier/src/field.rs:182-209 | every element encodes to a string that decodes to it |
| Bytes.ByteOrders | crates/verifier/src/field.rs:162-209 | the i-th digit to base 256 is the last byte but i of the big-endian form and byte i of the little-endian one |
| ScalarFieldOps.FrMul | crates/verifier/src/field.rs:224-226 | the product of the residues, as a reduced element |
| ScalarFieldOps.FrSquare | crates/verifier/src/field.rs:229-231 | the square of the residue |
| ScalarFieldOps.FrFromReducedLimbs | crates/verifier/src/field.rs:176-178 | the element whose residue is the value of the limbs |
| ScalarFieldOps.FrFromBytesBe | crates/verifier/src/field.rs:182-187 | decodes exactly the strings below p, with the out-of-range error otherwise |
| ScalarFieldOps.FrFromBytesBeModOrder | crates/verifier/src/field.rs:190-196 | for every 32-byte string the element of v mod p, with at most five subtractions |
| ScalarFieldOps.FrToBytesBe | crates/verifier/src/field.rs:199-209 | the 32 big-endian bytes of the residue |
| ScalarFieldOps.FrPowU64 | crates/verifier/src/field.rs:233-246 | base^e for every 64-bit e, against repeated multiplication |
| ScalarFieldLaws.ScalarsAreAField | crates/verifier/src/field.rs:224-246 | given that p is prime, the limb operations satisfy every field law the algebra uses |
| ScalarFieldLaws.ScalarsAreCanonical | crates/verifier/src/field.rs:199-209 | every element has exactly one representative below p |
| ScalarFieldLaws.FieldPower | crates/verifier/src/field.rs:233-246 | the powers of the limb field are the powers of residues |
| ScalarFieldCodec.ScalarsAreEncodable | crates/verifier/src/field.rs:176-209 | the limb field is a canonical field whose elements fit in 32 bytes, so the wire-format theorems apply to it |
| ScalarFieldCodec.CodecsAgree | crates/verifier/src/field.rs:182-209 | scalars in proofs, keys and bytecode are read and written by the same codec |
| Polynomials.Division | crates/verifier/src/kzg/shplonk.rs:86-92 | evaluation form of division by (X - r): c(x) = c(r) + (x - r) q(x) |
| Polynomials.TooManyRoots | crates/verifier/src/kzg/shplonk.rs:86-92 | a coefficient list with as many distinct roots as coefficients is zero |
| Polynomials.InterpolationUnique | crates/verifier/src/kzg/shplonk.rs:86-92 | two lists of the same length agreeing at that many distinct points are equal |
| Interpolation.MultiplyByLinear | crates/verifier/src/kzg/shplonk.rs:119-130 | in place, the coefficients of num times (X - x_i) |
| Interpolation.BuildNumerator | crates/verifier/src/kzg/shplonk.rs:111-131 | coefficients of the product of (X - x_i) over the other points |
| Interpolation.BuildDenominator | crates/verifier/src/kzg/shplonk.rs:133-146 | the product of the differences, refused exactly when a point repeats |
| Interpolation.LagrangeInterpolate | crates/verifier/src/kzg/shplonk.rs:100-156 | refused exactly for unequal lengths or repeated points; otherwise the interpolant |
| Interpolation.EvalPartial | crates/verifier/src/kzg/shplonk.rs:100-156 | the interpolant takes the given value at every point |
| Interpolation.InterpolantExact | crates/verifier/src/kzg/shplonk.rs:100-156 | for values f(p_i) with deg f < n the interpolant is exactly the coefficient list of f |
| Interpolation.LagrangeBasisCompute | crates/verifier/src/kzg/shplonk.rs:170-214 | refused exactly for repeated points; otherwise numerators and non-zero denominators of the basis |
| Interpolation.InterpolateWithBasis | crates/verifier/src/kzg/shplonk.rs:220-234 | with inverted denominators, the same interpolant as the slow form |
| Interpolation.BatchInverse | crates/verifier/src/kzg/shplonk.rs:245-286 | every element replaced by its inverse in place; with a zero element, an error and the array unchanged |
| Grouping.GroupsPartition | crates/verifier/src/kzg/gwc.rs:26-39 | the groups of a list by a key are together a permutation of the list |
| Kzg.MsmG1 | crates/verifier/src/kzg/shplonk.rs:467-481 | the sum of scalar*point; skipping zero scalars and identity points changes nothing |
| Kzg.NegG1 | crates/verifier/src/kzg/shplonk.rs:486-512 | the negative, the identity being its own |
| Gwc.GroupByPoint | crates/verifier/src/kzg/gwc.rs:26-39 | one group per distinct point in order of first appearance, holding its queries in order |
| Gwc.GroupingIsPartition | crates/verifier/src/kzg/gwc.rs:26-39 | the groups hold every query exactly once and have pairwise distinct points |
| Gwc.AddGroup | crates/verifier/src/kzg/gwc.rs:76-88 | one group adds its commitments and values batched with powers of v, scaled by the group factor; which value goes with which commitment is fixed by GwcOpening.HonestOpeningsPass and PassingChecksForceClaims |
| Gwc.VerifyOpening | crates/verifier/src/kzg/gwc.rs:47-95 | refused exactly for an empty list or a witness count other than the number of points; otherwise the two batched sides |
| Gwc.BatchedEquation | crates/verifier/src/kzg/gwc.rs:58-95 | tau*left - right = sum_i u^i D_i with D_i = (tau - z_i) W_i - sum_j v^j (C_ij - e_ij) |
| Gwc.HonestWitnessesPass | crates/verifier/src/kzg/gwc.rs:58-95 | witnesses with every D_i zero satisfy the pairing equation for every u |
| Gwc.PassingManyChallengesIsSound | crates/verifier/src/kzg/gwc.rs:58-95 | if the equation holds at as many distinct u as there are groups, every D_i is zero |
| Gwc.TwoClaims | crates/verifier/src/kzg/gwc.rs:76-88 | of two queries at one point the second commitment and the second value carry v |
| GwcOpening.HonestOpeningsPass | crates/verifier/src/kzg/gwc.rs:58-95 | completeness: if every commitment is its polynomial at tau, every claim its value at the query point and every witness commits to the quotient of the batched polynomial by X - z_i, the pairing equation holds for all v and u |
| GwcOpening.NoDefect | crates/verifier/src/kzg/gwc.rs:58-95 | for one v and tau, passing at as many u as there are groups leaves no defect |
| GwcOpening.PassingChecksForceClaims | crates/verifier/src/kzg/gwc.rs:47-95 | soundness: with witness polynomials chosen after v, passing at as many v as the largest group has queries, as many u as groups and more tau than the degree forces every claimed value to be the value of the committed polynomial |
| RotationSets.SuperPointSet | crates/verifier/src/kzg/shplonk.rs:321-326 | the distinct query points in order of first appearance |
| RotationSets.CollectSlots | crates/verifier/src/kzg/shplonk.rs:338-356 | one entry per commitment id with its distinct points and the first value claimed at each |
| RotationSets.EvalsInPointOrder | crates/verifier/src/kzg/shplonk.rs:361-371 | the values in the order of the points |
| RotationSets.ConstructIntermediateSets | crates/verifier/src/kzg/shplonk.rs:319-388 | the rotation sets of the queries: slots grouped by their point list |
| RotationSets.SetsPartitionSlots | crates/verifier/src/kzg/shplonk.rs:319-388 | every commitment id lands in exactly one set exactly once; point lists are duplicate-free parts of the duplicate-free super set |
| RotationSets.SetPoints | crates/verifier/src/kzg/shplonk.rs:358-382 | each set has distinct points from the super set, and each member has one value per point |
| RotationSets.ClaimsSurviveIffConsistent | crates/verifier/src/kzg/shplonk.rs:319-388 | every claim of every query is represented exactly when an id determines its commitment and its value at a point |
| Vanishing.VanishZero | crates/verifier/src/kzg/shplonk.rs:77-83 | the vanishing product is zero exactly at its points |
| Vanishing.VanishSplit | crates/verifier/src/kzg/shplonk.rs:430-454 | the super set product is the product over a subset times the product over the rest |
| Vanishing.ExactDivision | crates/verifier/src/kzg/shplonk.rs:430-454 | a polynomial vanishing on distinct points is its iterated quotient times their vanishing product |
| Shplonk.Powers | crates/verifier/src/kzg/shplonk.rs:66-74 | the powers of x from exponent zero |
| Shplonk.EvaluateVanishingPolynomial | crates/verifier/src/kzg/shplonk.rs:77-83 | the product of (x - p) over the points |
| Shplonk.EvalPolynomial | crates/verifier/src/kzg/shplonk.rs:86-92 | the value of the coefficient list at x |
| Shplonk.ComputeZDiffI | crates/verifier/src/kzg/shplonk.rs:430-454 | the normalised complement factor; refused exactly for set 0 with a vanishing complement |
| Shplonk.ZDiffNormalises | crates/verifier/src/kzg/shplonk.rs:430-454 | z_diff_k times the vanishing product of set k is the vanishing product of set 0, for every k |
| Shplonk.ProcessRotationSetWithBasis | crates/verifier/src/kzg/shplonk.rs:626-645 | one set adds its commitments, and returns its interpolated claims at u, both batched with y |
| Shplonk.InvertBases | crates/verifier/src/kzg/shplonk.rs:558-572 | the bases of all sets with every denominator inverted by one batch |
| Shplonk.ProcessSets | crates/verifier/src/kzg/shplonk.rs:574-602 | the second pass: terms minus claims are the set terms batched with v |
| Shplonk.BuildShplonkMsmTerms | crates/verifier/src/kzg/shplonk.rs:531-619 | refused exactly for no queries or a u in the super set outside the first set; otherwise the terms sum to the outer combination |
| Shplonk.TwoMembers | crates/verifier/src/kzg/shplonk.rs:626-645 | in a set of two commitments the second commitment and its interpolant carry y |
| Shplonk.FinalizeShplonkPairs | crates/verifier/src/kzg/shplonk.rs:654-665 | the two G1 sides of the final pairing |
| Shplonk.VerifyOpening | crates/verifier/src/kzg/shplonk.rs:406-421 | refusal condition and pairing sides of the whole check |
| ShplonkOpening.QuotientIdentity | crates/verifier/src/kzg/shplonk.rs:626-645 | f_kj - r_kj is the exact quotient times the vanishing product of set k |
| ShplonkOpening.LinearisationVanishes | crates/verifier/src/kzg/shplonk.rs:531-619 | for honest polynomials the linearisation L is zero at u |
| ShplonkOpening.TermsSumToLinearisation | crates/verifier/src/kzg/shplonk.rs:531-619 | with any polynomial h committed in h1 and commitments to polynomials, true or false claims, the outer combination is L(tau) + u*h2 |
| ShplonkOpening.CheckPassesIffQuotient | crates/verifier/src/kzg/shplonk.rs:406-421 | for commitments to polynomials, true or false claims and any committed h, the pairing equation holds if and only if (tau - u)*h2 = L(tau) |
| ShplonkOpening.HonestProofAccepted | crates/verifier/src/kzg/shplonk.rs:406-421 | completeness: for every query list and all challenges not refused, the honest h1, h2 pass |
| ShplonkSoundness.ClearedAtU | crates/verifier/src/kzg/shplonk.rs:531-619 | the linearisation at u times a non-zero factor is the value at u of a polynomial that does not depend on u |
| ShplonkSoundness.PassingManyTausVanishes | crates/verifier/src/kzg/shplonk.rs:406-421 | if (tau - u)*w(tau) = L(tau) at more tau than the degrees allow, L vanishes at u |
| ShplonkSoundness.PassingManyChallengesIsSound | crates/verifier/src/kzg/shplonk.rs:531-619 | if for as many y as members, as many v as sets and more u than the degrees allow the linearisation of some quotient (chosen after y and v) vanishes, every claim of every set is true of the committed polynomials |
| ShplonkSoundness.EveryQueryHolds | crates/verifier/src/kzg/shplonk.rs:319-388 | for a consistent query list this is the claim of every query |
| Domain.PointsDistinct | crates/verifier/src/plonk/lagrange.rs:3-18 | the powers of an element of exact order n are n distinct points |
| Domain.NumeratorIsQuotient | crates/verifier/src/plonk/lagrange.rs:6-10 | the numerator of the j-th basis polynomial over the domain is (X^n - 1)/(X - w^j) |
| Domain.DenominatorValue | crates/verifier/src/plonk/lagrange.rs:6-10 | its value at w^j times w^j is n, and n is not zero in the field |
| Domain.BasisClosedForm | crates/verifier/src/plonk/lagrange.rs:6-10 | L_j(x) = w^j (x^n - 1) / (n (x - w^j)) off the point |
| Lagrange.PowU64 | crates/verifier/src/field.rs:233-246 | square-and-multiply over an abstract field is exponentiation |
| Lagrange.LagrangeBasisAt | crates/verifier/src/plonk/lagrange.rs:113-134 | L_i(x) for any integer index; refused exactly when x = w^i |
| Lagrange.RotatedBasis | crates/verifier/src/plonk/lagrange.rs:148-184 | querying row j - r at x is querying row j at the rotated point |
| Lagrange.WeightedSumInterpolates | crates/verifier/src/plonk/lagrange.rs:148-184 | the sum of values times basis values is the value of the zero-padded interpolant |
| Lagrange.ReconstructInstanceEvals | crates/verifier/src/plonk/lagrange.rs:148-184 | one value per query, refused exactly for a missing column or a challenge that hits a queried row |
| Lagrange.EvaluationIsPolynomialValue | crates/verifier/src/plonk/lagrange.rs:148-184 | each output is the column polynomial of degree < n evaluated at w^rotation * x |
| Lagrange.AccumulateBlindedLagrange | crates/verifier/src/plonk/lagrange.rs:93-108 | the sum of L_{-1}..L_{-b} and w^{-b}; refused exactly when x is one of those rows |
| Lagrange.EvaluateLagrange | crates/verifier/src/plonk/lagrange.rs:44-86 | l_0, l_last = L_{-(b+1)}, l_blind and x^n; refused exactly when x is one of those rows |
| Lagrange.BasisSumsToOne | crates/verifier/src/plonk/lagrange.rs:44-86 | the basis polynomials of all rows sum to one everywhere |
| Lagrange.BasisIsIndicator | crates/verifier/src/plonk/lagrange.rs:44-86 | on the domain L_j is one at row j and zero elsewhere |
| Queries.AllocateIds | crates/verifier/src/plonk/verifier.rs:184-222 | consecutive slot numbers |
| Queries.RotatePoint | crates/verifier/src/plonk/verifier.rs:406-415 | x times w to the wrapped exponent; x*w^rotation when w has order n |
| Queries.ExponentIsRotation | crates/verifier/src/plonk/verifier.rs:406-415 | the wrapped non-negative exponent stands for the signed rotation |
| Queries.ColumnQueries | crates/verifier/src/plonk/verifier.rs:226-242 | one query per table entry, refused exactly for a column or evaluation that does not exist |
| Queries.PermutationQueries | crates/verifier/src/plonk/verifier.rs:243-275 | each product at x and w*x, then all but the last at the last usable row, last first; which value is claimed where is fixed by QueryOrder.QueryPositions and HonestQueries.QueriesTrueIffFieldsHonest |
| Queries.LookupQueries | crates/verifier/src/plonk/verifier.rs:276-329 | five queries per lookup in order |
| Queries.ShuffleQueries | crates/verifier/src/plonk/verifier.rs:330-355 | two queries per shuffle |
| Queries.CommonQueries | crates/verifier/src/plonk/verifier.rs:373-385 | one query per permutation column |
| Queries.BuildQueries | crates/verifier/src/plonk/verifier.rs:163-401 | built exactly when the proof fits the key; the list is the openings in order, each with the commitment of its slot |
| QueryOrder.QueryPositions | crates/verifier/src/plonk/verifier.rs:163-401 | every query by its place in the list: which commitment of the proof or key it opens, at which point, to which field of the proof |
| HonestQueries.QueriesTrueIffFieldsHonest | crates/verifier/src/plonk/verifier.rs:163-401 | every built query is true of its slot's polynomial if and only if every evaluation field is the value of its polynomial: columns at their rotations, products at x, w*x and the last row, lookup product at x and w*x, permuted input at x and x/w, table at x, shuffles at x and w*x, common and random at x |
| HonestQueries.QueriesCommitted | crates/verifier/src/plonk/verifier.rs:184-222 | with honest commitment fields every query carries the commitment of its own polynomial |
| Verifier.BuiltQueriesConsistent | crates/verifier/src/plonk/verifier.rs:184-222 | the slot number alone determines the commitment, so consistency only depends on the claimed values |
| WitnessCount.NormalizeRotation | crates/verifier/src/plonk/proof_reader.rs:633-643 | the rotation modulo n |
| WitnessCount.PushRotation | crates/verifier/src/plonk/proof_reader.rs:644-647 | the list stays the distinct residues in order of first appearance |
| WitnessCount.ExpectedGwcWitnessCount | crates/verifier/src/plonk/proof_reader.rs:630-678 | the number of distinct rotations modulo n the key announces, the last row in wrapping 32-bit arithmetic |
| WitnessCount.OpeningsVisit | crates/verifier/src/plonk/verifier.rs:163-401 | the built queries visit exactly the rotations of the key, the last row where its saturated exponent puts it |
| WitnessCount.PointsAreRotations | crates/verifier/src/plonk/proof_reader.rs:627-630 | for x != 0 there are as many distinct points as distinct rotations modulo n |
| WitnessCount.WitnessCountAgrees | crates/verifier/src/plonk/proof_reader.rs:630-678 | the expected witness count is the number of point groups of the queries that are then built, if and only if the last row is counted as it is opened (x != 0) or there is a single rotation (x = 0) |
| WitnessCount.LastRowOnDomain | crates/verifier/src/plonk/proof_reader.rs:630-678 | with blinding_factors + 1 <= 2^k the last row is counted as it is opened, so the counts agree for every x != 0 |
| WitnessCount.ZeroChallengeHasOnePoint | crates/verifier/src/plonk/proof_reader.rs:627-630 | at x = 0 all points coincide |
| WitnessCount.ZeroChallengeMiscounts | crates/verifier/src/plonk/proof_reader.rs:627-630 | a key and a fitting proof for which, at x = 0, two witnesses are expected and one point is found |
| WitnessCount.SaturatedMiscounts | crates/verifier/src/plonk/verifier.rs:451-453 | a key with more blinding factors than rows and a fitting proof whose counts differ for every x != 0 |
| WitnessCount.OmegaLast | crates/verifier/src/plonk/verifier.rs:451-453 | w to the saturated exponent: rotation -(b+1), and one under saturation |
| Verifier.AggregateHCommitment | crates/verifier/src/plonk/verifier.rs:127-150 | the pieces combined with powers of x^n, refused exactly for none |
| Verifier.FoldExpressions | crates/verifier/src/plonk/verifier.rs:110-113 | the expressions as coefficients in y, the first with the highest power |
| Verifier.ExpectedHEval | crates/verifier/src/plonk/verifier.rs:110-124 | times (x^n - 1) it is the folded expressions; refused exactly when x^n = 1 |
| Verifier.QuotientCheck | crates/verifier/src/plonk/verifier.rs:64-124 | the expected value is the recombined pieces if and only if the folded expressions are them times (x^n - 1) |
| Verifier.FoldVanishesOnlyWithAll | crates/verifier/src/plonk/verifier.rs:110-113 | the fold is zero at as many y as there are expressions if and only if every expression is zero |
| Verifier.InstanceColumns | crates/verifier/src/plonk/verifier.rs:426-439 | the public inputs as the first instance column; refused exactly for an input out of range when there are instance columns |
| Verifier.EvaluateGates | crates/verifier/src/plonk/verifier.rs:39-59 | the values of all gate polynomials in order, or the first error |
| Verifier.ComputeExpectedHEval | crates/verifier/src/plonk/verifier.rs:69-124 | refused exactly when an expression is or x^n = 1; otherwise times (x^n - 1) it is the folded list of gate, permutation, lookup and shuffle expressions |
| Verifier.QuotientDetermined | crates/verifier/src/plonk/verifier.rs:110-124 | the quotient value is the only one whose product with x^n - 1 is the folded expressions |
| Verifier.PrepareOpeningQueries | crates/verifier/src/plonk/verifier.rs:418-464 | refused exactly when x hits a special row, an input, instance query or expression is refused, x^n = 1, there are no pieces, or the proof does not fit; otherwise the query list with the recombined pieces and the quotient value |
| Verifier.VerifyGwc | crates/verifier/src/plonk/verifier.rs:564-577 | the pairing is reached exactly when the queries are prepared and there are as many witnesses as points; its two sides are then the batched ones of the groups of the prepared queries |
| Verifier.ExpectedCountReachesPairing | crates/verifier/src/plonk/verifier.rs:564-577 | for a shaped proof and x != 0 the prepared queries have as many points as the reader expects witnesses, if and only if the last row is counted as it is opened |
| Verifier.VerifyShplonk | crates/verifier/src/plonk/verifier.rs:467-561 | refused exactly when the queries are or u is a query point outside the first set; otherwise the two pairing sides of the SHPLONK check |
| HonestQueries.PreparedTrueIff | crates/verifier/src/plonk/verifier.rs:418-464 | the verifier's own query list is true if and only if the evaluation fields are honest and the folded expressions are the recombined quotient times x^n - 1 at x |
| HonestQueries.HonestGwcProofPasses | crates/verifier/src/plonk/verifier.rs:564-577 | completeness of the GWC verifier: an honest proof with honest witnesses satisfies the pairing equation VerifyGwc returns |
| HonestQueries.HonestShplonkProofPasses | crates/verifier/src/plonk/verifier.rs:467-561 | completeness of the SHPLONK verifier, for a u that is not refused |
| HonestQueries.PassingGwcForcesFields | crates/verifier/src/plonk/verifier.rs:564-577 | soundness: passing for enough v, u and tau forces every evaluation field to be honest and the vanishing argument to hold at x |
| HonestQueries.PassingShplonkForcesFields | crates/verifier/src/plonk/verifier.rs:467-561 | the same for SHPLONK, when no slot is claimed to have two values at one point |
| ExpressionOrder.FoldAppends | crates/verifier/src/plonk/verifier.rs:110-113 | one more expression multiplies the earlier ones by y |
| ExpressionOrder.ExpressionsFold | crates/verifier/src/plonk/verifier.rs:77-113 | the fold is (G y^p + P) y^o + O: gates, then permutation, then lookups and shuffles |
| ExpressionOrder.GateValueAt | crates/verifier/src/plonk/verifier.rs:52-58 | the i-th gate value is that of the i-th gate polynomial |
| ExpressionOrder.QueryValues | crates/verifier/src/plonk/expression.rs:82-110 | a gate's column queries read the evaluations of the proof and the public inputs, its challenges the user challenges |
| ExpressionOrder.InputsFillFirstColumn | crates/verifier/src/plonk/verifier.rs:426-439 | the decoded inputs fill the first instance column in order, the other columns are empty |
| Permutation.LookupColumnEval | crates/verifier/src/plonk/permutation.rs:178-195 | tag 0 is the advice, 1 the fixed, 2 the instance evaluation at the index; refused exactly for another tag or an index out of range |
| Permutation.LeftProduct | crates/verifier/src/plonk/permutation.rs:144-155 | z times the product of (v + beta*sigma + gamma), refused exactly for an unresolved column; what the factors are for is CopyConstraints.ProductsAgreeIffCopiesHold |
| Permutation.RightProduct | crates/verifier/src/plonk/permutation.rs:157-171 | z times the product of (v + delta^j*beta*x + gamma), the power of delta carried along |
| Permutation.ChunkGrandProduct | crates/verifier/src/plonk/permutation.rs:125-173 | the difference of the two products over the chunk; refused exactly for an unresolved column |
| Permutation.ChunkSteps | crates/verifier/src/plonk/permutation.rs:93-113 | one step per chunk, in order |
| Permutation.Expressions | crates/verifier/src/plonk/permutation.rs:45-116 | accepted exactly without permutation or with matching counts and resolved columns; the four families in order |
| ExpressionOrder.PermutationPositions | crates/verifier/src/plonk/permutation.rs:66-113 | which permutation expression stands where: first value, last value, the seams between chunks, one step per chunk |
| PermutationArgument.RowEquations | crates/verifier/src/plonk/permutation.rs:70-116 | what the expressions say on the first, a usable and the last usable row |
| PermutationArgument.ChunksTelescope | crates/verifier/src/plonk/permutation.rs:81-113 | after i chunks, the running product equation over all usable rows and covered columns |
| PermutationArgument.PermutationArgumentTelescopes | crates/verifier/src/plonk/permutation.rs:45-116 | if all expressions vanish on every row, z_final is a bit and z_final times the left grand product is the right one |
| PermutationArgument.CompiledChunksCover | crates/vk-host/src/compile.rs:85-94 | the chunk count the compiler writes covers every column |
| PermutationArgument.GrandProductsAgree | crates/verifier/src/plonk/permutation.rs:45-116 | with all columns covered and no right factor zero, z_final is one and the grand products are equal |
| LinearProducts.VanishDetermines | crates/verifier/src/plonk/permutation.rs:144-171 | lists of points whose products of x - p agree at more x than points are permutations of each other |
| CopyConstraints.ProductsComparePairs | crates/verifier/src/plonk/permutation.rs:144-171 | at more beta and gamma than cells the grand products agree if and only if the pairs (value, sigma) are the pairs (value, delta^j w^r) in another order |
| CopyConstraints.ProductsAgreeIffCopiesHold | crates/verifier/src/plonk/permutation.rs:45-116 | when sigma encodes a permutation of the usable cells, the grand products agree at those challenges if and only if every cell has the value of the cell it is sent to |
| CopyConstraints.CopiesGiveEqualProducts | crates/verifier/src/plonk/permutation.rs:144-171 | values that agree along the permutation give equal grand products for every beta and gamma |
| CopyConstraints.VanishingExpressionsForceCopies | crates/verifier/src/plonk/permutation.rs:45-116 | if the permutation expressions vanish on every row for more beta and gamma than cells, the copy constraints hold |
| MerkleTree.GenerateZeroValuesForLevels | circuits/shielded-pool/src/imt/imt_utils.rs:20-38 | the zero value of each level below the root |
| MerkleTree.ZeroSubtree | circuits/shielded-pool/src/imt/on_chain_imt.rs:84-97 | a subtree to the right of all leaves has the zero value of its level |
| MerkleTree.AppendFrame | circuits/shielded-pool/src/imt/on_chain_imt.rs:84-97 | appending a leaf changes only the nodes above it |
| MerkleTree.HonestFold | circuits/shielded-pool/src/imt/off_chain_imt.rs:107-150 | the honest siblings lead from the leaf to every node above it |
| MerkleTree.LeftBeforeRight | circuits/shielded-pool/src/imt/off_chain_imt.rs:107-150 | a node hashes its left child before its right one; side 1 stands for a sibling on the right, side 0 for one on the left |
| MerkleTree.PositionOfSides | circuits/shielded-pool/src/imt/off_chain_imt.rs:107-131 | a position is recovered from the sides of its path |
| MerkleTree.ProofsAreBinding | circuits/shielded-pool/src/imt/off_chain_imt.rs:133-150 | for every hash: a full-length proof with bit sides reaches the root if and only if it is the honest proof of the leaf at sum (1-side_i) 2^i, or on some level it hashes another pair than the tree to the same value |
| OnChainImt.Imt.constructor | circuits/shielded-pool/src/imt/on_chain_imt.rs:46-65 | the empty tree with its root in the history |
| OnChainImt.Imt.Insert | circuits/shielded-pool/src/imt/on_chain_imt.rs:74-103 | refused, unchanged, exactly when full; otherwise the leaf is appended, frontiers, root and root history all in step with the abstract tree |
| OnChainImt.Imt.IncLastRootIdx | circuits/shielded-pool/src/imt/on_chain_imt.rs:106-112 | the next slot modulo the buffer length |
| OnChainImt.LevelUp | circuits/shielded-pool/src/imt/on_chain_imt.rs:82-97 | one level of an insertion computes the parent node, whether the node is a left or a right child |
| OnChainImt.NextRoot | circuits/shielded-pool/src/imt/on_chain_imt.rs:98-112 | the buffer keeps holding exactly the latest min(10, inserts + 1) roots in cyclic order |
| OffChainImt.CalculateLevel | circuits/shielded-pool/src/imt/off_chain_imt.rs:179-183 | the level whose index range contains the array index |
| OffChainImt.Imt.constructor | circuits/shielded-pool/src/imt/off_chain_imt.rs:43-69 | the built empty tree |
| OffChainImt.Imt.InsertLeafLazy | circuits/shielded-pool/src/imt/off_chain_imt.rs:76-86 | refused exactly for the two reserved values or a full tree; otherwise one array element changes |
| OffChainImt.Imt.BuildTree | circuits/shielded-pool/src/imt/off_chain_imt.rs:88-105 | every array element holds the value computed from its children, an unset child read as the zero of its level |
| OffChainImt.StoredIsNode | circuits/shielded-pool/src/imt/off_chain_imt.rs:88-105 | where no inner node equals the marker (or the zero of its level does too) the array is the abstract tree |
| OffChainImt.ArrayIsTreeIff | circuits/shielded-pool/src/imt/off_chain_imt.rs:88-105 | reading the array gives the nodes of the abstract tree if and only if no inner node equals the marker, unless the zero of its level does too |
| OffChainImt.Imt.FindLeafIndex | circuits/shielded-pool/src/imt/off_chain_imt.rs:162-169 | the first leaf with the value, or none |
| OffChainImt.Imt.ProofFor | circuits/shielded-pool/src/imt/off_chain_imt.rs:107-131 | refused exactly for an absent leaf; otherwise the array siblings and sides of the first such leaf, one per level |
| OffChainImt.Imt.VerifyMerkleProof | circuits/shielded-pool/src/imt/off_chain_imt.rs:133-150 | true exactly when the path folds to the root |
| OffChainImt.Imt.BuiltRoot | circuits/shielded-pool/src/imt/off_chain_imt.rs:71-73 | the root is what the rebuild computes, and the abstract root where the marker is harmless |
| OffChainImt.Imt.ProofsAreComplete | circuits/shielded-pool/src/imt/off_chain_imt.rs:107-150 | in a rebuilt tree where the marker is harmless the proof of a present leaf is the honest one and verifies |
| OffChainImt.Imt.AcceptedProofs | circuits/shielded-pool/src/imt/off_chain_imt.rs:133-150 | in a rebuilt tree where the marker is harmless a full-length proof with bit sides is accepted if and only if it is the array leaf and array siblings of its position, or contains a collision of the hash |
| ImtRefinement.InsertIntoBoth | circuits/shielded-pool/src/imt/on_chain_imt.rs:74-103 | for every depth 1 to 20, every hash and every list of insertable leaves: the on-chain root is the abstract one after every insertion, and equals the rebuilt one whenever no inner node equals the marker (or the zero of its level does too) |
| ImtRefinement.SentinelMatters | circuits/shielded-pool/src/imt/off_chain_imt.rs:152-160 | a hash that produces the marker 1 makes the two roots differ |
| ImtRefinement.CalculateRootFromProof | circuits/shielded-pool/src/circuit/constraints/merkle_proof.rs:28-61 | satisfiable exactly for bit sides, and then equal to the native fold |
| Expression.ReadU8 | crates/verifier/src/plonk/expression.rs:142-149 | one byte off the front: put back before what is left it gives the bytes at the cursor; refused exactly at the end |
| Expression.ReadU32 | crates/verifier/src/plonk/expression.rs:152-159 | four bytes off the front: the little-endian encoding of the word before what is left gives the bytes at the cursor; refused exactly for fewer |
| Expression.Read32 | crates/verifier/src/plonk/expression.rs:162-170 | 32 bytes off the front, which before what is left give the bytes at the cursor; refused exactly for fewer |
| Expression.Execute | crates/verifier/src/plonk/expression.rs:74-132 | one instruction: new cursor and stack, or the error, of the instruction semantics |
| Expression.Evaluate | crates/verifier/src/plonk/expression.rs:70-139 | the loop computes the semantics of the whole bytecode, including which error |
| ExpressionLanguage.RunEncode | crates/verifier/src/plonk/expression.rs:70-139 | on any stack and before any suffix, the encoding of an expression pushes its value |
| ExpressionLanguage.EncodedExpressionEvaluates | crates/verifier/src/plonk/expression.rs:70-139 | an encoded expression evaluates to its value, or fails exactly when an index is out of range |
| ExpressionLanguage.UniqueReadability | crates/vk-host/src/expression_encoder.rs:54-129 | different expressions have different bytes |
| ExpressionLanguage.Opcodes | crates/verifier/src/plonk/expression.rs:49-57 | the bytes of every form of expression, opcodes 0x00 to 0x08, indices little-endian |
| ExpressionLanguage.AcceptedBytecodeIsAnExpression | crates/verifier/src/plonk/expression.rs:70-139 | every accepted bytecode is the encoding of exactly one expression and has its value |
| ExpressionEncoder.FindQuery | crates/vk-host/src/expression_encoder.rs:70-76 | the first position of a (column, rotation) pair |
| ExpressionEncoder.Walk | crates/vk-host/src/expression_encoder.rs:54-129 | appends the encoding of the resolved expression, or returns the first error in post-order |
| ExpressionEncoder.CompilableIffResolves | crates/vk-host/src/expression_encoder.rs:54-129 | encoding succeeds exactly without selectors, unlisted queries and challenge indices above 255 |
| ExpressionEncoder.ResolvedMeaning | crates/vk-host/src/expression_encoder.rs:54-129 | resolving column and rotation to an index keeps the meaning |
| ExpressionEncoder.CompileAndEvaluate | crates/vk-host/src/expression_encoder.rs:45-129 | compiling and evaluating gives the meaning of the source expression |
| VkFormat.QueryLawful | crates/verifier/src/vk.rs:298-306 | query entries, with signed rotations, are read back and only written ones are read |
| VkFormat.PairLawful | crates/verifier/src/vk.rs:169-222 | lookups and shuffles: two equally long bytecode lists |
| VkFormat.PhasesRead | crates/verifier/src/vk.rs:224-264 | the optional phase appendix is read back |
| VkFormat.PhasesReadOnly | crates/verifier/src/vk.rs:224-264 | only well-formed phase tables are read, absent exactly for a single phase |
| VkFormat.WrittenKeysParse | crates/verifier/src/vk.rs:90-295 | parse(write(p)) = p for every well-formed key |
| VkFormat.ParsedBytesAreWritten | crates/verifier/src/vk.rs:90-295 | parse(b) = p implies that p is well formed and write(p) = b, to the last byte |
| VkFormat.VkBytesInjective | crates/vk-host/src/compile.rs:176-287 | well-formed keys with the same bytes are equal |
| VkFormat.HeadLayout | crates/verifier/src/vk.rs:87-118 | the first 120 bytes outright: magic, version 3, the eleven words little-endian by name, omega big-endian, the transcript digest |
| VkFormat.BodyLayout | crates/verifier/src/vk.rs:120-264 | the order of the lists after them: advice, fixed and instance queries, gates, fixed and permutation commitments, permuted columns, lookups, shuffles, phases |
| VkFormat.EntryLayout | crates/vk-host/src/compile.rs:200-297 | the bytes of the entries: little-endian words and counts, rotations in two's complement, one-byte tags, inputs before tables |
| VkCodec.Reader.ReadBytes | crates/verifier/src/vk.rs:326-359 | the next n bytes, or the error |
| VkCodec.Reader.ReadU32Le | crates/verifier/src/vk.rs:346-348 | the next little-endian word |
| VkCodec.Reader.ReadQueries | crates/verifier/src/vk.rs:298-306 | the counted query table of the format |
| VkCodec.Reader.ReadGates | crates/verifier/src/vk.rs:128-141 | the nested gate list of the format |
| VkCodec.Reader.ReadPoints | crates/verifier/src/vk.rs:143-153 | a counted list of points |
| VkCodec.Reader.ReadColumns | crates/verifier/src/vk.rs:155-168 | the permuted columns, refused for another count or a tag above 2 |
| VkCodec.Reader.ReadLookups | crates/verifier/src/vk.rs:169-196 | the lookup arguments |
| VkCodec.Reader.ReadShuffles | crates/verifier/src/vk.rs:198-222 | the shuffle arguments |
| VkCodec.Reader.ReadPhases | crates/verifier/src/vk.rs:224-264 | the phase appendix |
| VkCodec.Reader.ReadMetadata | crates/verifier/src/vk.rs:102-114 | the eleven metadata words in order |
| VkCodec.ParseVk | crates/verifier/src/vk.rs:90-295 | the parser computes the format, including which error |
| VkCodec.AppendQueries | crates/vk-host/src/compile.rs:289-297 | the bytes of a query table appended |
| VkCodec.WriteVk | crates/vk-host/src/compile.rs:176-287 | the writer appends exactly the bytes of the format |
| VkCodec.NumPhases | crates/vk-host/src/compile.rs:68-72 | one more than the largest phase, saturating |
| VkCodec.CompiledPhasesAccepted | crates/vk-host/src/compile.rs:68-72 | the phase appendix the compiler writes is read back if and only if no phase is 255, and rejected otherwise |
| VkCodec.OnlyGoodPhasesRead | crates/verifier/src/vk.rs:224-264 | whatever tables are written with a count above one, reading them back fails or returns them, in range |
| VkCodec.PhaseOutOfReach | crates/vk-host/src/compile.rs:68-72 | one advice column of phase 255 is written with count 255 and rejected |
| ProofFormat.AdviceCommitmentsByRank | crates/verifier/src/plonk/proof_reader.rs:136-187 | advice_commits[c] is the wire point whose predecessors belong to exactly the lexicographically smaller (phase, column) pairs |
| ProofWriter.WrittenProofsParse | crates/verifier/src/plonk/proof_reader.rs:107-359 | round trip: a record written field by field (advice by phase and column; per lookup input then table; products, random, quotient pieces; then the evaluations by name) parses to contents whose record is the one written, with its opening points |
| ProofWriter.AcceptedProofsAreWritten | crates/verifier/src/plonk/proof_reader.rs:107-359 | accepted bytes are those the writer writes for the record they become, and that record is writable |
| ProofWriter.AdvicePlaced | crates/verifier/src/plonk/proof_reader.rs:136-187 | placing the points read in wire order restores every column |
| ProofWriter.RawPointsLawful | crates/verifier/src/transcript.rs:88-97 | raw 64-byte points are read back and only they are read |
| ProofWriter.CompressedPointsLawful | crates/verifier/src/transcript.rs:186-194 | compressed points are read back when decompression inverts compression, and only they are read when every point has one compressed form |
| ProofScript.AcceptedProofs | crates/verifier/src/plonk/proof_reader.rs:107-359 | a proof is accepted exactly when its length is the script length and every slot decodes |
| ProofScript.WireOrderIsComplete | crates/verifier/src/plonk/proof_reader.rs:136-187 | with phases in range every advice column is read exactly once |
| ProofScript.ExpectedSizes | crates/verifier/src/plonk/proof_reader.rs:580-625 | both length formulas are the length of the script |
| ProofReader.ReadAdvicePhases | crates/verifier/src/plonk/proof_reader.rs:136-187 | advice points and user challenges interleaved by phase, stored by index |
| ProofReader.ReadPermuted | crates/verifier/src/plonk/proof_reader.rs:189-198 | two points per lookup |
| ProofReader.ReadProducts | crates/verifier/src/plonk/proof_reader.rs:200-225 | the product, random and quotient commitments with y and x between |
| ProofReader.ReadCommitments | crates/verifier/src/plonk/proof_reader.rs:136-225 | everything up to x: the contents of the format, the challenges in the order drawn |
| ProofReader.ReadChunks | crates/verifier/src/plonk/proof_reader.rs:236-256 | three values per chunk, two for the last |
| ProofReader.ReadLookupEvals | crates/verifier/src/plonk/proof_reader.rs:258-277 | five values per lookup in order |
| ProofReader.ReadShuffleEvals | crates/verifier/src/plonk/proof_reader.rs:279-285 | two values per shuffle |
| ProofReader.ReadEvaluations | crates/verifier/src/plonk/proof_reader.rs:222-285 | all evaluations of the format |
| ProofParsers.AbsorbInputs | crates/verifier/src/plonk/proof_reader.rs:114-128 | the lengths of the instance columns (GWC only), then the values |
| ProofParsers.InputOrder | crates/verifier/src/plonk/proof_reader.rs:114-128 | with GWC the column lengths come first, then the inputs in order; with SHPLONK only the inputs |
| ProofParsers.ReadOpening | crates/verifier/src/plonk/proof_reader.rs:287-332 | the opening points and challenges of either scheme |
| ProofParsers.ReadProofInner | crates/verifier/src/plonk/proof_reader.rs:107-359 | for either scheme: the contents of the format or its error, every challenge the digest drawn at its place, the transcript in step with the script; the record is the one written (ProofWriter.WrittenProofsParse) |
| ProofNoFs.ReadG1 | crates/verifier/src/plonk/proof_reader.rs:518-525 | one raw point, or the error |
| ProofNoFs.ReadScalar | crates/verifier/src/plonk/proof_reader.rs:541-549 | one canonical scalar, or the error |
| ProofNoFs.ReadAdvice | crates/verifier/src/plonk/proof_reader.rs:390-418 | the advice commitments, phase by phase |
| ProofNoFs.ParseProofNoFs | crates/verifier/src/plonk/proof_reader.rs:390-515 | the contents of the format or its error, without a transcript; the record is the one written (ProofWriter.WrittenProofsParse) |
| ProofAgreement.ParsedKeysAreTabled | crates/verifier/src/vk.rs:224-264 | every parsed key has full phase tables with every phase in range |
| ProofAgreement.ParseBothWays | crates/verifier/src/plonk/proof_reader.rs:390-515 | for every parsed key and byte string both parsers return the same proof or error, accepting exactly the expected length with canonical scalar slots; the accepted bytes are those the writer writes for the returned record |
| ProofAgreement.ReadWrittenProof | crates/verifier/src/plonk/proof_reader.rs:107-359 | the reader of either scheme, and the parser without transcript, return the record that was written |
| ProofAgreement.ChallengesBind | crates/verifier/src/plonk/proof_reader.rs:107-359 | executions with the same key that hash the same bytes at their n-th squeeze had the same public inputs and had read the same proof bytes |
| ChallengePlaces.UserChallengePlaces | crates/verifier/src/plonk/proof_reader.rs:136-187 | a user challenge is drawn when the advice columns of its phase and of all earlier phases have been read, and nothing else |
| ChallengePlaces.FixedChallengePlaces | crates/verifier/src/plonk/proof_reader.rs:189-332 | how many points and scalars are read before theta, beta, gamma, y, x and each opening challenge of either scheme |
| ChallengePlaces.DrawnChallenges | crates/verifier/src/plonk/proof_reader.rs:335-359 | which drawn challenge is stored under which name |
| ProofShape.AcceptedProofsAreShaped | crates/verifier/src/plonk/proof_reader.rs:107-359 | a proof accepted under a parsed key has the sizes the query builder needs, if and only if the query tables name only existing columns |
| ProofShape.AcceptedWitnessCount | crates/verifier/src/plonk/proof_reader.rs:287-332 | from bytes: an accepted GWC proof has as many witnesses as the queries built from it have points, if and only if the condition of WitnessCountAgrees holds |
| Transcript.StreamInjective | crates/verifier/src/transcript.rs:165-202 | the cumulative stream of word messages and squeezes determines them |
| Transcript.HashInputsGrow | crates/verifier/src/transcript.rs:196-202 | each hashed input is a proper prefix of every later one |
| Transcript.EqualInputsEqualEvents | crates/verifier/src/transcript.rs:196-202 | equal hashed bytes come from equal histories |
| Transcript.CumulativeHashInput | crates/verifier/src/transcript.rs:165-202 | 0x01 before every message, 0x00 for every squeeze, nothing forgotten |
| Transcript.PlainHashInput | crates/verifier/src/transcript.rs:63-120 | a plain squeeze hashes the digest of the previous input followed by what was absorbed since, or by 0x01 when that is nothing |
| Transcript.PlainSqueezes | crates/verifier/src/transcript.rs:103-120 | a squeeze directly after another hashes the digest and 0x01, a squeeze after a message the digest and the message |
| Transcript.FirstPlainSqueeze | crates/verifier/src/transcript.rs:57-61 | the first squeeze of a fresh transcript hashes the key digest and 0x01 |
| Transcript.PlainTranscriptBinds | crates/verifier/src/transcript.rs:103-120 | histories of whole words with equally many squeezes that hash the same bytes absorbed the same bytes between squeezes, or two of the earlier inputs collide |
| Transcript.Transcript.constructor | crates/verifier/src/transcript.rs:57-61 | either transcript starts with the verifying-key digest absorbed |
| Transcript.Transcript.Absorb | crates/verifier/src/transcript.rs:63-69 | the message joins the state, with a prefix in the cumulative transcript |
| Transcript.Transcript.ReadScalar | crates/verifier/src/transcript.rs:74-83 | reads a canonical scalar and absorbs its bytes, absorbing nothing on failure |
| Transcript.Transcript.ReadG1 | crates/verifier/src/transcript.rs:88-97 | reads a raw or compressed point and absorbs its wire bytes |
| Transcript.Transcript.SqueezeChallenge | crates/verifier/src/transcript.rs:103-120 | the digest of the bytes of PlainHashInput or CumulativeHashInput, reduced into the field |
| Transcript.SolanaKeccak.Absorb | circuits/shielded-pool/src/transcript.rs:31-34 | the prefixed message joins the stream |
| Transcript.SolanaKeccak.Squeeze | circuits/shielded-pool/src/transcript.rs:36-42 | the digest of the same bytes the verifier hashes |
| Transcript.ReversedValue | circuits/shielded-pool/src/transcript.rs:64-70 | little-endian value of the reversed, zero-extended digest is its big-endian value |
| Transcript.Sample | circuits/shielded-pool/src/transcript.rs:64-70 | the generator reduces a digest to the same field element |
| Transcript.ReplayOnBoth | circuits/shielded-pool/src/transcript.rs:31-70 | the same absorbs and squeezes give the same challenges on both sides |

## Left out

- Kzg.MsmG1: points are discrete logarithms, so curve addition, scalar multiplication, subgroup and on-curve checks, the pairing and the syscalls behind them are not modelled, and neither are their error returns.
- ScalarFieldLaws.ScalarsAreAField: primality of the modulus is a hypothesis, and the inversion routine is replaced by an inverse computed with Euclid's algorithm.
- Lagrange.EvaluateLagrange: stated for an omega of exact order 2^k; the parser of verifying keys does not check the order.
- WitnessCount.ExpectedGwcWitnessCount: models the build whose 32-bit arithmetic wraps; a build with overflow checks panics for 2^31 - 1 blinding factors. Domain sizes are unbounded, so k >= 64 is not modelled.
- WitnessCount.WitnessCountAgrees: stated for an omega of exact order 2^k, which the parser of verifying keys does not check.
- Queries.BuildQueries: stated for proofs with at least the permutation commitments and evaluations the code indexes; with fewer it panics. Accepted proofs have them (ProofShape.AcceptedProofsAreShaped).
- Verifier.PrepareOpeningQueries: the list of lookup and shuffle expressions is a parameter, a function of the Lagrange and instance evaluations; stated for an omega of exact order 2^k and k < 64, and where the permutation parts the code indexes exist.
- Verifier.VerifyGwc: stops before the pairing, takes the challenges as read, and has the hypotheses of PrepareOpeningQueries.
- ExpressionEncoder.CompileAndEvaluate: stated for query lists of at most 2^32 entries, because the code casts positions to 32 bits.
- Transcript.Transcript.ReadG1: point decompression is an uninterpreted function that may fail; Keccak is an uninterpreted function with 32-byte results.
- ProofAgreement.ChallengesBind: states which bytes are hashed; collision resistance and the probabilistic soundness of Fiat-Shamir and KZG are not modelled.
- GwcOpening.PassingChecksForceClaims: counts the challenges that suffice; a prover is a choice of polynomials, so commitments nobody can open are not modelled. The same holds of ShplonkSoundness.EveryQueryHolds and of the corollaries in HonestQueries.
- ProofWriter.CompressedPointsLawful: the compression of points is a parameter with its laws as hypotheses; raw points need none.
- ProofReader.ReadCommitments: the trait with two transcript types is one class with a scheme field; the cursor is a value passed from read to read.
- OnChainImt.Imt.Insert: the tree depth is a field instead of a compile-time constant, and the depth bound asserted by the constructors is a precondition.
- ImtRefinement.CalculateRootFromProof: the gates are modelled by their meaning (a selector must be a bit, a selection is sel*(a-b)+b); the constraint builder of halo2-base is not part of this model.
- The lookup and shuffle expression formulas: direct transcriptions beside the permutation argument.
- `stage_state.rs` and the fixture packer: flat codecs, all simpler than the verifying-key codec.
- `compute_omega` and the extraction of metadata from a constraint system: they read structures of the Halo2 library.
- The prover, SRS loading, the program entry point, command-line scripts, debug output, compute-unit and stack-frame budgets.
- Machine-size limits of lengths and cursors (`usize` overflow in `checked_add`): lengths are unbounded naturals.
