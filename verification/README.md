# Polynomial commitments: a verified model

This project models the polynomial commitment schemes of the repository and proves what they
promise: that the streaming provers compute what the in-memory ones do, that the logarithmic
verifiers decide what the plain ones decide, and that honest proofs are accepted. The theorems about
checks are exact: for every commitment, value and proof they write out, as sums over the inputs and
conditions on every position, when a check accepts and when it fails (the modules named Decisions).

Check everything with `dafny verify dfyconfig.toml`.

## How the mathematics is represented

- `PrimeField` is the field of integers modulo `P`, an arbitrary prime. All ring laws, inverses
  and the absence of zero divisors are proved from the definition. The operations carry their
  defining properties in quantifiers over `Peek`, so that a proof sees integer arithmetic only
  where it asks for it; `RingLaws` is called in small lemmas.
- A group element is its discrete logarithm, a pairing is a product, and a multi-scalar
  multiplication is `Vectors.Inner`, which stops at the shorter list. Generators, trapdoors and
  keys are arbitrary field elements, so the inner-product argument and Hyrax are stated for
  arbitrary generators. Normalising to affine form is the identity.
- A univariate polynomial is its coefficient list, lowest degree first, with possible zeros at
  the end; `PolyEq`, `Degree` and `Below` compare and bound polynomials independently of them. A
  multivariate polynomial is a list of coefficient-term pairs. A multilinear polynomial is its
  table of values.
- The sponge, the random oracle and the hashes are arbitrary functions of what has been absorbed
  (`Oracle`, `Squeezes`, a transcript of events). Random coins are parameters. Theorems therefore
  hold for every oracle and all coins.
- `Outcome` is `Ok`, `Err` or `Panic`; `Panic`, or `None` where a function has only one way to
  fail, stands for a failed assertion, an `unwrap` of nothing or an index out of range.
- Code that updates state is a method or class with loops over sequences and arrays, proved
  against a specification function; the theorems are about the specification functions.

## Layout

| files | topic |
|---|---|
| PrimeField, Numbers, Vectors, Polynomials | field, powers of two, inner products, univariate polynomials |
| FoldedPolynomial, FoldedPolynomialIterators | streaming folding: the stack as a binary counter, tree and stream iterators |
| StreamingKzg, Division, StreamingFolding, Lagrange, KzgVerifier, FoldingOpening, KzgDecisions | streaming and in-memory KZG, multi-point verification, openings of foldings |
| CheckPolynomial, IpaRounds, InnerProductPC, IpaVerifier, IpaDecisions, IpaBatchCheck | inner-product argument |
| Combinations, MonomialTable, SparsePolynomials, PointDivision, MarlinPST13Keys, MarlinPST13, MarlinPST13Completeness, MarlinPST13Hiding, PST13BatchCheck, PST13Decisions | multivariate scheme PST13 |
| MultilinearExtensions, MultilinearSetup, MultilinearPC | multilinear scheme |
| SparseMatrices, MatrixSampling, BrakedownLayout, BrakedownCode, BrakedownProperties | Brakedown code |
| LinearCodes, LinearCodePCS, LinearCodeCompleteness, LinearCodeDecisions, LinearCodeBatches, LinearCodeQueries | commitment schemes from linear codes, alone and under the batching layer |
| KZG10, BatchChecks, MarlinPC, MarlinCompleteness, MarlinBlinding, MarlinDecisions, MarlinBatchCheck, SonicPC, SonicBatchCheck, SonicCompleteness, SonicDecisions | KZG with degree bounds, single and batched checks |
| HyraxPC, HyraxDecisions, HyraxBatches | Hyrax, alone and under the batching layer |
| OrderedSets, QueryBatches, LinearCombinations, CombinationChecks, BatchingDecisions | query batches and linear combinations over any scheme |

## What the code does where a reader might expect otherwise

- PST13 with hiding: when no opened polynomial has all variables of the key but some polynomial is
  hidden, hiding witnesses are dropped and check can reject true values. `DroppedWitnessRejects`
  carries an input through commit, open and check; `CompleteIff` shows that the scheme is complete
  exactly if nothing is hidden or one polynomial has all variables. `Exactly` says for every input
  when check accepts.
- PST13 batch_check indexes every proof by the variables of the key, so it panics on the proof of
  polynomials in fewer variables, which check accepts (`OpenedIndexable`, `AcceptedAlone`,
  `AcceptedAloneHappens`).
- PST13 batch_check bounds a proof by the coordinates of its point, check by the key. Where a point
  has more coordinates than the key has variables, batch_check can accept what check panics on
  (`ExtraWitness`); otherwise it accepts no more than check (`OnlyAcceptedIff`).
- PST13 batch_check and the batch check of KZG10 stop at the shortest of their lists, so claims
  behind the last proof are not looked at and without proofs anything is accepted
  (`BehindLastProof`, `NoProofs`, `BehindShortest`). `EveryClaimCountsIff` says that every claim
  counts exactly if there are enough proofs. Marlin asserts their number, PST13 does not.
- PST13 commit takes polynomials that claim more variables than the key as long as their terms do
  not use them (`CommitOneIsValue`); check panics on what open returns for them
  (`CheckPanicsBeyondKey`).
- Marlin's open leaves `random_v` at none when the combined unshifted blinding is zero, even if
  the shifted blinding is not, and then check rejects true values (`AcceptedUnlessLost`).
  `LostBlindingRejects` gives an input that commit accepts; since commit refuses blindings of
  degree zero, the shifted blinding is c + X. `CompleteIff` and `CompleteIffUnhidden` say for which
  commitments this can happen: those with a polynomial that is both bounded and hidden.
- Brakedown's encoder returns through the levels in increasing order, so the region of a level is
  computed while the regions of deeper levels are still zero (`LevelSegment`). It is linear and
  systematic all the same, but it is not the recursive encoder.
- `mat_size` needs a base length of at least two: a message of length one neither shrinks nor
  leaves room for the base code (`LengthOneFails`, `DefaultRatesGood`).
- check_combinations sorts the queries with their point labels while open_combinations sorts the
  evaluations without. The two agree, and every evaluation is read under its own key, exactly when
  no pair of polynomial and point but the greatest is queried under several point labels
  (`AlignedIff`, `PairedIff`, `MixedUp`). For univariate linear codes `CompleteIffUnrepeated` carries
  this through open and check: otherwise some polynomials have true values that are rejected.
- Batch checking in the inner-product argument does not compare the lengths of the proof vectors,
  which check does. `LengthsNotCompared` gives proofs on which the two differ, and
  `IpaBatchCheck.BatchRefinesSingle` and `AgreesIffLength` say for every proof what the batch
  accepts and when it agrees with check.
- Hyrax's check never looks at the claimed values, so in a batch any values are accepted
  (`AnyValuesAccepted`). What is proved is that an honest `com_eval` opens to the value of the
  polynomial. It decides as many commitments as there are proofs (`DecidesExactly`).
- The documentation of `flat_to_matrix_column_major` gives an example with rows and columns
  exchanged; the model follows the code.

## Model

| member | source | states |
|---|---|---|
| FoldedPolynomial.InitStack | poly-commit/src/streaming_kzg/data_structures.rs:68-84 | the initial stack is the one that consuming the padding zeros would leave: a zero for every bit of the padding, highest level first |
| FoldedPolynomial.ZeroStackIsStack | poly-commit/src/streaming_kzg/data_structures.rs:68-84 | starting from that stack is starting from an empty one and reading n zeros, for every n |
| FoldedPolynomial.StackFalls | poly-commit/src/streaming_kzg/data_structures.rs:111-137 | after any number of items the stack is their binary counter: levels fall strictly towards the top and stay below the depth |
| FoldedPolynomial.Merges | poly-commit/src/streaming_kzg/data_structures.rs:113-133 | merging the two topmost entries of one level is the carry of that counter into the next level |
| FoldedPolynomial.PairsFold | poly-commit/src/streaming_kzg/data_structures.rs:111-133 | pairing a padded stream, highest degree first, is one folding even + c * odd with half the padding |
| FoldedPolynomial.FoldingLength | poly-commit/src/streaming_kzg/data_structures.rs:56-58 | the i-th folding of n coefficients has ceil(n / 2^i) of them |
| FoldedPolynomialIterators.FoldedPolynomialTreeIter.Next | poly-commit/src/streaming_kzg/data_structures.rs:111-137 | yields the next item above level 0 with its level between 1 and the depth, keeps the stack invariant and a decreasing measure, and ends only when every coefficient has been read and no merge is pending |
| FoldedPolynomialIterators.TreeStackFalls | poly-commit/src/streaming_kzg/data_structures.rs:111-133 | at every moment levels fall strictly towards the top, except that the top two may tie, so the stack never holds more than depth + 1 entries |
| FoldedPolynomialIterators.ItemsBound | poly-commit/src/streaming_kzg/data_structures.rs:111-137 | padding and items of a level never exceed what has been read, divided by 2^i |
| FoldedPolynomialIterators.TreeBound | poly-commit/src/streaming_kzg/data_structures.rs:111-137 | no level ever produces more items than its folding has coefficients |
| FoldedPolynomialIterators.EmittedAtEnd | poly-commit/src/streaming_kzg/data_structures.rs:111-137 | when the stream is exhausted the items of level i are the i-th folding, highest degree first |
| FoldedPolynomialIterators.Collect | poly-commit/src/streaming_kzg/data_structures.rs:48-54 | a whole run, for every n, depth and challenges: terminates, and every level 1..depth receives exactly its folding in order |
| FoldedPolynomialIterators.StreamReadTwo | poly-commit/src/streaming_kzg/data_structures.rs:207-215 | the fast path that reads two coefficients at once is reading one, reading the other and merging them |
| FoldedPolynomialIterators.FoldedPolynomialStreamIter.ReadPair | poly-commit/src/streaming_kzg/data_structures.rs:207-215 | whenever the first read of a pair succeeds the second does too, so no coefficient is lost |
| FoldedPolynomialIterators.FoldedPolynomialStreamIter.Next | poly-commit/src/streaming_kzg/data_structures.rs:196-227 | yields the next coefficient of the last folding; ends only at the end of the stream |
| FoldedPolynomialIterators.CollectStream | poly-commit/src/streaming_kzg/data_structures.rs:172-185 | the whole stream is the last level of the tree in the same order, and its length is what len() announces |
| KzgVerifier.NewKeyHonest | poly-commit/src/streaming_kzg/time.rs:44-63 | key generation gives powers of one trapdoor under g and h, of the sizes asked for |
| StreamingKzg.TimeOpen | poly-commit/src/streaming_kzg/time.rs:104-123 | the in-memory opening returns f(alpha) and the commitment to (f - f(alpha)) / (X - alpha) |
| StreamingKzg.WitnessCorrect | poly-commit/src/streaming_kzg/time.rs:104-123 | f(x) - f(alpha) == (x - alpha) * witness(x) at every x |
| KzgVerifier.MultiPointComplete | poly-commit/src/streaming_kzg/time.rs:126-152 | batch_open_multi_points is accepted: whatever quotient and remainder the library division returns, the verifier equation holds for the true evaluations at pairwise distinct points |
| StreamingKzg.SpaceOpen | poly-commit/src/streaming_kzg/space.rs:63-93 | the one-pass Horner opening returns the same evaluation and proof as the in-memory one, for every length |
| StreamingKzg.SpaceOpenMultiPoints | poly-commit/src/streaming_kzg/space.rs:96-134 | for 1 <= points <= length the deque pass returns the remainder and the commitment to the quotient of streaming division |
| StreamingKzg.TurnDeque | poly-commit/src/streaming_kzg/space.rs:121-127 | one turn of the deque: the oldest entry leaves as quotient coefficient and its multiple of the divisor is taken away |
| Division.DivideCorrect | poly-commit/src/streaming_kzg/space.rs:96-134 | streaming division by a monic polynomial is division: f = Z * Q + R with R shorter than Z |
| Division.QuotientUnique | poly-commit/src/streaming_kzg/space.rs:96-134 | two polynomials whose multiples by a monic Z agree from its degree on are equal |
| StreamingKzg.MultiPointsAgree | poly-commit/src/streaming_kzg/space.rs:96-134 | any quotient and remainder the in-memory prover can get from its library give the streaming proof, and the remainder agrees with f at every point |
| StreamingFolding.FoldedBases | poly-commit/src/streaming_kzg/space.rs:175-186 | every level starts at the bases for its own number of coefficients |
| StreamingFolding.BaseLeft | poly-commit/src/streaming_kzg/space.rs:188-191 | the next item of a level always finds a base: no base iterator runs dry |
| StreamingFolding.CommitFolding | poly-commit/src/streaming_kzg/space.rs:163-197 | the commitments are those of all foldings |
| StreamingFolding.OpenInvStep | poly-commit/src/streaming_kzg/space.rs:237-251 | one item of the tree keeps, for every level, deque and commitment in step with the division of that level |
| StreamingFolding.OpenFolding | poly-commit/src/streaming_kzg/space.rs:203-260 | interleaved over the tree, every level divides its own folding by Z; remainders and the eta-combination of the quotient commitments are returned |
| FoldingOpening.CombinationDivides | poly-commit/src/streaming_kzg/space.rs:203-260 | dividing every polynomial of a combination divides the combination |
| FoldingOpening.FoldingComplete | poly-commit/src/streaming_kzg/space.rs:203-260 | commit_folding and open_folding together satisfy the multi-point verifier equation for the true values of the foldings |
| FoldingOpening.SeparateQuotients | poly-commit/src/streaming_kzg/space.rs:203-260 | a proof that combines quotients of single polynomials is accepted like one quotient of the combination |
| FoldingOpening.FoldingIsTensor | poly-commit/src/streaming_kzg/space.rs:163-197 | the coefficients of the i-th folding are inner products with the tensor of the challenges |
| KzgVerifier.VerifyExactly | poly-commit/src/streaming_kzg/mod.rs:171-188 | an honest proof is accepted for the true evaluation and for no other value |
| KzgDecisions.VerifyDecides | poly-commit/src/streaming_kzg/mod.rs:171-188 | for every commitment, value and proof: accepted exactly if commitment - g v == proof (tau - alpha), for h not zero |
| Division.VanishingEval | poly-commit/src/streaming_kzg/mod.rs:278-284 | the vanishing polynomial is the product of x - p over the points |
| Polynomials.Powers | poly-commit/src/streaming_kzg/mod.rs:304-310 | the loop returns 1, x, ..., x^(len-1) |
| KzgVerifier.CombinationEval | poly-commit/src/streaming_kzg/mod.rs:287-301 | a linear combination evaluates to the combination of the values |
| Lagrange.ScaInverses | poly-commit/src/streaming_kzg/mod.rs:209-221 | the inverted denominators exist exactly for pairwise distinct points |
| Lagrange.LagrangeNumerators | poly-commit/src/streaming_kzg/mod.rs:223-236 | the numerators are the products over the other points |
| Lagrange.InterpolatePoly | poly-commit/src/streaming_kzg/mod.rs:263-275 | the loop computes the interpolant through as many points as have values |
| Lagrange.InterpolantEval | poly-commit/src/streaming_kzg/mod.rs:263-275 | the interpolant takes the given values at the points, for as many points as there are values |
| Lagrange.InterpolantUnique | poly-commit/src/streaming_kzg/mod.rs:263-275 | two polynomials with at most m coefficients that agree at m points are equal |
| Lagrange.RootsBound | poly-commit/src/streaming_kzg/mod.rs:263-275 | a polynomial with at most as many coefficients as it has distinct roots is zero |
| KzgVerifier.CombinedInterpolantIs | poly-commit/src/streaming_kzg/mod.rs:196-260 | Lagrange interpolation of the combined values is the remainder modulo the vanishing polynomial |
| KzgVerifier.EquationHolds | poly-commit/src/streaming_kzg/mod.rs:196-260 | if f = Z * q + r at the trapdoor and r is short with the values of f, the pairing equation holds |
| KzgVerifier.VerifyMultiPoints | poly-commit/src/streaming_kzg/mod.rs:196-260 | panics exactly for repeated points or no polynomial; otherwise decides the multi-point equation, for evaluation rows of any lengths; KzgDecisions.MultiPointDecides says what that equation is |
| KzgDecisions.InterpolantIs | poly-commit/src/streaming_kzg/mod.rs:263-275 | the interpolant of a row is the only short polynomial with those values at the points |
| KzgDecisions.MultiPointDecides | poly-commit/src/streaming_kzg/mod.rs:196-260 | for every list of commitments, rows of values and proof: the equation holds exactly if sum challenge^i (c_i - g I_i(tau)) == proof * prod (tau - p), I_i being the interpolants of the rows |
| KzgDecisions.OtherTable | poly-commit/src/streaming_kzg/mod.rs:196-260 | a proof that is accepted with one table is accepted with another exactly if the challenge-combination of the differences of their interpolants vanishes at tau |
| KzgDecisions.HonestProofExactly | poly-commit/src/streaming_kzg/mod.rs:196-260 | the honest proof with a changed table: accepted exactly under that condition |
| KzgDecisions.FoldingExactly | poly-commit/src/streaming_kzg/space.rs:203-260 | the proof of open_folding with any claimed values of the foldings: accepted exactly under that condition |
| CheckPolynomial.ComputeCoeffs | poly-commit/src/ipa_pc/data_structures.rs:206-222 | the three nested loops build exactly the coefficients of the product of 1 + u_i X^(2^i) |
| CheckPolynomial.Evaluate | poly-commit/src/ipa_pc/data_structures.rs:225-238 | the log-size loop computes the product at the point |
| CheckPolynomial.ProductIsEvaluation | poly-commit/src/ipa_pc/data_structures.rs:206-238 | both describe one polynomial: the product is the evaluation of the coefficients |
| CheckPolynomial.PassesBuildCoeffs | poly-commit/src/ipa_pc/data_structures.rs:206-222 | the in-place passes over a vector of ones build the recursive coefficients |
| IpaRounds.FoldInPlace | poly-commit/src/ipa_pc/mod.rs:696-706 | the upper half is folded into the lower half in place |
| IpaRounds.OneRound | poly-commit/src/ipa_pc/mod.rs:671-713 | one turn of the loop: L and R are the cross terms with the key, the challenge comes from the oracle, all three arrays are folded |
| IpaRounds.RoundKeepsClaim | poly-commit/src/ipa_pc/mod.rs:676-706 | per-round invariant: the folded commitment is P + u^-1 L + u R |
| IpaRounds.CrossTerms | poly-commit/src/ipa_pc/mod.rs:676-706 | the inner product of two vectors folded with inverse challenges |
| IpaRounds.FoldingLoop | poly-commit/src/ipa_pc/mod.rs:669-716 | the halving loop returns the rounds of the recursive prover; it panics exactly at a zero challenge |
| IpaRounds.FoldAllIsInner | poly-commit/src/ipa_pc/mod.rs:765-774 | folding any key round by round equals one inner product with the coefficients of the check polynomial |
| IpaRounds.FoldedPowers | poly-commit/src/ipa_pc/mod.rs:190-191 | folding the powers of the point equals the check polynomial at the point |
| IpaRounds.VerifierLoop | poly-commit/src/ipa_pc/mod.rs:170-188 | the loop over the proof computes the running commitment and the challenges, stopping at the shorter list |
| IpaRounds.ProverMeetsVerifier | poly-commit/src/ipa_pc/mod.rs:480-728 | fed with the prover's rounds, the verifier derives the prover's challenges and its running commitment is the prover's last claim |
| IpaVerifier.SuccinctCheck | poly-commit/src/ipa_pc/mod.rs:96-208 | combines commitments and values with shifts and decides the succinct equation, which IpaDecisions.SuccinctDecides writes out |
| IpaVerifier.Check | poly-commit/src/ipa_pc/mod.rs:730-778 | errs for wrong lengths, panics as succinct_check does, and otherwise compares the round sum and the final key; IpaDecisions.CheckDecides writes both out |
| IpaDecisions.CombinedCommitmentIs | poly-commit/src/ipa_pc/mod.rs:112-141 | the combined commitment is the sum of the commitments, number i with squeeze 2i and its shifted one with squeeze 2i + 1 |
| IpaDecisions.CombinedValueIs | poly-commit/src/ipa_pc/mod.rs:112-141 | the combined value is the sum of the values with the same squeezes, a bounded one with the power of the point for its bound |
| IpaDecisions.ChallengesAre | poly-commit/src/ipa_pc/mod.rs:176-189 | the round challenges are exactly the answers of the oracle for the one before and the elements of the round |
| IpaDecisions.RoundSumIs | poly-commit/src/ipa_pc/mod.rs:176-189 | the running commitment is the first one plus the sum of u_i^-1 L_i + u_i R_i, and exists exactly if no challenge is zero |
| IpaDecisions.ViewExists | poly-commit/src/ipa_pc/mod.rs:96-189 | for every proof there is exactly one list of sums and challenges that the verifier arrives at |
| IpaDecisions.SuccinctDecides | poly-commit/src/ipa_pc/mod.rs:96-208 | for every proof: panics exactly for blinding that is there by half or a zero challenge; otherwise passes exactly if P' + v h' + sum (u_i^-1 L_i + u_i R_i) == c (K + h' f(z)) for the check polynomial f |
| IpaDecisions.CheckDecides | poly-commit/src/ipa_pc/mod.rs:730-778 | for every proof: an error exactly for wrong lengths, a panic as above; otherwise accepted exactly if that equation holds and the final key is the key folded with the check polynomial |
| IpaDecisions.OtherCoefficient | poly-commit/src/ipa_pc/mod.rs:190-205 | a proof that passes, with c' for c, passes exactly if (c' - c) (K + h' f(z)) == 0 |
| IpaVerifier.CheckRefinesFolding | poly-commit/src/ipa_pc/mod.rs:730-778 | for every proof, honest or not, the logarithmic verifier returns what the verifier that folds key and powers explicitly returns |
| InnerProductPC.Commit | poly-commit/src/ipa_pc/mod.rs:408-478 | fails exactly if a degree is beyond the key or its bound, or a bound beyond the key; otherwise commits and blinds every polynomial, shifted where bounded |
| InnerProductPC.CommitOneOpens | poly-commit/src/ipa_pc/mod.rs:443-467 | what a commitment opens to: the polynomial, or the shifted one, plus its blinding, which is that of its coins |
| InnerProductPC.CombinedOpens | poly-commit/src/ipa_pc/mod.rs:508-562 | the combined commitment opens to the combined polynomial with the combined blinding |
| InnerProductPC.CombinedValueTrue | poly-commit/src/ipa_pc/mod.rs:120-136 | with true values the verifier's combined value is that of the combined polynomial |
| InnerProductPC.CombineForOpening | poly-commit/src/ipa_pc/mod.rs:506-562 | the first loop of open computes the combined polynomial, blinding and commitment |
| InnerProductPC.HideOpens | poly-commit/src/ipa_pc/mod.rs:577-613 | after blinding the commitment opens without randomness to the same value |
| InnerProductPC.Open | poly-commit/src/ipa_pc/mod.rs:480-728 | errs exactly for a degree out of order; otherwise returns the specified proof or panics at a zero challenge |
| IpaDecisions.RejectsIff | poly-commit/src/ipa_pc/mod.rs:210-233 | open rejects exactly a degree beyond the key or its bound, and a bound beyond the key |
| IpaDecisions.OpenSucceeds | poly-commit/src/ipa_pc/mod.rs:480-728 | whatever is not rejected is opened, unless the oracle answers zero for a round |
| IpaDecisions.HidesBehind | poly-commit/src/ipa_pc/mod.rs:577-613 | the blinding adds the challenge times a random polynomial that vanishes at the point, coefficient by coefficient, and commits to that polynomial with its own randomness |
| IpaDecisions.HidesIff | poly-commit/src/ipa_pc/mod.rs:577-613 | the proof carries a hiding commitment and randomness exactly if some polynomial is hidden, and they are those of the blinding |
| IpaVerifier.Completeness | poly-commit/src/ipa_pc/mod.rs:480-778 | what commit and open produce is accepted with the true values, for every mix of bounds and hiding and every oracle without zero round challenge |
| IpaBatchCheck.BatchCheck | poly-commit/src/ipa_pc/mod.rs:780-858 | the first query that does not pass decides; otherwise one multiplication with the key checks all final keys, in the weighted sum that IpaBatchCheck.BatchIs writes out |
| IpaBatchCheck.BatchRefinesSingle | poly-commit/src/ipa_pc/mod.rs:780-858 | if check accepts all queries but one, the batch is accepted exactly when that one passes the succinct check with the folded key as its final key, or passes it, is not the first and zero was drawn for it; for every proof, whatever the lengths of its vectors |
| IpaBatchCheck.AcceptedTogether | poly-commit/src/ipa_pc/mod.rs:780-858 | queries that check accepts one by one are accepted together, whatever is drawn |
| IpaBatchCheck.AgreesIffLength | poly-commit/src/ipa_pc/mod.rs:730-858 | for such a remaining query, unless zero was drawn for it, batch and check agree exactly when its proof vectors have the length that check asks for or the batch does not accept it |
| IpaBatchCheck.LengthsNotCompared | poly-commit/src/ipa_pc/mod.rs:741-845 | under every key with more than one element a proof without rounds for the true value of a constant is accepted in a batch while check returns an error |
| IpaBatchCheck.VerdictIs | poly-commit/src/ipa_pc/mod.rs:800-839 | what a query adds: nothing before its rounds balance, then the difference between the key folded with its challenges and its final key |
| IpaBatchCheck.StopsAt | poly-commit/src/ipa_pc/mod.rs:800-839 | the first query that does not pass decides: false for a failed succinct check, a panic as check |
| IpaBatchCheck.BatchIs | poly-commit/src/ipa_pc/mod.rs:800-858 | where all queries pass: accepted exactly if e_0 + sum draws(i - 1) e_i == 0 for these differences |
| IpaBatchCheck.TwoMustCancel | poly-commit/src/ipa_pc/mod.rs:800-858 | if check accepts all queries but two and those pass, the batch is accepted exactly if their errors cancel, the later times what was drawn before it |
| Combinations.Combinations.constructor | poly-commit/src/marlin/marlin_pst13_pc/combinations.rs:21-33 | starts at the first len positions of the sorted list, for 1 <= len < size |
| Combinations.Combinations.NextCombination | poly-commit/src/marlin/marlin_pst13_pc/combinations.rs:45-86 | moves to the successor, or reports the end exactly at the last combination; never indexes out of range |
| Combinations.Combinations.Next | poly-commit/src/marlin/marlin_pst13_pc/combinations.rs:95-102 | yields the current combination; once the last one has been yielded it stays exhausted |
| Combinations.BumpIsSuccessor | poly-commit/src/marlin/marlin_pst13_pc/combinations.rs:54-84 | bumping the last place that can be bumped gives the lexicographic successor among all sub-multisets |
| Combinations.MaximalIsLast | poly-commit/src/marlin/marlin_pst13_pc/combinations.rs:54-72 | a selection where nothing can be bumped is the greatest |
| Combinations.FirstIsLeast | poly-commit/src/marlin/marlin_pst13_pc/combinations.rs:46-50 | the first selection is the least |
| Combinations.Collect | poly-commit/src/marlin/marlin_pst13_pc/combinations.rs:89-103 | a whole run yields every distinct sub-multiset of the size exactly once, in strictly ascending order |
| MonomialTable.ExpandTermOf | poly-commit/src/marlin/marlin_pst13_pc/mod.rs:199-205 | expanding the term of a combination gives the combination back |
| MonomialTable.TermOfExpand | poly-commit/src/marlin/marlin_pst13_pc/mod.rs:199-205 | every monomial comes from its expansion |
| MonomialTable.WordsAreCombinations | poly-commit/src/marlin/marlin_pst13_pc/mod.rs:184-195 | the sub-multisets of max_degree copies of every variable are exactly the sorted words of the degree |
| MonomialTable.ProductExpand | poly-commit/src/marlin/marlin_pst13_pc/mod.rs:200-204 | the product of betas over a combination is the value of its monomial |
| MonomialTable.Words | poly-commit/src/marlin/marlin_pst13_pc/mod.rs:189-195 | the combinations of one degree, each exactly once |
| MonomialTable.Monomials | poly-commit/src/marlin/marlin_pst13_pc/mod.rs:183-208 | setup generates every monomial of degree 1..max_degree exactly once, with the product of betas as its value |
| MarlinPST13Keys.BuildTable | poly-commit/src/marlin/marlin_pst13_pc/mod.rs:242-246 | the table has exactly these terms, each with g times its value |
| MarlinPST13Keys.Setup | poly-commit/src/marlin/marlin_pst13_pc/mod.rs:157-261 | errs exactly for no variables or degree zero; otherwise the table holds exactly the monomials, each under g |
| MarlinPST13Keys.TrimIsHonest | poly-commit/src/marlin/marlin_pst13_pc/mod.rs:267-318 | trimming leaves exactly the monomials of the supported degrees, and errs exactly for too large a degree |
| MarlinPST13.Commit | poly-commit/src/marlin/marlin_pst13_pc/mod.rs:321-417 | commits to every polynomial in order, or stops at the first that is rejected |
| MarlinPST13.CommitOneIsValue | poly-commit/src/marlin/marlin_pst13_pc/mod.rs:339-412 | for any polynomial: an error for too large a degree, a panic for a variable that the key does not have, an error for a hiding bound out of range, and otherwise the value at the trapdoor plus blinding |
| PST13Decisions.CommitBlinds | poly-commit/src/marlin/marlin_pst13_pc/mod.rs:366-377 | a commitment is blinded with the sampled polynomial exactly if it hides |
| PST13Decisions.TermsAreIn | poly-commit/src/marlin/marlin_pst13_pc/mod.rs:353-356 | a polynomial is within the key exactly if each of its terms is |
| PointDivision.DivideTerm | poly-commit/src/marlin/marlin_pst13_pc/mod.rs:67-83 | the inner loop divides one term until the variable is gone |
| PointDivision.DividePass | poly-commit/src/marlin/marlin_pst13_pc/mod.rs:57-89 | one pass over the dividend |
| PointDivision.DivideAtPoint | poly-commit/src/marlin/marlin_pst13_pc/mod.rs:44-92 | the method returns the specified quotients for every polynomial and point |
| PointDivision.DivisionIdentity | poly-commit/src/marlin/marlin_pst13_pc/mod.rs:44-92 | p(x) - p(z) is the sum of (x_i - z_i) * w_i(x) at every x |
| PointDivision.DivisionFits | poly-commit/src/marlin/marlin_pst13_pc/mod.rs:44-92 | w_i uses variables from i on only and has smaller degree than p; zero for a constant |
| PointDivision.PassFits | poly-commit/src/marlin/marlin_pst13_pc/mod.rs:44-92 | after pass i the dividend has no variable up to i |
| MarlinPST13.CommitIsValue | poly-commit/src/marlin/marlin_pst13_pc/mod.rs:353-363 | every look-up of a term in the key succeeds and the sum is g times the value at the trapdoor |
| MarlinPST13.Open | poly-commit/src/marlin/marlin_pst13_pc/mod.rs:420-513 | errs exactly for too large a degree; otherwise divides, looks up and blinds as specified |
| PST13Decisions.PolyDegreeIs | poly-commit/src/marlin/marlin_pst13_pc/mod.rs:112-129 | the degree that is checked is the greatest among the terms |
| PST13Decisions.DegreesOkIff | poly-commit/src/marlin/marlin_pst13_pc/mod.rs:436-445 | open errs exactly if some polynomial has a term beyond the supported degree |
| MarlinPST13.Check | poly-commit/src/marlin/marlin_pst13_pc/mod.rs:517-559 | a panic for more witnesses than elements of the key or coordinates of the point; otherwise the pairing equation on the combined commitment and value |
| PST13Decisions.CheckDecides | poly-commit/src/marlin/marlin_pst13_pc/mod.rs:517-559 | for every list of commitments, values and proof: with C and V the sums with challenge i for number i, accepted exactly if (C - g V - gamma r) h == sum w_j (beta_j h - h z_j) |
| MarlinPST13.CheckPanicsBeyondKey | poly-commit/src/marlin/marlin_pst13_pc/mod.rs:420-559 | check panics on whatever open returns for polynomials one of which claims more variables than the key has |
| MarlinPST13Completeness.HidingOpening | poly-commit/src/marlin/marlin_pst13_pc/mod.rs:473-507 | with hiding, when the opening exists, and by how much dropped hiding witnesses upset the equation |
| MarlinPST13Completeness.Exactly | poly-commit/src/marlin/marlin_pst13_pc/mod.rs:420-559 | open never panics on committed polynomials, and check accepts exactly if h times the excess is zero |
| MarlinPST13Completeness.AcceptsExactlyTheValue | poly-commit/src/marlin/marlin_pst13_pc/mod.rs:420-559 | where no hiding witness is dropped, check accepts exactly the true combined value |
| MarlinPST13Completeness.Completeness | poly-commit/src/marlin/marlin_pst13_pc/mod.rs:420-559 | where no hiding witness is dropped the true values are accepted |
| MarlinPST13Hiding.DroppedWitnessRejects | poly-commit/src/marlin/marlin_pst13_pc/mod.rs:321-559 | committed, opened and checked under any honest key: for the zero polynomial in no variables hidden behind the last variable, the true value is accepted exactly if h gamma (beta_last - z_last) is zero |
| MarlinPST13Hiding.CompleteIff | poly-commit/src/marlin/marlin_pst13_pc/mod.rs:321-559 | for polynomials that commit accepts: the true values are accepted for all coins, points and challenges exactly if nothing is hidden or one polynomial has all variables of the key (h and gamma not zero) |
| MarlinPST13Hiding.DroppedIsDifference | poly-commit/src/marlin/marlin_pst13_pc/mod.rs:473-507 | if betas and point agree in the variables that are kept, what is dropped is the whole difference of the values of the blinding |
| PST13BatchCheck.MVBatchCheck | poly-commit/src/marlin/marlin_pst13_pc/mod.rs:561-637 | pairs commitments, points, values and proofs up to the end of the shortest list; panics exactly if a proof there has fewer witnesses than the key has variables or more than its point has coordinates; otherwise decides the weighted sum of the deficits |
| PST13BatchCheck.MVCheckIsDeficit | poly-commit/src/marlin/marlin_pst13_pc/mod.rs:517-559 | check accepts a claim exactly if it has no deficit |
| PST13BatchCheck.CheckIsBalanced | poly-commit/src/marlin/marlin_pst13_pc/mod.rs:517-559 | for every claim: check panics for more witnesses than the key has variables or the point has coordinates, and otherwise accepts exactly if there is no deficit |
| PST13BatchCheck.MVBatchRefinesSingle | poly-commit/src/marlin/marlin_pst13_pc/mod.rs:561-637 | if check accepts all claims but one, batch_check panics or accepts exactly if that one is balanced, or is not the first and zero was drawn for it, for proofs of any length; if its proof has one witness for each variable, balanced means accepted by check |
| PST13BatchCheck.MVAcceptedTogether | poly-commit/src/marlin/marlin_pst13_pc/mod.rs:561-637 | claims that check accepts one by one are accepted together if every proof has a witness for each variable of the key, and otherwise batch_check panics |
| PST13BatchCheck.OnlyAcceptedIff | poly-commit/src/marlin/marlin_pst13_pc/mod.rs:517-637 | what batch_check accepts alone at a point is accepted by check, for all commitments, values and proofs, exactly if the point has no more coordinates than the key has variables |
| PST13BatchCheck.ExtraWitness | poly-commit/src/marlin/marlin_pst13_pc/mod.rs:599-616 | at a point with a further coordinate that is not zero, for every commitment and every value a proof with one witness more balances the batch equation while check panics |
| PST13BatchCheck.BehindLastProof | poly-commit/src/marlin/marlin_pst13_pc/mod.rs:593-597 | claims behind the last proof are not looked at |
| PST13BatchCheck.NoProofs | poly-commit/src/marlin/marlin_pst13_pc/mod.rs:593-597 | without proofs batch_check accepts any claims |
| PST13BatchCheck.EveryClaimCountsIff | poly-commit/src/marlin/marlin_pst13_pc/mod.rs:561-637 | where what has a proof is accepted, every claimed value has to have a proof that check accepts exactly if there are at least as many proofs as claims |
| PST13BatchCheck.MVDeficitIsImbalance | poly-commit/src/marlin/marlin_pst13_pc/mod.rs:517-559 | the deficit of a claim is the difference of the two sides that check compares, with one pairing for each witness |
| PST13BatchCheck.MVBatchIs | poly-commit/src/marlin/marlin_pst13_pc/mod.rs:561-637 | for proofs with one witness for each variable: accepted exactly if e_0 + sum draws(i - 1) e_i == 0 for these differences |
| PST13BatchCheck.MVTwoMustCancel | poly-commit/src/marlin/marlin_pst13_pc/mod.rs:561-637 | if check accepts all of them but two, accepted exactly if the two differences cancel, the later times what was drawn before it |
| PST13BatchCheck.OpenedIndexable | poly-commit/src/marlin/marlin_pst13_pc/mod.rs:420-637 | what open returns can be batch-checked exactly if an opened polynomial has all variables of the key |
| PST13BatchCheck.AcceptedAlone | poly-commit/src/marlin/marlin_pst13_pc/mod.rs:420-637 | whatever is opened without hiding and without a polynomial in all variables of the key, check accepts with the true values and batch_check panics on |
| PST13BatchCheck.AcceptedAloneHappens | poly-commit/src/marlin/marlin_pst13_pc/mod.rs:420-637 | the zero polynomial in no variables is such an input under every honest key |
| BrakedownLayout.MatSize | poly-commit/src/linear_codes/brakedown.rs:263-291 | terminates without underflow for every message length when the rates are good |
| BrakedownLayout.ADimsAre | poly-commit/src/linear_codes/brakedown.rs:272-278 | every level takes the output of the one before, from the message down to less than the base length, shrinks by alpha, and has as many nonzero entries a row as asked for but no more than columns |
| BrakedownLayout.BDimsAre | poly-commit/src/linear_codes/brakedown.rs:280-289 | the matrix back takes the code of the shrunk message to what is missing from the code of the message, nonzero entries capped the same way |
| BrakedownLayout.DefaultRatesGood | poly-commit/src/linear_codes/brakedown.rs:106-146 | the default alpha and r are good from base length two on |
| BrakedownLayout.LengthOneFails | poly-commit/src/linear_codes/brakedown.rs:106-146 | a message of length one neither shrinks nor leaves room for the base code |
| BrakedownLayout.LengthIsRate | poly-commit/src/linear_codes/brakedown.rs:295-302 | the codeword length is ceil(m * r) |
| BrakedownLayout.LayoutIsOk | poly-commit/src/linear_codes/brakedown.rs:166-184 | start and end tables advance by the matrices' columns and rows, no offset underflows, and every slice that encode takes is in range |
| BrakedownProperties.NewIsValid | poly-commit/src/linear_codes/brakedown.rs:149-206 | new on the output of mat_size yields an encoder whose offsets are in order, for every message length |
| MatrixSampling.PickColumns | poly-commit/src/linear_codes/brakedown.rs:312-321 | the swaps are the Fisher-Yates steps for the random words; tmp stays a permutation and the picks are distinct |
| MatrixSampling.EveryChoiceIsPicked | poly-commit/src/linear_codes/brakedown.rs:312-321 | every selection of distinct columns in every order is what some random words pick |
| MatrixSampling.MadeOnto | poly-commit/src/linear_codes/brakedown.rs:309-334 | tmp holds every column at the start of every row |
| MatrixSampling.MadeRegular | poly-commit/src/linear_codes/brakedown.rs:308-336 | every row has exactly d nonzero entries, all in different columns |
| MatrixSampling.MadeFrom | poly-commit/src/linear_codes/brakedown.rs:309-334 | row i is shuffled with its own words, and where its t-th pick is stands the t-th value drawn for it |
| MatrixSampling.RowStartIs | poly-commit/src/linear_codes/brakedown.rs:309-321 | row i begins with word i * d |
| MatrixSampling.MadeKeeps | poly-commit/src/linear_codes/brakedown.rs:309-334 | a further row takes nothing away |
| MatrixSampling.MakeMat | poly-commit/src/linear_codes/brakedown.rs:308-336 | builds that matrix from the coins, and no assertion of the constructor fails |
| BrakedownCode.NaiveReedSolomon | poly-commit/src/linear_codes/multilinear_brakedown/mod.rs:108-119 | evaluates the chunk at 1, 2, ... into the segment and leaves the rest alone |
| BrakedownCode.WayDown | poly-commit/src/linear_codes/multilinear_brakedown/mod.rs:61-65 | appends the product with every A matrix to the message |
| BrakedownCode.WayBack | poly-commit/src/linear_codes/multilinear_brakedown/mod.rs:75-79 | fills the regions of the B matrices in increasing order of the levels |
| BrakedownCode.Encode | poly-commit/src/linear_codes/multilinear_brakedown/mod.rs:53-81 | errs exactly for a message of the wrong length; otherwise the specified codeword |
| BrakedownProperties.Systematic | poly-commit/src/linear_codes/multilinear_brakedown/mod.rs:53-81 | the message and everything before the base segment stand in the codeword unchanged |
| BrakedownProperties.DownSegment | poly-commit/src/linear_codes/multilinear_brakedown/mod.rs:61-65 | on the way down the region of level k is its A matrix times the region before it |
| BrakedownProperties.BaseSegment | poly-commit/src/linear_codes/multilinear_brakedown/mod.rs:68-73 | the base segment holds the last chunk evaluated at 1, 2, ... |
| BrakedownProperties.LevelSegment | poly-commit/src/linear_codes/multilinear_brakedown/mod.rs:75-79 | the region of level i is its B matrix times the buffer as the base code left it, in which the regions of deeper levels are still zero |
| BrakedownProperties.EncodedMix | poly-commit/src/linear_codes/multilinear_brakedown/mod.rs:53-81 | encode is linear |
| SparseMatrices.NewFromColumns | poly-commit/src/linear_codes/utils.rs:100-124 | fails exactly for a wrong number of columns, a column longer than n or too many entries; otherwise the compressed form holds the columns |
| SparseMatrices.NewFromFlat | poly-commit/src/linear_codes/utils.rs:74-99 | the same from a flat list, skipping zeros |
| SparseMatrices.RowMulIsDense | poly-commit/src/linear_codes/utils.rs:59-70 | row_mul on the compressed form is the dense vector-matrix product |
| SparseMatrices.FlatRowMul | poly-commit/src/linear_codes/utils.rs:59-99 | for a flat list it is the product with the columns as they stand |
| SparseMatrices.RowMulMix | poly-commit/src/linear_codes/utils.rs:59-70 | row_mul is linear |
| SparseMatrices.DenseNonZeros | poly-commit/src/linear_codes/utils.rs:74-99 | writing the nonzero entries out again gives the column back |
| LinearCodes.TensorVec | poly-commit/src/linear_codes/utils.rs:205-223 | the doubling loop builds the eq-table of its values |
| LinearCodePCS.SampleIndices | poly-commit/src/linear_codes/utils.rs:134-151 | squeezes t positions below n and returns the advanced transcript |
| LinearCodeCompleteness.ReedSolomonIsLinear | poly-commit/src/linear_codes/utils.rs:21-36 | evaluation at a fixed domain is a linear encoder |
| LinearCodes.UnivariateTensor | poly-commit/src/linear_codes/univariate_ligero/mod.rs:67-83 | the two loops give (1, z, ...) and (1, z^left, ...) |
| LinearCodeCompleteness.UnivariateTensorValue | poly-commit/src/linear_codes/univariate_ligero/mod.rs:67-83 | with that tensor the committed matrix gives the polynomial's value, padding and all |
| LinearCodes.EncodedColumn | poly-commit/src/linear_codes/mod.rs:124-144 | v times column j of the encoded matrix is entry j of the encoding of v times the matrix, for every linear encoder |
| LinearCodes.EncodeCombined | poly-commit/src/linear_codes/mod.rs:124-144 | encoding a combination of rows is the combination of the encoded rows |
| LinearCodes.UnivariateValue | poly-commit/src/linear_codes/mod.rs:124-144 | <b M, a> is the value of a univariate polynomial under the power split |
| LinearCodes.MultilinearValue | poly-commit/src/linear_codes/mod.rs:124-144 | <b M, a> is the value of a multilinear extension under the eq split |
| LinearCodeCompleteness.MultilinearTensorValue | poly-commit/src/linear_codes/mod.rs:306-379 | the same for the committed matrix, for power-of-two dimensions |
| LinearCodePCS.Open | poly-commit/src/linear_codes/mod.rs:306-379 | the proofs in order, the sponge threaded through; an error without a query count, a panic where row_mul gets a vector of the wrong length |
| LinearCodePCS.Check | poly-commit/src/linear_codes/mod.rs:381-496 | one commitment after the other, stopping at the first that is not accepted, with a panic for a missing proof; LinearCodeDecisions.CheckDecides and CheckDecidesAll say what is accepted |
| LinearCodeDecisions.IndicesAre | poly-commit/src/linear_codes/utils.rs:134-150 | the positions are what is squeezed, modulo the number of columns, each word after the ones before it have been absorbed again |
| LinearCodeDecisions.CheckDecides | poly-commit/src/linear_codes/mod.rs:393-493 | for every commitment, value and proof: accepted exactly if at every opened position there is a path for it that verifies for the hash of the column, the column matches the codewords of v and, with well-formedness, of that vector, and <v, a> is the value |
| LinearCodeDecisions.PathsDecide | poly-commit/src/linear_codes/mod.rs:438-452 | the paths are in order exactly if each is for its position and verifies for the hash of its column |
| LinearCodeDecisions.PathsRefuse | poly-commit/src/linear_codes/mod.rs:438-452 | false is answered exactly if the first path that is not in order is for its position but does not verify |
| LinearCodeDecisions.CheckDecidesAll | poly-commit/src/linear_codes/mod.rs:393-496 | a list is accepted exactly if there is a proof for every commitment and each is accepted on the transcript that the one before it left |
| LinearCodeDecisions.PaddedIs | poly-commit/src/linear_codes/mod.rs:509-511 | the leaves are extended with the default leaf to the least power of two that holds them |
| LinearCodeDecisions.CommitExists | poly-commit/src/linear_codes/mod.rs:234-303 | over a linear encoder every matrix with a row can be committed to |
| LinearCodeDecisions.OpensExist | poly-commit/src/linear_codes/mod.rs:306-378 | what was committed is opened exactly if there is a number of queries for every code length |
| LinearCodeCompleteness.PathsPass | poly-commit/src/linear_codes/mod.rs:445-457 | paths produced by the tree pass the path check at every index |
| LinearCodeCompleteness.OneAccepted | poly-commit/src/linear_codes/mod.rs:306-496 | one honest opening, with or without the well-formedness part: check answers whether the value is the tensored one and leaves the sponge where open left it |
| LinearCodeCompleteness.OpeningsAccepted | poly-commit/src/linear_codes/mod.rs:306-496 | for any list of honest commitments check answers whether all values are true, and if so leaves the sponge where open left it |
| LinearCodeBatches.LinearCodeIsComplete | poly-commit/src/linear_codes/mod.rs:306-496 | the scheme over a linear code meets what the batching theorems assume of a scheme |
| LinearCodeBatches.BatchAccepted | poly-commit/src/lib.rs:276-448 | so batch_check over it accepts what batch_open returned for true values |
| LinearCodeBatches.CombinationsExactly | poly-commit/src/lib.rs:452-583 | and check_combinations over it accepts exactly the true values of the combinations |
| LinearCodeQueries.LinearCodeIsExact | poly-commit/src/linear_codes/mod.rs:306-496 | check over a linear code accepts what open returned with exactly the true values |
| LinearCodeQueries.CompleteIffUnrepeated | poly-commit/src/lib.rs:452-583 | univariate linear code, end to end: for all polynomials, sponges and true claims check_combinations accepts what open_combinations returned, exactly if no pair of polynomial and point but the greatest is queried under several point labels |
| LinearCodeCompleteness.BrakedownIsLinear | poly-commit/src/linear_codes/multilinear_brakedown/mod.rs:25-104 | the Brakedown encoder meets the assumption of those theorems |
| MultilinearSetup.EqExtension | poly-commit/src/multilinear_pc/mod.rs:219-234 | table i is eq(t_i, bit i of x) over the whole hypercube |
| MultilinearSetup.EqTables | poly-commit/src/multilinear_pc/mod.rs:36-51 | after repeated products and downsampling, the i-th table is the eq-table of t_i.. over the remaining variables |
| MultilinearSetup.ThinnedTail | poly-commit/src/multilinear_pc/mod.rs:204-214 | thinning out the product of all variables from i on leaves their eq-table |
| MultilinearSetup.CutPowers | poly-commit/src/multilinear_pc/mod.rs:53-71 | the list of powers is cut at the tables |
| MultilinearSetup.Setup | poly-commit/src/multilinear_pc/mod.rs:28-86 | panics exactly for no variables; otherwise the keys are the eq-tables under the generators |
| MultilinearSetup.TrimIsHonest | poly-commit/src/multilinear_pc/mod.rs:91-111 | trimming drops the first secrets and stays honest, and fails exactly for too many variables |
| MultilinearExtensions.TableEvaluates | poly-commit/src/multilinear_pc/mod.rs:114-128 | the inner product with an eq-table is the value of the extension |
| MultilinearPC.OpenRound | poly-commit/src/multilinear_pc/mod.rs:147-157 | one round: the slope and the table with the variable fixed |
| MultilinearPC.Open | poly-commit/src/multilinear_pc/mod.rs:131-168 | panics exactly for a wrong number of variables or a short point; otherwise the specified proof |
| MultilinearExtensions.RoundTelescopes | poly-commit/src/multilinear_pc/mod.rs:147-157 | r_k(t) - r_{k-1}(t) == (t_i - z_i) * q_k(t) |
| MultilinearPC.OpeningTelescopes | poly-commit/src/multilinear_pc/mod.rs:131-200 | the pairings of the proof add up to g h (f(t) - f(z)) |
| MultilinearPC.Exactly | poly-commit/src/multilinear_pc/mod.rs:114-200 | check on the honest proof says whether g h times the error of the value is zero |
| MultilinearPC.CheckDecides | poly-commit/src/multilinear_pc/mod.rs:172-201 | for every commitment, value and proof under honest keys: a panic exactly for a short point or a wrong number of elements; otherwise accepted exactly if (c - g v) h == sum g (t_i - z_i) pi_i |
| MultilinearPC.AcceptsExactlyTheValue | poly-commit/src/multilinear_pc/mod.rs:91-200 | for every trim size 1..num_vars the true value is accepted, and with nonzero generators no other |
| KZG10.Setup | poly-commit/src/kzg10/mod.rs:55-126 | errs exactly for degree zero, panics exactly when the negative powers are asked for and the trapdoor is zero; otherwise all powers come from the trapdoor |
| KZG10.NegativePowers | poly-commit/src/kzg10/mod.rs:92-106 | entry i times beta^i is h |
| KZG10.SkipLeadingZeros | poly-commit/src/kzg10/mod.rs:453-462 | counts the zero coefficients at the low end |
| KZG10.SkipInner | poly-commit/src/kzg10/mod.rs:173-180 | leaving those coefficients and their powers out does not change the product |
| KZG10.Commit | poly-commit/src/kzg10/mod.rs:159-212 | the commitment and blinding as specified, or an error |
| KZG10.CommittedValue | poly-commit/src/kzg10/mod.rs:159-212 | the commitment is g p(beta) + gamma r(beta) |
| KZG10.WitnessDegree | poly-commit/src/kzg10/mod.rs:219-242 | the witness has smaller degree, so open never exceeds the key |
| KZG10.OpenedValue | poly-commit/src/kzg10/mod.rs:244-311 | the proof times beta - z is the difference of the values at beta and z, blinding included; random_v is present exactly if the blinding is not zero |
| KZG10.CheckIsExcess | poly-commit/src/kzg10/mod.rs:315-334 | check compares the remaining excess with zero |
| BatchChecks.BatchCheck | poly-commit/src/kzg10/mod.rs:338-392 | over the shortest of the four lists, decides the weighted sum of what the single checks compare; BatchChecks.BatchIs writes the sum out |
| BatchChecks.BehindShortest | poly-commit/src/kzg10/mod.rs:358 | claims behind the end of the shortest list are not looked at |
| BatchChecks.CheckIsDeficit | poly-commit/src/kzg10/mod.rs:315-334 | check accepts a claim exactly if it has no deficit |
| BatchChecks.BatchRefinesSingle | poly-commit/src/kzg10/mod.rs:338-392 | if check accepts all claims but one, the batch equation holds exactly if check accepts that one too, or it is not the first and zero was drawn for it |
| BatchChecks.AcceptedTogether | poly-commit/src/kzg10/mod.rs:338-392 | claims that check accepts one by one satisfy the batch equation |
| BatchChecks.BatchIs | poly-commit/src/kzg10/mod.rs:338-392 | the batch equation is e_0 + sum draws(i - 1) e_i == 0, e_i being the difference of the two sides that check compares for claim i |
| BatchChecks.TwoMustCancel | poly-commit/src/kzg10/mod.rs:338-392 | if check accepts all claims but two, the batch is accepted exactly if their differences cancel, the later times what was drawn before it |
| MarlinCompleteness.TrimIsHonest | poly-commit/src/marlin/marlin_pc/mod.rs:81-170 | trimming honest parameters gives keys with the largest bound's shifted powers |
| MarlinDecisions.TrimDecides | poly-commit/src/marlin/marlin_pc/mod.rs:81-170 | an error exactly for too large a degree, a panic exactly for too large a hiding or degree bound; otherwise keys of the sizes asked for |
| MarlinPC.Commit | poly-commit/src/marlin/marlin_pc/mod.rs:173-243 | commits to every polynomial in order; fails exactly if one is rejected |
| MarlinDecisions.CommitDecides | poly-commit/src/marlin/marlin_pc/mod.rs:193-232 | rejects exactly what does not fit the key, its bound or the blinding powers; the two commitments are blinded with coins of their own exactly if it hides |
| MarlinCompleteness.CommitOneOk | poly-commit/src/marlin/marlin_pc/mod.rs:193-232 | both commitments of a bounded polynomial open under beta, the second shifted by beta^(D-d) |
| MarlinCompleteness.CommitAllOk | poly-commit/src/marlin/marlin_pc/mod.rs:173-243 | the same for everything that commit returns |
| MarlinCompleteness.ShiftedWitness | poly-commit/src/marlin/marlin_pc/mod.rs:34-53 | the shifted witness over the largest-bound key is beta^(D-d) times the witness |
| MarlinPC.Open | poly-commit/src/marlin/marlin_pc/mod.rs:246-337 | the first polynomial whose turn fails decides between an error (bound) and a panic (blinding without a bound); otherwise the proofs of the accumulated polynomials are put together |
| MarlinDecisions.PositionIs | poly-commit/src/marlin/marlin_pc/mod.rs:267-303 | the challenges of polynomial n stand behind one for each earlier polynomial and one more for each earlier bounded one |
| MarlinDecisions.OpenFails | poly-commit/src/marlin/marlin_pc/mod.rs:267-282 | the first polynomial that cannot be opened decides: a panic for blinding that does not go with the bound, otherwise an error |
| MarlinDecisions.OpenDecides | poly-commit/src/marlin/marlin_pc/mod.rs:246-337 | otherwise open never panics and errs exactly if a combined polynomial does not fit its key |
| MarlinCompleteness.AccumulateOk | poly-commit/src/marlin/marlin_pc/mod.rs:266-309 | on committed polynomials no step panics and degrees stay within the keys |
| MarlinCompleteness.Exactly | poly-commit/src/marlin/marlin_pc/mod.rs:246-365 | for every mix of bounded, unbounded and hiding polynomials open succeeds, and check accepts exactly if h times the excess is zero |
| MarlinBlinding.AcceptedUnlessLost | poly-commit/src/marlin/marlin_pc/mod.rs:173-365 | whatever was committed is opened, and its true values are accepted exactly if h gamma times the lost blinding value is zero; nothing is lost unless the combined unshifted blinding is zero and the shifted one is not |
| MarlinBlinding.OpenThenCheck | poly-commit/src/marlin/marlin_pc/mod.rs:173-365 | commit, open and check from end to end: open succeeds on whatever was committed, and check answers whether h times the excess of the claimed values is zero |
| MarlinBlinding.LostBlindingRejects | poly-commit/src/marlin/marlin_pc/mod.rs:316-336 | an input that commit accepts: for the zero polynomial with an enforced bound, hidden with shifted blinding c + X, there are challenges for which the true value is accepted exactly if h gamma (c + z) is zero |
| MarlinBlinding.CompleteIff | poly-commit/src/marlin/marlin_pc/mod.rs:173-365 | committed polynomials are opened completely at every point and for all challenges exactly if every shifted blinding vanishes at every point (h and gamma not zero) |
| MarlinBlinding.CompleteIffUnhidden | poly-commit/src/marlin/marlin_pc/mod.rs:173-365 | exactly if no polynomial is both bounded and hidden, in a field with at least as many elements as the key has blinding powers |
| MarlinBatchCheck.CombineAndNormalize | poly-commit/src/marlin/mod.rs:152-220 | combined commitments, points and values in order; mismatched shifted commitments panic before bounds are looked up, an unsupported bound is an error, the first failure stops |
| MarlinBatchCheck.CombineDecides | poly-commit/src/marlin/mod.rs:152-220 | one query: a panic exactly for a shifted commitment without a bound or a bound without one, wherever it stands; an error exactly for another bound without a shift power |
| MarlinBatchCheck.FirstFails | poly-commit/src/marlin/mod.rs:152-220 | the first query that cannot be combined decides the outcome of batch_check |
| MarlinBatchCheck.BatchCheck | poly-commit/src/marlin/marlin_pc/mod.rs:367-399 | combines, panics for a wrong number of proofs, and decides the batched equation of KZG10 on the combined lists, which MarlinBatchCheck.BatchIs writes out |
| MarlinBatchCheck.FailsTogether | poly-commit/src/marlin/marlin_pc/mod.rs:341-399 | batch_check fails exactly if check fails for one of the queries |
| MarlinBatchCheck.AcceptedTogether | poly-commit/src/marlin/marlin_pc/mod.rs:341-399 | queries that check accepts one by one are accepted together |
| MarlinBatchCheck.BatchRefinesSingle | poly-commit/src/marlin/marlin_pc/mod.rs:341-399 | if check accepts all queries but one and does not fail for that one, the batch is accepted exactly if check accepts it too, or it is not the first and zero was drawn for it |
| MarlinBatchCheck.BatchIs | poly-commit/src/marlin/marlin_pc/mod.rs:367-399 | where check fails for no query: accepted exactly if e_0 + sum draws(i - 1) e_i == 0 for the differences of the two sides of check |
| MarlinBatchCheck.TwoMustCancel | poly-commit/src/marlin/marlin_pc/mod.rs:367-399 | if check accepts all queries but two, accepted exactly if their differences cancel, the later times what was drawn before it |
| MarlinBatchCheck.NumberOfProofs | poly-commit/src/marlin/marlin_pc/mod.rs:367-399 | a wrong number of proofs is never accepted, and panics if nothing failed before |
| MarlinBatchCheck.BatchComplete | poly-commit/src/marlin/marlin_pc/mod.rs:173-399 | what commit and open produced for true values is accepted in a batch, where no blinding can be lost |
| MarlinPC.CheckAll | poly-commit/src/marlin/marlin_pc/mod.rs:341-365 | decides check on the combined commitment and value; an unsupported bound is an error, a shifted commitment without a bound a panic, whichever comes first |
| MarlinDecisions.CheckDecides | poly-commit/src/marlin/marlin_pc/mod.rs:341-365 | for every list of commitments in order, values and proof: accepted exactly if the KZG10 equation holds for the sum of the commitments, shifted ones less the shift power times the value, and the sum of the values, each with the challenge at its place |
| MarlinDecisions.CheckFails | poly-commit/src/marlin/mod.rs:110-149 | the first commitment that is not in order decides: a panic for a shifted commitment without a bound or a bound without one, an error for a bound without a shift power |
| MarlinDecisions.LookupIs | poly-commit/src/marlin/marlin_pc/data_structures.rs:118-124 | a bound has a shift power exactly if the table has an entry for it |
| MarlinCompleteness.CombinedCommValue | poly-commit/src/marlin/mod.rs:110-149 | the verifier's combined and adjusted commitment in terms of values, shifted values and blindings |
| MarlinCompleteness.ShiftLookup | poly-commit/src/marlin/marlin_pc/data_structures.rs:118-124 | the look-up of a shift power finds g beta^(D-d) for every enforced bound |
| SonicPC.Trim | poly-commit/src/sonic_pc/mod.rs:162-274 | errs and panics exactly as stated; otherwise honest keys of the sizes asked for, with as many blinding powers for every bound as the parameters still have, and beta^-(D-d) for the verifier |
| SonicPC.Commit | poly-commit/src/sonic_pc/mod.rs:277-341 | commits to every polynomial in order; the first that is rejected decides between an error and a panic |
| SonicDecisions.CommitDecides | poly-commit/src/sonic_pc/mod.rs:291-337 | an error exactly for what does not fit its bound, the key or the blinding powers, never a panic; blinded with the coins exactly if it hides |
| SonicCompleteness.CommitAllOk | poly-commit/src/sonic_pc/mod.rs:277-341 | every commitment is that of the polynomial shifted by beta^(D-d), blinding included |
| SonicPC.Open | poly-commit/src/sonic_pc/mod.rs:343-385 | errs exactly for a bound out of order or too large a degree; otherwise the opening of the combination |
| SonicDecisions.OpenDecides | poly-commit/src/sonic_pc/mod.rs:343-385 | an error exactly for a bound out of order or a combined polynomial beyond the key, never a panic |
| SonicDecisions.CombinedCoef | poly-commit/src/sonic_pc/mod.rs:357-376 | every coefficient of the combined polynomial is the sum of those of the polynomials, number i with challenge i |
| SonicPC.AccumulateElems | poly-commit/src/sonic_pc/mod.rs:41-94 | one query goes into the per-bound sums, the witness and the adjusted witness |
| SonicCompleteness.ShiftCancels | poly-commit/src/sonic_pc/mod.rs:106-116 | the negative power undoes the shift of a commitment |
| SonicCompleteness.OpeningError | poly-commit/src/sonic_pc/mod.rs:41-94 | what is left of an honest opening in the pairing product is h g times the error of its combined value |
| SonicCompleteness.Exactly | poly-commit/src/sonic_pc/mod.rs:343-425 | check accepts what open returned exactly if h g times the error of the combined value is zero; so it accepts the true values |
| SonicCompleteness.Opens | poly-commit/src/sonic_pc/mod.rs:277-385 | whatever was committed can be opened |
| SonicPC.Check | poly-commit/src/sonic_pc/mod.rs:387-425 | decides the pairing product of one query; an unsupported bound is an error |
| SonicBatchCheck.CheckDecides | poly-commit/src/sonic_pc/mod.rs:387-425 | for every list of commitments, values and proof: an error exactly for an unsupported bound; otherwise accepted exactly if the commitments with their challenges, each paired with the element for its bound, balance h paired with g v + gamma r - z w and beta h paired with w |
| SonicCompleteness.BatchExactly | poly-commit/src/sonic_pc/mod.rs:427-497 | batch_check on what open returned says whether h g times the weighted sum of the errors vanishes |
| SonicCompleteness.BatchComplete | poly-commit/src/sonic_pc/mod.rs:427-497 | if all claimed values are true, batch_check accepts, whatever is drawn |
| SonicPC.BatchCheck | poly-commit/src/sonic_pc/mod.rs:450-496 | the loop accumulates every query with its randomizer, the first with one, and decides the pairing product of the sums, which SonicBatchCheck.BatchIs writes out |
| SonicBatchCheck.AddedResidual | poly-commit/src/sonic_pc/mod.rs:41-94 | for any commitments, values and proof: a query adds its residual, times its randomizer |
| SonicBatchCheck.CheckExactly | poly-commit/src/sonic_pc/mod.rs:96-137 | check errs exactly for an unsupported bound; otherwise it compares the residual with zero |
| SonicBatchCheck.ErrsTogether | poly-commit/src/sonic_pc/mod.rs:387-497 | batch_check errs exactly if check errs for one of the queries |
| SonicBatchCheck.AcceptedTogether | poly-commit/src/sonic_pc/mod.rs:387-497 | queries that check accepts one by one are accepted together |
| SonicBatchCheck.BatchRefinesSingle | poly-commit/src/sonic_pc/mod.rs:387-497 | if check accepts all queries but one and does not err for that one, the batch is accepted exactly if check accepts it too, or it is not the first and zero was drawn for it |
| SonicBatchCheck.BatchIs | poly-commit/src/sonic_pc/mod.rs:427-497 | accepted exactly if e_0 + sum draws(i - 1) e_i == 0 for these differences |
| SonicBatchCheck.TwoMustCancel | poly-commit/src/sonic_pc/mod.rs:427-497 | if check accepts all queries but two, accepted exactly if their differences cancel, the later times what was drawn before it |
| HyraxPC.FlatToMatrixColumnMajor | poly-commit/src/hyrax/utils.rs:12-20 | fails exactly for a wrong size; otherwise row i takes every n-th element from i on |
| HyraxDecisions.CommitDecides | poly-commit/src/hyrax/mod.rs:193-254 | an error exactly for an odd number of variables or a key shorter than that number, a panic exactly for a key or blindings of the wrong length; otherwise every row of the column-major matrix under its own blinding |
| HyraxPC.TensorPrimeIsEqTable | poly-commit/src/hyrax/utils.rs:26-38 | tensor_prime is the eq-table of the reversed values, hence tensor_vec of the reversed values |
| HyraxPC.TensorsAreEqTables | poly-commit/src/hyrax/mod.rs:297-307 | the two tensors are the eq-tables of the two halves of the point |
| HyraxPC.MatrixValue | poly-commit/src/hyrax/mod.rs:347-359 | L M R over the column-major matrix is the value of the multilinear extension |
| HyraxPC.OpenedValue | poly-commit/src/hyrax/mod.rs:273-409 | what com_eval commits to is the value of the polynomial at the point |
| HyraxPC.HonestOpening | poly-commit/src/hyrax/mod.rs:273-517 | both verifier equations hold for an honest opening, prover and verifier stay in step, and com_eval opens to the value |
| HyraxDecisions.OpeningIs | poly-commit/src/hyrax/mod.rs:348-405 | the commitments of an opening are those of the value and of its coins, and each response is its coin plus the challenge times what it masks |
| HyraxDecisions.ResponsesMask | poly-commit/src/hyrax/mod.rs:394-396 | under any challenge every response vector comes from exactly one mask |
| HyraxDecisions.OtherCommitments | poly-commit/src/hyrax/mod.rs:494-513 | an honest proof against other row commitments, under the same challenge c: accepted exactly if c (<coms', L> - <coms, L>) == 0 |
| HyraxPC.Check | poly-commit/src/hyrax/mod.rs:421-517 | errs for an odd number of variables; stops at the first commitment that is not accepted and returns the sponge; the claimed values are never read; HyraxDecisions.CheckDecides says when one is accepted |
| HyraxDecisions.CheckDecides | poly-commit/src/hyrax/mod.rs:453-514 | for every commitment and proof: accepted exactly if the numbers of rows and responses are right and equations (13) and (14) hold with the eq-tables of the two halves of the point and the challenge for all that was absorbed; and exactly when it errs or panics |
| HyraxDecisions.FirstDecides | poly-commit/src/hyrax/mod.rs:453-517 | the first commitment that is not accepted decides the outcome of a list |
| HyraxDecisions.AllDecided | poly-commit/src/hyrax/mod.rs:453-517 | if all that have a proof are accepted, so is the list, and the sponge is that after the last |
| HyraxPC.DecidesExactly | poly-commit/src/hyrax/mod.rs:445-517 | check accepts exactly if each of the first min(commitments, proofs) is accepted in turn; commitments behind the last proof do not matter |
| HyraxPC.Completeness | poly-commit/src/hyrax/mod.rs:273-517 | any list of honest openings in an even number of variables is accepted, and the two sponges end in the same state |
| HyraxBatches.HyraxIsComplete | poly-commit/src/hyrax/mod.rs:273-517 | Hyrax meets what the batching theorems assume of a scheme, whatever is taken for the values |
| HyraxBatches.AnyValuesAccepted | poly-commit/src/lib.rs:276-448 | so batch_check over it accepts what batch_open returned with whatever evaluations are claimed |
| LinearCombinations.GroupQueries | poly-commit/src/lib.rs:308-322 | the map from point labels to points and polynomial labels, in order |
| LinearCombinations.GroupsAsk | poly-commit/src/lib.rs:308-322 | point labels rise, and the groups ask for exactly the queried polynomials at each label |
| LinearCombinations.GroupsTrue | poly-commit/src/lib.rs:308-322 | where a point label stands for one point, a group asks only for queries that were made |
| BatchingDecisions.GroupsClimb | poly-commit/src/lib.rs:308-322 | within a group the polynomial labels rise strictly |
| BatchingDecisions.GroupsKeepFirst | poly-commit/src/lib.rs:308-322 | the point of a group is that of the first query under its label |
| LinearCombinations.BatchOpen | poly-commit/src/lib.rs:276-365 | one opening for each group, threaded through the sponge; a missing polynomial is an error |
| LinearCombinations.BatchCheck | poly-commit/src/lib.rs:380-448 | panics for a wrong number of proofs; checks every group; missing polynomials and evaluations are errors |
| BatchingDecisions.OpenedIs | poly-commit/src/lib.rs:324-364 | batch_open returns these proofs and this sponge exactly if all polynomials are there and the calls of open, one for each group, return them in turn |
| BatchingDecisions.OpenFailsAt | poly-commit/src/lib.rs:324-364 | the first group that is not opened decides between an error and a panic; an unknown polynomial is an error |
| BatchingDecisions.ClaimsAre | poly-commit/src/lib.rs:425-438 | the values handed to check are the evaluations of the polynomials at the point of the group, in order, and an error if one is missing |
| BatchingDecisions.CheckedIs | poly-commit/src/lib.rs:418-447 | the checks give this answer exactly if the calls of check answer in turn, on the sponge that the call before left, and all of them yes for a yes |
| BatchingDecisions.CheckFailsAt | poly-commit/src/lib.rs:418-447 | the first group whose check fails decides between an error and a panic; a missing polynomial or evaluation is an error |
| BatchingDecisions.BatchDecides | poly-commit/src/lib.rs:380-448 | for any proofs: yes exactly if there is one proof for every group and all groups are accepted in turn |
| LinearCombinations.BatchAccepted | poly-commit/src/lib.rs:276-448 | over a complete scheme batch_check accepts what batch_open returned and the two sponges end in the same state |
| LinearCombinations.LcQuerySetToPolyQuerySet | poly-commit/src/lib.rs:630-647 | the loop computes the derived query set |
| LinearCombinations.PolyRowsAre | poly-commit/src/lib.rs:611-647 | it holds exactly the polynomials that queried combinations mention, at the points of those queries |
| CombinationChecks.EvaluateQuerySet | poly-commit/src/lib.rs:590-609 | true values under every key in ascending order; panics exactly for an unknown polynomial |
| LinearCombinations.CheckEquations | poly-commit/src/lib.rs:532-564 | the first missing or false equation decides |
| BatchingDecisions.SideIs | poly-commit/src/lib.rs:540-556 | the right-hand side is the sum of the coefficients times the evaluations, constants as they are; an error exactly if an evaluation is missing |
| BatchingDecisions.EquationsAre | poly-commit/src/lib.rs:532-564 | all equations pass exactly if every query of a known combination has a claimed value that is that sum |
| BatchingDecisions.FirstFalse | poly-commit/src/lib.rs:532-564 | the first equation that does not hold decides: an error if something is missing, otherwise false |
| BatchingDecisions.TrueSumIs | poly-commit/src/lib.rs:540-556 | the true value of a combination is the sum of its coefficients times the values |
| LinearCombinations.ActualIsTrue | poly-commit/src/lib.rs:540-556 | with true evaluations the right-hand side is the true value of the combination |
| CombinationChecks.OpenCombinations | poly-commit/src/lib.rs:452-492 | the proof and the flat list of evaluations, or the error or panic |
| BatchingDecisions.UnknownPanics | poly-commit/src/lib.rs:600-604 | an unknown polynomial under any mentioned combination is a panic |
| BatchingDecisions.CombinationsOpen | poly-commit/src/lib.rs:452-492 | otherwise the proof is that of batch_open and the evaluations are the true values under all mentioned keys |
| CombinationChecks.CheckCombinations | poly-commit/src/lib.rs:496-583 | decides equations first and proofs afterwards |
| BatchingDecisions.CombinationsDecide | poly-commit/src/lib.rs:496-583 | for any proof: accepted exactly if there are evaluations, with them every equation holds, and every group is accepted in turn |
| QueryBatches.AlignedIff | poly-commit/src/lib.rs:518-530 | the verifier's sorted keys begin with the prover's exactly if no pair but the greatest is queried under several point labels |
| QueryBatches.PairedIff | poly-commit/src/lib.rs:518-530 | every flattened evaluation is paired with its own polynomial and point, whatever the polynomials, exactly under that condition |
| QueryBatches.MixedUp | poly-commit/src/lib.rs:518-530 | an input where it is not: the value of one polynomial is taken for another and one is missing |
| QueryBatches.SomeMisread | poly-commit/src/lib.rs:497-560 | otherwise there are two keys such that for all polynomials the value of the second is read under the first |
| CombinationChecks.CombinationsExactly | poly-commit/src/lib.rs:452-583 | over a complete scheme and under these conditions check_combinations accepts exactly the true values of the combinations from what open_combinations returned |
| CombinationChecks.ReadExactly | poly-commit/src/lib.rs:452-583 | over a complete scheme, where the verifier reads the true values, exactly the true claims are accepted |
| CombinationChecks.ReadsTrueIff | poly-commit/src/lib.rs:497-560 | the verifier reads the true values exactly if keys and evaluations are paired |
| CombinationChecks.AcceptedIffRead | poly-commit/src/lib.rs:452-583 | over a scheme whose check accepts exactly the true values, true claims are accepted exactly if the verifier reads the true values |
| OrderedSets.CollectedIs | poly-commit/src/lib.rs:519-524 | collecting into an ordered set gives an ascending list with exactly the same elements |
| LinearCodes.RowMulInner | poly-commit/src/utils.rs:141-169 | <v M, a> is the bilinear form over the rows |
| Numbers.CeilHalfIsCeilDiv | poly-commit/src/utils.rs:43-46 | halving i times, rounding up each time, is ceil_div by 2^i |

## Left out

- Curves, pairings, FFT, Pippenger, Merkle trees and hash functions: a group element is its discrete logarithm, a Merkle path is any path that verifies where the tree produced it.
- Soundness, hiding and binding, which are probabilistic and not decided by this code.
- Machine words: lengths and degrees are unbounded naturals.
- The polynomial libraries: coefficient lists keep trailing zeros, the order in which a sparse polynomial sorts its terms is not modelled, and library division is any quotient and remainder with f = Z * q + r and r short.
- Sorting and ordered maps of the standard library: where the order matters the ordered set is modelled (OrderedSets); in Sonic's and Marlin's trim the sorted list of degree bounds is a parameter.
- Floating-point choices (calculate_t, ent, cn, dn, compute_dimensions): arbitrary numbers of the stated shape.
- Labels other than those of query sets, serialization, constraint gadgets, timers, parallel iteration, prepared keys and retry loops for random sampling.
- Marlin's, Sonic's and the inner-product argument's own open_combinations and check_combinations: they add commitments instead of evaluations; only the default version of lib.rs is modelled.
- Grouping of queries inside the schemes' own batch checks (combine_and_normalize, Sonic, inner-product argument): it is that of LinearCombinations.GroupQueries; MarlinBatchCheck, SonicBatchCheck and IpaBatchCheck start from the groups, PST13BatchCheck from the combination of each group, which is the one that check makes.
- Default linear combinations over a scheme whose check is not complete, and query sets in which one point label stands for two points, which the documentation declares undefined.
- Parallel formulations of commit in the linear-code and Hyrax schemes: one polynomial at a time is modelled as a function, and lists of honest commitments are assumed element by element.
- Polynomials that claim more variables than the key: MarlinPST13Completeness and what follows speak of polynomials within the key; beyond it only commit and the panic of check are stated.
- The assertion of Sonic's and the inner-product argument's batch_check that there is one proof for each point: their queries carry their proof.
- Commitments and values handed to one check are lists of equal length, as every caller in the repository builds them; the source would stop at the shorter one.
- Combinations.Combinations.constructor: the panic for a length of zero or at least the size is its precondition.
- IpaVerifier.SuccinctCheck: the assertion that a commitment has a shifted part exactly if it has a bound, and bounds below the supported degree, are preconditions.
- MatrixSampling.MakeMat: the retry loop for nonzero values is a stream of nonzero values.
- LinearCodeCompleteness.OneAccepted: assumes of the hash functions only that paths produced by the tree verify, and of the encoder that it is linear on messages of the row length.
- LinearCombinations.BatchAccepted: assumes of the scheme that a single honest opening is accepted with the true values and leaves both sponges in the same state; LinearCodeBatches.LinearCodeIsComplete and HyraxBatches.HyraxIsComplete prove this for the linear codes and Hyrax; the other schemes are not connected.
