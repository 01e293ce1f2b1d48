/** batch_check of the inner-product argument (ipa_pc/mod.rs): the check polynomials are summed
    with randomizers, so that one multiplication with the key checks all final keys. */
module IpaBatchCheck {
  import opened PrimeField
  import opened Numbers
  import opened Vectors
  import opened CheckPolynomial
  import opened IpaRounds
  import opened InnerProductPC
  import opened IpaVerifier
  import BatchChecks
  import D = IpaDecisions
  import KzgVerifier

  /** The openings at one point, with what the sponge answers while they are checked. */
  datatype Query = Query(comms: seq<LabeledCommitment>, point: Fp, values: seq<Fp>, proof: Proof, xi: Squeezes,
                         oracle: Oracle)

  ghost predicate QueryOk(vk: Key, q: Query) {
    ShiftsPresent(q.comms) && BoundsFit(vk.SupportedDegree(), q.comms)
  }

  ghost predicate QueriesOk(vk: Key, qs: seq<Query>) {
    forall i :: 0 <= i < |qs| ==> QueryOk(vk, qs[i])
  }

  /** The outcome of succinct_check, with the difference between the key folded with the query's
      challenges and the claimed final key when it passes. */
  ghost function Verdict(vk: Key, q: Query): Outcome<Option<Fp>>
    requires QueryOk(vk, q)
  {
    match SuccinctCheckSpec(false, vk, q.comms, q.point, q.values, q.proof, q.xi, q.oracle)
    case Err => Err
    case Panic => Panic
    case Ok(None) => Ok(None)
    case Ok(Some(ch)) => Ok(Some(Sub(Inner(vk.commKey, Coeffs(ch)), q.proof.finalCommKey)))
  }

  ghost function Verdicts(vk: Key, qs: seq<Query>): (r: seq<Outcome<Option<Fp>>>)
    requires QueriesOk(vk, qs)
    ensures |r| == |qs| && forall i :: 0 <= i < |r| ==> QueryOk(vk, qs[i]) && r[i] == Verdict(vk, qs[i])
  {
    seq(|qs|, i requires 0 <= i < |qs| => assert QueryOk(vk, qs[i]); Verdict(vk, qs[i]))
  }

  predicate Passes(v: Outcome<Option<Fp>>) {
    v.Ok? && v.value.Some?
  }

  ghost predicate AllPass(vs: seq<Outcome<Option<Fp>>>, n: nat)
    requires n <= |vs|
  {
    forall i :: 0 <= i < n ==> Passes(vs[i])
  }

  ghost function WeightedErrors(vs: seq<Outcome<Option<Fp>>>, draws: BatchChecks.Draws, n: nat): Fp
    requires n <= |vs| && AllPass(vs, n)
  {
    if n == 0 then 0
    else Add(WeightedErrors(vs, draws, n - 1), Mul(BatchChecks.Randomizer(draws, n - 1), vs[n - 1].value.value))
  }

  /** Panics and rejections in the order of the queries; the final keys are compared at the end. */
  ghost function BatchSpec(vs: seq<Outcome<Option<Fp>>>, draws: BatchChecks.Draws, from: nat): Outcome<bool>
    requires from <= |vs| && AllPass(vs, from)
    decreases |vs| - from
  {
    if from == |vs| then Ok(WeightedErrors(vs, draws, from) == 0)
    else
      match vs[from]
      case Err => Err
      case Panic => Panic
      case Ok(None) => Ok(false)
      case Ok(Some(_)) => BatchSpec(vs, draws, from + 1)
  }

  lemma ErrorStep(keyed: Fp, final: Fp, coeffs: Fp, claimed: Fp, rho: Fp)
    ensures Sub(Add(keyed, Mul(rho, coeffs)), Add(final, Mul(claimed, rho)))
            == Add(Sub(keyed, final), Mul(rho, Sub(coeffs, claimed)))
  {
    Commutes(claimed, rho);
    BatchChecks.SubSums(keyed, Mul(rho, coeffs), final, Mul(rho, claimed));
    KzgVerifier.FactorOut(rho, coeffs, claimed);
  }

  /** Adds one query's check polynomial and final key. */
  method AddQuery(vk: Key, q: Query, randomizer: Fp, combinedCheckPoly: seq<Fp>, combinedFinalKey: Fp, ghost sum: Fp)
    returns (verdict: Outcome<bool>, checkPoly': seq<Fp>, finalKey': Fp)
    requires QueryOk(vk, q) && Sub(Inner(vk.commKey, combinedCheckPoly), combinedFinalKey) == sum
    ensures match Verdict(vk, q)
            case Err => verdict == Panic
            case Panic => verdict == Panic
            case Ok(None) => verdict == Ok(false)
            case Ok(Some(error)) =>
              && verdict == Ok(true)
              && Sub(Inner(vk.commKey, checkPoly'), finalKey') == Add(sum, Mul(randomizer, error))
  {
    checkPoly', finalKey' := combinedCheckPoly, combinedFinalKey;
    var checkPoly := SuccinctCheck(vk, q.comms, q.point, q.values, q.proof, q.xi, q.oracle);
    if !checkPoly.Ok? {
      return Panic, checkPoly', finalKey';
    }
    if checkPoly.value.None? {
      return Ok(false), checkPoly', finalKey';
    }
    var coeffs := ComputeCoeffs(checkPoly.value.value);
    InnerPlusRight(combinedCheckPoly, Scale(randomizer, coeffs), vk.commKey);
    InnerScale(randomizer, coeffs, vk.commKey);
    ErrorStep(Inner(vk.commKey, combinedCheckPoly), combinedFinalKey, Inner(vk.commKey, coeffs), q.proof.finalCommKey,
              randomizer);
    checkPoly' := Plus(combinedCheckPoly, Scale(randomizer, coeffs));
    finalKey' := Add(combinedFinalKey, Mul(q.proof.finalCommKey, randomizer));
    verdict := Ok(true);
  }

  method BatchCheck(vk: Key, qs: seq<Query>, draws: BatchChecks.Draws) returns (r: Outcome<bool>)
    requires QueriesOk(vk, qs)
    ensures r == BatchSpec(Verdicts(vk, qs), draws, 0)
  {
    var randomizer: Fp, combinedCheckPoly: seq<Fp>, combinedFinalKey: Fp := 1, [], 0;
    ghost var vs := Verdicts(vk, qs);
    SubZero(0, 0);
    for i := 0 to |qs|
      invariant AllPass(vs, i) && randomizer == BatchChecks.Randomizer(draws, i)
      invariant BatchSpec(vs, draws, 0) == BatchSpec(vs, draws, i)
      invariant Sub(Inner(vk.commKey, combinedCheckPoly), combinedFinalKey) == WeightedErrors(vs, draws, i)
    {
      assert QueryOk(vk, qs[i]) && vs[i] == Verdict(vk, qs[i]);
      NeverErr(vk, qs[i]);
      var verdict, checkPoly, finalKey :=
        AddQuery(vk, qs[i], randomizer, combinedCheckPoly, combinedFinalKey, WeightedErrors(vs, draws, i));
      if verdict != Ok(true) { return verdict; }
      combinedCheckPoly, combinedFinalKey := checkPoly, finalKey;
      randomizer := draws(i);
    }
    var finalKey := Inner(vk.commKey, combinedCheckPoly);
    return Ok(Sub(finalKey, combinedFinalKey) == 0);
  }

  lemma NeverErr(vk: Key, q: Query)
    requires QueryOk(vk, q)
    ensures Verdict(vk, q) != Err
  {
  }

  // ----- against the separate checks

  ghost predicate RightLength(vk: Key, q: Query) {
    |q.proof.lVec| == |q.proof.rVec| == Log2(|vk.commKey|)
  }

  ghost predicate Accepted(vk: Key, q: Query)
    requires QueryOk(vk, q) && |vk.commKey| == Pow2(Log2(|vk.commKey|))
  {
    CheckSpec(false, vk, q.comms, q.point, q.values, q.proof, q.xi, q.oracle) == Ok(true)
  }

  lemma AcceptedMeans(vk: Key, q: Query)
    requires QueryOk(vk, q) && |vk.commKey| == Pow2(Log2(|vk.commKey|))
    ensures Accepted(vk, q) <==> RightLength(vk, q) && Verdict(vk, q) == Ok(Some(0))
  {
  }

  lemma {:induction false} NoErrors(vs: seq<Outcome<Option<Fp>>>, draws: BatchChecks.Draws, n: nat)
    requires n <= |vs| && forall i :: 0 <= i < n ==> vs[i] == Ok(Some(0))
    ensures AllPass(vs, n) && WeightedErrors(vs, draws, n) == 0
  {
    if n > 0 {
      NoErrors(vs, draws, n - 1);
      Units(BatchChecks.Randomizer(draws, n - 1));
      Units(0);
    }
  }

  /** The errors of the queries that pass, in order. */
  ghost function ErrorsOf(vs: seq<Outcome<Option<Fp>>>): (r: seq<Fp>)
    requires AllPass(vs, |vs|)
    ensures |r| == |vs| && forall i :: 0 <= i < |r| ==> vs[i] == Ok(Some(r[i]))
  {
    seq(|vs|, i requires 0 <= i < |vs| && AllPass(vs, |vs|) => assert Passes(vs[i]); vs[i].value.value)
  }

  lemma {:induction false} ErrorsWeighted(vs: seq<Outcome<Option<Fp>>>, draws: BatchChecks.Draws, n: nat)
    requires n <= |vs| && AllPass(vs, |vs|)
    ensures AllPass(vs, n) && WeightedErrors(vs, draws, n) == BatchChecks.WeightedSum(ErrorsOf(vs), draws, n)
  {
    if n > 0 {
      assert Passes(vs[n - 1]);
      ErrorsWeighted(vs, draws, n - 1);
    }
  }

  lemma {:induction false} ReachesTheEnd(vs: seq<Outcome<Option<Fp>>>, draws: BatchChecks.Draws, from: nat)
    requires from <= |vs| && AllPass(vs, |vs|)
    ensures BatchSpec(vs, draws, from) == Ok(WeightedErrors(vs, draws, |vs|) == 0)
    decreases |vs| - from
  {
    if from < |vs| {
      assert Passes(vs[from]);
      ReachesTheEnd(vs, draws, from + 1);
    }
  }

  /** The first query that does not pass decides. */
  lemma {:induction false} StopsAt(vs: seq<Outcome<Option<Fp>>>, draws: BatchChecks.Draws, from: nat, j: nat)
    requires from <= j < |vs| && AllPass(vs, j) && !Passes(vs[j])
    ensures BatchSpec(vs, draws, from) == if vs[j].Ok? then Ok(false) else if vs[j].Err? then Err else Panic
    decreases j - from
  {
    if from < j {
      assert Passes(vs[from]);
      StopsAt(vs, draws, from + 1, j);
    }
  }

  /** Queries that check accepts one by one are accepted together. */
  lemma {:induction false} AcceptedTogether(vk: Key, qs: seq<Query>, draws: BatchChecks.Draws)
    requires QueriesOk(vk, qs) && |vk.commKey| == Pow2(Log2(|vk.commKey|))
    requires forall i :: 0 <= i < |qs| ==> QueryOk(vk, qs[i]) && Accepted(vk, qs[i])
    ensures BatchSpec(Verdicts(vk, qs), draws, 0) == Ok(true)
  {
    var vs := Verdicts(vk, qs);
    forall i | 0 <= i < |qs| ensures vs[i] == Ok(Some(0)) { AcceptedMeans(vk, qs[i]); }
    NoErrors(vs, draws, |qs|);
    ReachesTheEnd(vs, draws, 0);
  }

  /** If check accepts all queries but one, the batch is accepted exactly when that one passes
      the succinct check and its final key is the folded one, or passes it, is not the first and
      zero was drawn for it.  This is for every proof, whatever the lengths of its vectors. */
  lemma {:induction false} BatchRefinesSingle(vk: Key, qs: seq<Query>, draws: BatchChecks.Draws, j: nat)
    requires QueriesOk(vk, qs) && |vk.commKey| == Pow2(Log2(|vk.commKey|)) && j < |qs| && QueryOk(vk, qs[j])
    requires forall i :: 0 <= i < |qs| && i != j ==> QueryOk(vk, qs[i]) && Accepted(vk, qs[i])
    ensures BatchSpec(Verdicts(vk, qs), draws, 0) == Ok(true)
            <==> Verdict(vk, qs[j]) == Ok(Some(0))
                 || (Passes(Verdict(vk, qs[j])) && j > 0 && draws(j - 1) == 0)
  {
    var vs := Verdicts(vk, qs);
    forall i | 0 <= i < |qs| && i != j ensures vs[i] == Ok(Some(0)) { AcceptedMeans(vk, qs[i]); }
    OneOfThem(vs, draws, j);
  }

  /** Unless zero was drawn for it, the batch and check agree on that query exactly when its
      proof has the right length or its verdict is not a pass anyway; and of the accepted
      batches exactly those are accepted by check whose proof has the right length. */
  lemma {:induction false} AgreesIffLength(vk: Key, qs: seq<Query>, draws: BatchChecks.Draws, j: nat)
    requires QueriesOk(vk, qs) && |vk.commKey| == Pow2(Log2(|vk.commKey|)) && j < |qs| && QueryOk(vk, qs[j])
    requires forall i :: 0 <= i < |qs| && i != j ==> QueryOk(vk, qs[i]) && Accepted(vk, qs[i])
    requires j > 0 ==> draws(j - 1) != 0
    ensures (BatchSpec(Verdicts(vk, qs), draws, 0) == Ok(true) <==> Accepted(vk, qs[j]))
            <==> RightLength(vk, qs[j]) || Verdict(vk, qs[j]) != Ok(Some(0))
    ensures BatchSpec(Verdicts(vk, qs), draws, 0) == Ok(true) ==> (Accepted(vk, qs[j]) <==> RightLength(vk, qs[j]))
  {
    BatchRefinesSingle(vk, qs, draws, j);
    AcceptedMeans(vk, qs[j]);
  }

  lemma {:induction false} OneOfThem(vs: seq<Outcome<Option<Fp>>>, draws: BatchChecks.Draws, j: nat)
    requires j < |vs| && forall i :: 0 <= i < |vs| && i != j ==> vs[i] == Ok(Some(0))
    ensures BatchSpec(vs, draws, 0) == Ok(true)
            <==> vs[j] == Ok(Some(0)) || (Passes(vs[j]) && j > 0 && draws(j - 1) == 0)
  {
    if Passes(vs[j]) {
      ReachesTheEnd(vs, draws, 0);
      ErrorsWeighted(vs, draws, |vs|);
      BatchChecks.OneWrong(ErrorsOf(vs), draws, |vs|, j);
    } else {
      StopsAt(vs, draws, 0, j);
    }
  }

  // ----- the batched equation written out

  /** What the verdict on a query is: the difference between the key folded with the challenges and the
      final key, if the rounds balance. */
  lemma VerdictIs(vk: Key, q: Query, view: D.View)
    requires QueryOk(vk, q) && (q.proof.hidingComm.Some? <==> q.proof.rand.Some?)
    requires D.Sees(view, vk, q.comms, q.point, q.values, q.proof, q.xi, q.oracle)
    ensures Verdict(vk, q)
            == if !D.NoneZero(view.challenges) then Panic
               else if !D.RoundsBalance(view, q.point, q.proof) then Ok(None)
               else Ok(Some(Sub(Inner(vk.commKey, Coeffs(view.challenges)), q.proof.finalCommKey)))
  {
    D.SuccinctDecides(vk, q.comms, q.point, q.values, q.proof, q.xi, q.oracle, view);
  }

  /** Where all queries pass, batch_check compares with zero the error of the first plus those of the
      others, each times what was drawn before it. */
  lemma {:induction false} BatchIs(vs: seq<Outcome<Option<Fp>>>, draws: BatchChecks.Draws)
    requires AllPass(vs, |vs|)
    ensures BatchSpec(vs, draws, 0) == Ok(Sum(BatchChecks.Terms(ErrorsOf(vs), draws)) == 0)
  {
    ReachesTheEnd(vs, draws, 0);
    ErrorsWeighted(vs, draws, |vs|);
    BatchChecks.WeightedSumIs(ErrorsOf(vs), draws, |vs|);
    assert BatchChecks.Terms(ErrorsOf(vs), draws)[..|vs|] == BatchChecks.Terms(ErrorsOf(vs), draws);
  }

  /** If check accepts all queries but two and those pass, the batch is accepted exactly if their errors
      cancel, that of the first query as it is and others times what was drawn before them. */
  lemma {:induction false} TwoMustCancel(vk: Key, qs: seq<Query>, draws: BatchChecks.Draws, i: nat, j: nat, e: Fp,
                                         f: Fp)
    requires QueriesOk(vk, qs) && |vk.commKey| == Pow2(Log2(|vk.commKey|)) && i < j < |qs|
    requires QueryOk(vk, qs[i]) && Verdict(vk, qs[i]) == Ok(Some(e))
    requires QueryOk(vk, qs[j]) && Verdict(vk, qs[j]) == Ok(Some(f))
    requires forall k :: 0 <= k < |qs| && k != i && k != j ==> QueryOk(vk, qs[k]) && Accepted(vk, qs[k])
    ensures BatchSpec(Verdicts(vk, qs), draws, 0)
            == Ok(Add(if i == 0 then e else Mul(draws(i - 1), e), Mul(draws(j - 1), f)) == 0)
  {
    var vs := Verdicts(vk, qs);
    forall k | 0 <= k < |qs| && k != i && k != j ensures vs[k] == Ok(Some(0)) { AcceptedMeans(vk, qs[k]); }
    assert AllPass(vs, |vs|);
    ReachesTheEnd(vs, draws, 0);
    ErrorsWeighted(vs, draws, |vs|);
    BatchChecks.TwoWrong(ErrorsOf(vs), draws, |vs|, i, j);
  }

  // ----- the lengths of the proof vectors

  /** The constant polynomial c, committed without blinding, with a proof without rounds. */
  function ConstantQuery(vk: Key, c: Fp, point: Fp, xi: Squeezes, oracle: Oracle): Query
    requires vk.commKey != []
  {
    Query([LabeledCommitment(Commitment(Mul(vk.commKey[0], c), None), None)], point, [c],
          Proof([], [], vk.commKey[0], Mul(xi(0), c), None, None), xi, oracle)
  }

  /** Inputs on which the two differ, under every key with more than one element: a proof without
      rounds for the true value of a constant is accepted in a batch, while check refuses its
      length. */
  lemma {:induction false} LengthsNotCompared(vk: Key, c: Fp, point: Fp, xi: Squeezes, oracle: Oracle,
                                              draws: BatchChecks.Draws)
    requires |vk.commKey| == Pow2(Log2(|vk.commKey|)) && Log2(|vk.commKey|) > 0
    ensures var q := ConstantQuery(vk, c, point, xi, oracle);
            && QueriesOk(vk, [q]) && BatchSpec(Verdicts(vk, [q]), draws, 0) == Ok(true)
            && CheckSpec(false, vk, q.comms, q.point, q.values, q.proof, q.xi, q.oracle) == Err
  {
    var q := ConstantQuery(vk, c, point, xi, oracle);
    assert q.comms[0].degreeBound.None?;
    assert QueryOk(vk, q);
    ConstantVerdict(vk, c, point, xi, oracle);
    SingleQuery(vk, q, draws);
  }

  lemma SingleQuery(vk: Key, q: Query, draws: BatchChecks.Draws)
    requires QueryOk(vk, q) && Verdict(vk, q) == Ok(Some(0))
    ensures QueriesOk(vk, [q]) && BatchSpec(Verdicts(vk, [q]), draws, 0) == Ok(true)
  {
    assert [q][0] == q;
    OneOfThem(Verdicts(vk, [q]), draws, 0);
  }

  lemma ConstantVerdict(vk: Key, c: Fp, point: Fp, xi: Squeezes, oracle: Oracle)
    requires vk.commKey != [] && QueryOk(vk, ConstantQuery(vk, c, point, xi, oracle))
    ensures Verdict(vk, ConstantQuery(vk, c, point, xi, oracle)) == Ok(Some(0))
  {
    var q, d, k, v := ConstantQuery(vk, c, point, xi, oracle), vk.SupportedDegree(), vk.commKey[0], Mul(xi(0), c);
    assert CombinedValue(d, q.comms, q.values, point, xi, 1) == v by { Units(v); }
    assert CombinedCommitment(q.comms, xi, 1) == Mul(k, v) by { ConstantCommitment(k, c, xi(0)); }
    var hPrime := Mul(vk.h, oracle(InitialQuery(Mul(k, v), point, v)));
    assert Mul(LastPower(false, point, []), v) == v by { Units(v); }
    assert Inner([k, hPrime], [v, v]) == Add(Mul(k, v), Mul(hPrime, v)) by {
      TwoElements(k, hPrime, v, 1);
      Units(v);
    }
    var sum := Add(Mul(k, v), Mul(hPrime, v));
    SubZero(sum, sum);
    InnerOneKey(vk.commKey);
    SubZero(k, k);
  }

  lemma ConstantCommitment(k: Fp, c: Fp, x: Fp)
    ensures Add(0, Mul(Mul(k, c), x)) == Mul(k, Mul(x, c))
  {
    RingLaws();
  }

  lemma InnerOneKey(key: seq<Fp>)
    requires key != []
    ensures Inner(key, Coeffs([])) == key[0]
  {
    assert Coeffs([]) == [1];
    assert [1][1..] == [];
    Units(key[0]);
  }
}
