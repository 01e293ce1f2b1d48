/** Checking openings of the inner-product argument (ipa_pc/mod.rs): the logarithmic verifier
    decides as one that folds the key and the powers of the point, and honest proofs pass. */
module IpaVerifier {
  import opened PrimeField
  import opened Numbers
  import opened Vectors
  import opened Polynomials
  import opened CheckPolynomial
  import opened IpaRounds
  import opened InnerProductPC

  function Min(a: nat, b: nat): nat {
    if a < b then a else b
  }

  /** The commitment after the blinding has been taken out. */
  function Unblinded(vk: Key, commitment: Fp, point: Fp, value: Fp, proof: Proof, oracle: Oracle): Fp
    requires proof.hidingComm.Some? <==> proof.rand.Some?
  {
    if proof.hidingComm.None? then commitment else
      var hidingComm := proof.hidingComm.value;
      var challenge := oracle(HidingQuery(commitment, point, value, hidingComm));
      Add(commitment, Sub(Mul(hidingComm, challenge), Mul(vk.s, proof.rand.value)))
  }

  /** How the verifier obtains the last power of the point: by folding, or from the product. */
  function LastPower(folding: bool, point: Fp, ch: seq<Fp>): Fp {
    if folding then FoldAll(PowersFrom(1, point, Pow2(|ch|)), ch)[0] else ProductAt(ch, point)
  }

  /** How the verifier obtains the last key: by folding, or with one multiplication. */
  function LastKey(folding: bool, key: seq<Fp>, ch: seq<Fp>): Fp
    requires |key| == Pow2(|ch|)
  {
    if folding then FoldAll(key, ch)[0] else Inner(key, Coeffs(ch))
  }

  /** succinct_check: the round challenges if the proof passes. */
  function SuccinctCheckSpec(folding: bool, vk: Key, comms: seq<LabeledCommitment>, point: Fp, values: seq<Fp>,
                             proof: Proof, xi: Squeezes, oracle: Oracle): (r: Outcome<Option<seq<Fp>>>)
    requires ShiftsPresent(comms) && BoundsFit(vk.SupportedDegree(), comms)
    ensures r.Ok? && r.value.Some? ==> |r.value.value| == Min(|proof.lVec|, |proof.rVec|)
  {
    if proof.hidingComm.Some? != proof.rand.Some? then Panic else
      var n := Min(|comms|, |values|);
      var value := CombinedValue(vk.SupportedDegree(), comms, values, point, xi, n);
      var commitment := Unblinded(vk, CombinedCommitment(comms, xi, n), point, value, proof, oracle);
      var challenge := oracle(InitialQuery(commitment, point, value));
      var hPrime := Mul(vk.h, challenge);
      match RoundSum(Add(commitment, Mul(hPrime, value)), challenge, proof.lVec, proof.rVec, oracle)
      case None => Panic
      case Some(sum) =>
        var ch := Challenges(challenge, proof.lVec, proof.rVec, oracle);
        var vPrime := Mul(LastPower(folding, point, ch), proof.c);
        if Sub(sum, Inner([proof.finalCommKey, hPrime], [proof.c, vPrime])) != 0 then Ok(None) else Ok(Some(ch))
  }

  /** check. */
  function CheckSpec(folding: bool, vk: Key, comms: seq<LabeledCommitment>, point: Fp, values: seq<Fp>, proof: Proof,
                     xi: Squeezes, oracle: Oracle): Outcome<bool>
    requires ShiftsPresent(comms) && BoundsFit(vk.SupportedDegree(), comms)
    requires |vk.commKey| == Pow2(Log2(|vk.commKey|))
  {
    if |proof.lVec| != |proof.rVec| || |proof.lVec| != Log2(|vk.commKey|) then Err else
      match SuccinctCheckSpec(folding, vk, comms, point, values, proof, xi, oracle)
      case Err => Err
      case Panic => Panic
      case Ok(None) => Ok(false)
      case Ok(Some(ch)) => Ok(Sub(LastKey(folding, vk.commKey, ch), proof.finalCommKey) == 0)
  }

  /** For every proof, honest or not, the logarithmic verifier returns what the verifier that
      folds the key and the powers of the point round by round returns. */
  lemma CheckRefinesFolding(vk: Key, comms: seq<LabeledCommitment>, point: Fp, values: seq<Fp>, proof: Proof,
                            xi: Squeezes, oracle: Oracle)
    requires ShiftsPresent(comms) && BoundsFit(vk.SupportedDegree(), comms)
    requires |vk.commKey| == Pow2(Log2(|vk.commKey|))
    ensures CheckSpec(false, vk, comms, point, values, proof, xi, oracle)
            == CheckSpec(true, vk, comms, point, values, proof, xi, oracle)
  {
    SuccinctRefinesFolding(vk, comms, point, values, proof, xi, oracle);
    var r := SuccinctCheckSpec(false, vk, comms, point, values, proof, xi, oracle);
    if |proof.lVec| == |proof.rVec| == Log2(|vk.commKey|) && r.Ok? && r.value.Some? {
      FoldAllIsInner(vk.commKey, r.value.value);
    }
  }

  lemma SuccinctRefinesFolding(vk: Key, comms: seq<LabeledCommitment>, point: Fp, values: seq<Fp>, proof: Proof,
                               xi: Squeezes, oracle: Oracle)
    requires ShiftsPresent(comms) && BoundsFit(vk.SupportedDegree(), comms)
    ensures SuccinctCheckSpec(false, vk, comms, point, values, proof, xi, oracle)
            == SuccinctCheckSpec(true, vk, comms, point, values, proof, xi, oracle)
  {
    forall ch: seq<Fp> ensures LastPower(false, point, ch) == LastPower(true, point, ch) {
      FoldedPowers(point, ch);
    }
  }

  /** succinct_check. */
  method SuccinctCheck(vk: Key, comms: seq<LabeledCommitment>, point: Fp, values: seq<Fp>, proof: Proof, xi: Squeezes,
                       oracle: Oracle) returns (r: Outcome<Option<seq<Fp>>>)
    requires ShiftsPresent(comms) && BoundsFit(vk.SupportedDegree(), comms)
    ensures r == SuccinctCheckSpec(false, vk, comms, point, values, proof, xi, oracle)
  {
    var d := vk.SupportedDegree();
    var combinedCommitment: Fp, combinedV: Fp := 0, 0;
    for i := 0 to Min(|comms|, |values|)
      invariant combinedV == CombinedValue(d, comms, values, point, xi, i)
      invariant combinedCommitment == CombinedCommitment(comms, xi, i)
    {
      var c := comms[i].commitment;
      assert comms[i].degreeBound.Some? <==> c.shiftedComm.Some?;
      combinedV := Add(combinedV, Mul(xi(2 * i), values[i]));
      combinedCommitment := Add(combinedCommitment, Mul(c.comm, xi(2 * i)));
      if comms[i].degreeBound.Some? {
        var shift := Pow(point, d - comms[i].degreeBound.value);
        combinedV := Add(combinedV, Mul(Mul(xi(2 * i + 1), values[i]), shift));
        combinedCommitment := Add(combinedCommitment, Mul(c.shiftedComm.value, xi(2 * i + 1)));
      }
    }
    if proof.hidingComm.Some? != proof.rand.Some? {
      return Panic;
    }
    if proof.hidingComm.Some? {
      var hidingChallenge := oracle(HidingQuery(combinedCommitment, point, combinedV, proof.hidingComm.value));
      combinedCommitment := Add(combinedCommitment,
                                Sub(Mul(proof.hidingComm.value, hidingChallenge), Mul(vk.s, proof.rand.value)));
    }
    var roundChallenge := oracle(InitialQuery(combinedCommitment, point, combinedV));
    var hPrime := Mul(vk.h, roundChallenge);
    var sum, roundChallenges := VerifierLoop(Add(combinedCommitment, Mul(hPrime, combinedV)), roundChallenge,
                                             proof.lVec, proof.rVec, oracle);
    if sum.None? {
      return Panic;
    }
    var evaluation := Evaluate(roundChallenges, point);
    var vPrime := Mul(evaluation, proof.c);
    var checkCommitmentElem := Inner([proof.finalCommKey, hPrime], [proof.c, vPrime]);
    if Sub(sum.value, checkCommitmentElem) != 0 {
      return Ok(None);
    }
    return Ok(Some(roundChallenges));
  }

  /** check, on the power-of-two key that trim leaves. */
  method Check(vk: Key, comms: seq<LabeledCommitment>, point: Fp, values: seq<Fp>, proof: Proof, xi: Squeezes,
               oracle: Oracle) returns (r: Outcome<bool>)
    requires ShiftsPresent(comms) && BoundsFit(vk.SupportedDegree(), comms)
    requires |vk.commKey| == Pow2(Log2(|vk.commKey|))
    ensures r == CheckSpec(false, vk, comms, point, values, proof, xi, oracle)
  {
    if |proof.lVec| != |proof.rVec| || |proof.lVec| != Log2(|vk.commKey|) {
      return Err;
    }
    var checkPoly := SuccinctCheck(vk, comms, point, values, proof, xi, oracle);
    if !checkPoly.Ok? {
      return Panic;
    }
    if checkPoly.value.None? {
      return Ok(false);
    }
    var checkPolyCoeffs := ComputeCoeffs(checkPoly.value.value);
    var finalKey := Inner(vk.commKey, checkPolyCoeffs);
    if Sub(finalKey, proof.finalCommKey) != 0 {
      return Ok(false);
    }
    return Ok(true);
  }

  // ----- completeness

  /** An opening without blinding yields a proof that the verifier's core accepts. */
  lemma FinishedOpeningPasses(ck: Key, o: Opening, value: Fp, point: Fp, oracle: Oracle, hidingComm: Option<Fp>,
                              rand: Option<Fp>)
    requires |o.polynomial| <= |ck.commKey| == Pow2(Log2(|ck.commKey|))
    requires o.commitment == Inner(ck.commKey, o.polynomial) && value == Eval(o.polynomial, point)
    requires FinishOpening(ck, o, value, point, oracle, hidingComm, rand).Some?
    ensures var proof := FinishOpening(ck, o, value, point, oracle, hidingComm, rand).value;
            var challenge := oracle(InitialQuery(o.commitment, point, value));
            var hPrime := Mul(ck.h, challenge);
            var ch := Challenges(challenge, proof.lVec, proof.rVec, oracle);
            && |proof.lVec| == |proof.rVec| == Log2(|ck.commKey|)
            && proof.hidingComm == hidingComm && proof.rand == rand
            && proof.finalCommKey == LastKey(false, ck.commKey, ch)
            && RoundSum(Add(o.commitment, Mul(hPrime, value)), challenge, proof.lVec, proof.rVec, oracle)
               == Some(Inner([proof.finalCommKey, hPrime], [proof.c, Mul(LastPower(false, point, ch), proof.c)]))
  {
    var p := FinishedRounds(ck, o, value, point, oracle, hidingComm, rand);
    RoundsPass(ck, o, value, point, oracle, o.polynomial + Zeros(|ck.commKey| - |o.polynomial|), p);
  }

  lemma FinishedRounds(ck: Key, o: Opening, value: Fp, point: Fp, oracle: Oracle, hidingComm: Option<Fp>,
                       rand: Option<Fp>) returns (p: Rounds)
    requires |o.polynomial| <= |ck.commKey| == Pow2(Log2(|ck.commKey|))
    requires FinishOpening(ck, o, value, point, oracle, hidingComm, rand).Some?
    ensures FinishOpening(ck, o, value, point, oracle, hidingComm, rand)
            == Some(Proof(p.lVec, p.rVec, p.finalCommKey, p.c, hidingComm, rand))
    ensures var challenge := oracle(InitialQuery(o.commitment, point, value));
            ProverRounds(ck.commKey, o.polynomial + Zeros(|ck.commKey| - |o.polynomial|),
                         PowersFrom(1, point, |ck.commKey|), Mul(ck.h, challenge), challenge, oracle,
                         Log2(|ck.commKey|)) == Some(p)
  {
    var n, challenge := |ck.commKey|, oracle(InitialQuery(o.commitment, point, value));
    p := ProverRounds(ck.commKey, o.polynomial + Zeros(n - |o.polynomial|), PowersFrom(1, point, n),
                      Mul(ck.h, challenge), challenge, oracle, Log2(n)).value;
  }

  /** What the rounds of the prover amount to for the verifier. */
  lemma RoundsPass(ck: Key, o: Opening, value: Fp, point: Fp, oracle: Oracle, coeffs: seq<Fp>, p: Rounds)
    requires |o.polynomial| <= |ck.commKey| == Pow2(Log2(|ck.commKey|))
    requires o.commitment == Inner(ck.commKey, o.polynomial) && value == Eval(o.polynomial, point)
    requires coeffs == o.polynomial + Zeros(|ck.commKey| - |o.polynomial|)
    requires var challenge := oracle(InitialQuery(o.commitment, point, value));
             ProverRounds(ck.commKey, coeffs, PowersFrom(1, point, |ck.commKey|),
                          Mul(ck.h, challenge), challenge, oracle,
                          Log2(|ck.commKey|)) == Some(p)
    ensures var challenge := oracle(InitialQuery(o.commitment, point, value));
            var hPrime := Mul(ck.h, challenge);
            var ch := Challenges(challenge, p.lVec, p.rVec, oracle);
            && |p.lVec| == |p.rVec| == Log2(|ck.commKey|) && p.finalCommKey == LastKey(false, ck.commKey, ch)
            && RoundSum(Add(o.commitment, Mul(hPrime, value)), challenge, p.lVec, p.rVec, oracle)
               == Some(Inner([p.finalCommKey, hPrime], [p.c, Mul(LastPower(false, point, ch), p.c)]))
  {
    var challenge := oracle(InitialQuery(o.commitment, point, value));
    PaddedCommitment(ck.commKey, o.polynomial, point);
    PassingRounds(ck.commKey, coeffs, point, Mul(ck.h, challenge), challenge, oracle, p);
  }

  lemma PassingRounds(key: seq<Fp>, coeffs: seq<Fp>, point: Fp, hPrime: Fp, challenge: Fp, oracle: Oracle, p: Rounds)
    requires |key| == |coeffs| == Pow2(Log2(|key|))
    requires ProverRounds(key, coeffs, PowersFrom(1, point, |key|), hPrime, challenge, oracle, Log2(|key|)) == Some(p)
    ensures var ch := Challenges(challenge, p.lVec, p.rVec, oracle);
            && |p.lVec| == |p.rVec| == Log2(|key|) && p.finalCommKey == LastKey(false, key, ch)
            && RoundSum(RoundCommitment(key, coeffs, PowersFrom(1, point, |key|), hPrime), challenge, p.lVec, p.rVec,
                        oracle)
               == Some(Inner([p.finalCommKey, hPrime], [p.c, Mul(LastPower(false, point, ch), p.c)]))
  {
    ProverMeetsVerifier(key, coeffs, PowersFrom(1, point, |key|), hPrime, challenge, oracle, Log2(|key|), p);
    var ch := Challenges(challenge, p.lVec, p.rVec, oracle);
    FoldAllIsInner(key, ch);
    FoldedPowers(point, ch);
    TwoElements(p.finalCommKey, hPrime, p.c, ProductAt(ch, point));
    Commutes(p.c, ProductAt(ch, point));
  }

  lemma PaddedCommitment(key: seq<Fp>, f: seq<Fp>, point: Fp)
    requires |f| <= |key|
    ensures var coeffs := f + Zeros(|key| - |f|);
            && Inner(key, coeffs) == Inner(key, f)
            && Inner(coeffs, PowersFrom(1, point, |key|)) == Eval(f, point)
  {
    var n := |key|;
    var coeffs := f + Zeros(n - |f|);
    forall k: nat ensures Coef(coeffs, k) == Coef(f, k) {
    }
    InnerPolyEq(key, coeffs, f);
    InnerPolyEq(PowersFrom(1, point, n), coeffs, f);
    InnerCommutes(coeffs, PowersFrom(1, point, n));
    InnerPowers(1, point, n, f);
    Units(Eval(f, point));
  }

  lemma TwoElements(k: Fp, h: Fp, c: Fp, p: Fp)
    ensures Inner([k, h], [c, Mul(p, c)]) == Add(Mul(k, c), Mul(h, Mul(c, p)))
  {
    assert [k, h][1..] == [h] && [c, Mul(p, c)][1..] == [Mul(p, c)];
    InnerOne([h], [Mul(p, c)]);
    Commutes(p, c);
  }

  lemma {:induction false} NoHidingNoRand(ps: seq<LabeledPolynomial>, states: seq<Randomness>, xi: Squeezes, n: nat)
    requires n <= |ps| == |states|
    requires forall i :: 0 <= i < |ps| && ps[i].hiding && ps[i].degreeBound.Some? ==> states[i].shiftedRand.Some?
    requires !HasHiding(ps, n)
    ensures CombinedRand(ps, states, xi, n) == 0
  {
    if n > 0 {
      NoHidingNoRand(ps, states, xi, n - 1);
    }
  }

  /** Completeness: what commit and open produce is accepted with the true values, whatever
      the degree bounds, the blinding and the oracle, unless a round challenge is zero. */
  lemma Completeness(ck: Key, ps: seq<LabeledPolynomial>, coins: seq<(Fp, Fp)>, comms: seq<LabeledCommitment>,
                     states: seq<Randomness>, point: Fp, values: seq<Fp>, xi: Squeezes, oracle: Oracle, raw: seq<Fp>,
                     hidingRand: Fp, proof: Proof)
    requires Committed(ck, ps, coins, comms, states) && |raw| <= |ck.commKey| == Pow2(Log2(|ck.commKey|))
    requires |values| == |ps| && forall i :: 0 <= i < |ps| ==> values[i] == Eval(ps[i].polynomial, point)
    requires OpenInputs(ps, comms, states)
    requires OpenSpec(ck, ps, comms, states, point, xi, oracle, raw, hidingRand) == Some(proof)
    ensures BoundsFit(ck.SupportedDegree(), comms)
    ensures CheckSpec(false, ck, comms, point, values, proof, xi, oracle) == Ok(true)
  {
    var d := ck.SupportedDegree();
    CommittedBoundsFit(ck, ps, coins, comms, states);
    CombinedOpens(ck, ps, coins, comms, states, xi, |ps|);
    CombinedValueTrue(d, ps, comms, values, point, xi, |ps|);
    CombinedLength(d, ps, xi, |ps|);
    var o := Combined(ck, ps, comms, states, xi, |ps|);
    var value := Eval(o.polynomial, point);
    var o': Opening;
    if HasHiding(ps, |ps|) {
      o' := Hide(ck, o, value, point, oracle, raw, hidingRand).0;
      HideOpens(ck, o, value, point, oracle, raw, hidingRand);
    } else {
      o' := o;
      NoHidingNoRand(ps, states, xi, |ps|);
      Units(ck.s);
      Units(Inner(ck.commKey, o.polynomial));
    }
    FinishedOpeningPasses(ck, o', value, point, oracle, proof.hidingComm, proof.rand);
    var ch := Challenges(oracle(InitialQuery(o'.commitment, point, value)), proof.lVec, proof.rVec, oracle);
    SubZero(LastKey(false, ck.commKey, ch), proof.finalCommKey);
    var hPrime := Mul(ck.h, oracle(InitialQuery(o'.commitment, point, value)));
    var elem := Inner([proof.finalCommKey, hPrime], [proof.c, Mul(LastPower(false, point, ch), proof.c)]);
    SubZero(elem, elem);
  }

  lemma CommittedBoundsFit(ck: Key, ps: seq<LabeledPolynomial>, coins: seq<(Fp, Fp)>, comms: seq<LabeledCommitment>,
                           states: seq<Randomness>)
    requires Committed(ck, ps, coins, comms, states)
    ensures BoundsFit(ck.SupportedDegree(), comms) && OpenInputs(ps, comms, states)
  {
    CommittedShape(ck, ps, coins, comms, states);
    forall i | 0 <= i < |comms| && comms[i].degreeBound.Some?
      ensures comms[i].degreeBound.value <= ck.SupportedDegree()
    {
      assert DegreesOk(ck.SupportedDegree(), ps[i]);
    }
  }
}
