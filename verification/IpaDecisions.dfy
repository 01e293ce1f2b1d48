/** What the inner-product argument commits to and decides (ipa_pc/mod.rs), for whatever
    commitments, values and proof: everything written out as sums over the inputs. */
module IpaDecisions {
  import opened PrimeField
  import opened Numbers
  import opened Vectors
  import opened Polynomials
  import opened CheckPolynomial
  import opened IpaRounds
  import opened InnerProductPC
  import opened IpaVerifier

  // ----- the combinations

  /** Commitment i with challenge 2i, the shifted one with challenge 2i + 1. */
  function WeighedCommitment(comms: seq<LabeledCommitment>, xi: Squeezes, i: nat): (r: Fp)
    requires i < |comms|
  {
    var c := comms[i].commitment;
    if c.shiftedComm.None? then Mul(c.comm, xi(2 * i))
    else Add(Mul(c.comm, xi(2 * i)), Mul(c.shiftedComm.value, xi(2 * i + 1)))
  }

  /** Value i with the same challenges, the second times the power of the point for its bound. */
  function WeighedValue(supported: int, comms: seq<LabeledCommitment>, values: seq<Fp>, point: Fp, xi: Squeezes,
                        i: nat): (r: Fp)
    requires i < |comms| && i < |values| && BoundsFit(supported, comms)
  {
    match comms[i].degreeBound
    case None => Mul(values[i], xi(2 * i))
    case Some(b) => Mul(values[i], Add(xi(2 * i), Mul(xi(2 * i + 1), Pow(point, supported - b))))
  }

  function WeighedCommitments(comms: seq<LabeledCommitment>, xi: Squeezes, n: nat): (r: seq<Fp>)
    requires n <= |comms|
    ensures |r| == n && forall i :: 0 <= i < n ==> r[i] == WeighedCommitment(comms, xi, i)
  {
    seq(n, i requires 0 <= i < n => WeighedCommitment(comms, xi, i))
  }

  function WeighedValues(supported: int, comms: seq<LabeledCommitment>, values: seq<Fp>, point: Fp, xi: Squeezes,
                         n: nat): (r: seq<Fp>)
    requires n <= |comms| && n <= |values| && BoundsFit(supported, comms)
    ensures |r| == n && forall i :: 0 <= i < n ==> r[i] == WeighedValue(supported, comms, values, point, xi, i)
  {
    seq(n, i requires 0 <= i < n => WeighedValue(supported, comms, values, point, xi, i))
  }

  lemma {:induction false} CombinedCommitmentIs(comms: seq<LabeledCommitment>, xi: Squeezes, n: nat)
    requires n <= |comms| && ShiftsPresent(comms)
    ensures CombinedCommitment(comms, xi, n) == Sum(WeighedCommitments(comms, xi, n))
  {
    if n > 0 {
      var k := n - 1;
      CombinedCommitmentIs(comms, xi, k);
      WeighedTerm(CombinedCommitment(comms, xi, k), comms[k].commitment, xi(2 * k), xi(2 * k + 1));
      SumPush(WeighedCommitments(comms, xi, k), WeighedCommitment(comms, xi, k));
      assert WeighedCommitments(comms, xi, n) == WeighedCommitments(comms, xi, k) + [WeighedCommitment(comms, xi, k)];
    }
  }

  lemma WeighedTerm(sum: Fp, c: Commitment, x: Fp, y: Fp)
    ensures CommitmentTerm(sum, c, x, y)
            == Add(sum, if c.shiftedComm.None? then Mul(c.comm, x)
                        else Add(Mul(c.comm, x), Mul(c.shiftedComm.value, y)))
  {
    if c.shiftedComm.Some? { AddAssociates(sum, Mul(c.comm, x), Mul(c.shiftedComm.value, y)); }
  }

  lemma {:induction false} CombinedValueIs(supported: int, comms: seq<LabeledCommitment>, values: seq<Fp>, point: Fp,
                                           xi: Squeezes, n: nat)
    requires n <= |comms| && n <= |values| && BoundsFit(supported, comms)
    ensures CombinedValue(supported, comms, values, point, xi, n)
            == Sum(WeighedValues(supported, comms, values, point, xi, n))
  {
    if n > 0 {
      var k := n - 1;
      CombinedValueIs(supported, comms, values, point, xi, k);
      var before, v := CombinedValue(supported, comms, values, point, xi, k), values[k];
      Commutes(v, xi(2 * k));
      if comms[k].degreeBound.Some? {
        ValueTerm(before, v, xi(2 * k), xi(2 * k + 1), Pow(point, supported - comms[k].degreeBound.value));
      }
      SumPush(WeighedValues(supported, comms, values, point, xi, k),
              WeighedValue(supported, comms, values, point, xi, k));
      assert WeighedValues(supported, comms, values, point, xi, n)
          == WeighedValues(supported, comms, values, point, xi, k)
             + [WeighedValue(supported, comms, values, point, xi, k)];
    }
  }

  lemma ValueTerm(before: Fp, v: Fp, x: Fp, y: Fp, e: Fp)
    ensures Add(Add(before, Mul(x, v)), Mul(Mul(y, v), e)) == Add(before, Mul(v, Add(x, Mul(y, e))))
  {
    AddAssociates(before, Mul(x, v), Mul(Mul(y, v), e));
    assert Mul(v, Add(x, Mul(y, e))) == Add(Mul(x, v), Mul(Mul(y, v), e)) by { RingLaws(); }
  }

  // ----- the rounds

  /** Challenge i is the answer for the one before it and the elements of its round. */
  ghost predicate Answers(ch: seq<Fp>, first: Fp, ls: seq<Fp>, rs: seq<Fp>, oracle: Oracle, i: nat)
    requires i < |ch| && i < |ls| && i < |rs|
  {
    ch[i] == oracle(RoundQuery(if i == 0 then first else ch[i - 1], ls[i], rs[i]))
  }

  ghost predicate AreChallenges(ch: seq<Fp>, first: Fp, ls: seq<Fp>, rs: seq<Fp>, oracle: Oracle) {
    |ch| == Min(|ls|, |rs|) && forall i :: 0 <= i < |ch| ==> Answers(ch, first, ls, rs, oracle, i)
  }

  lemma {:induction false} ChallengesAre(first: Fp, ls: seq<Fp>, rs: seq<Fp>, oracle: Oracle, ch: seq<Fp>)
    ensures AreChallenges(ch, first, ls, rs, oracle) <==> ch == Challenges(first, ls, rs, oracle)
    decreases |ls|
  {
    if ls != [] && rs != [] {
      var u := oracle(RoundQuery(first, ls[0], rs[0]));
      var rest := Challenges(u, ls[1..], rs[1..], oracle);
      assert Challenges(first, ls, rs, oracle) == [u] + rest && ([u] + rest)[1..] == rest;
      assert AreChallenges(ch, first, ls, rs, oracle) ==> Answers(ch, first, ls, rs, oracle, 0);
      if ch != [] && ch[0] == u {
        ChallengesAre(u, ls[1..], rs[1..], oracle, ch[1..]);
        LaterChallenges(ch, first, ls, rs, oracle);
        assert ch == [u] + ch[1..];
      }
    }
  }

  lemma {:induction false} LaterChallenges(ch: seq<Fp>, first: Fp, ls: seq<Fp>, rs: seq<Fp>, oracle: Oracle)
    requires ch != [] && ls != [] && rs != [] && ch[0] == oracle(RoundQuery(first, ls[0], rs[0]))
    ensures AreChallenges(ch, first, ls, rs, oracle) <==> AreChallenges(ch[1..], ch[0], ls[1..], rs[1..], oracle)
  {
    var t, ls', rs' := ch[1..], ls[1..], rs[1..];
    if AreChallenges(t, ch[0], ls', rs', oracle) {
      forall i | 0 <= i < |ch| ensures Answers(ch, first, ls, rs, oracle, i) {
        if i > 0 { assert Answers(t, ch[0], ls', rs', oracle, i - 1); }
      }
    }
    if AreChallenges(ch, first, ls, rs, oracle) {
      forall i | 0 <= i < |t| ensures Answers(t, ch[0], ls', rs', oracle, i) {
        assert Answers(ch, first, ls, rs, oracle, i + 1);
      }
    }
  }

  function Reciprocal(u: Fp): (v: Fp)
    requires u != 0
    ensures Mul(u, v) == 1
  {
    Inverse(u).value
  }

  predicate NoneZero(ch: seq<Fp>) {
    forall i :: 0 <= i < |ch| ==> ch[i] != 0
  }

  /** u_i^-1 L_i + u_i R_i. */
  function RoundTerms(ls: seq<Fp>, rs: seq<Fp>, ch: seq<Fp>): (r: seq<Fp>)
    requires |ch| <= |ls| && |ch| <= |rs| && NoneZero(ch)
    ensures |r| == |ch|
    ensures forall i :: 0 <= i < |r| ==> r[i] == Add(Mul(Reciprocal(ch[i]), ls[i]), Mul(ch[i], rs[i]))
  {
    seq(|ch|, i requires 0 <= i < |ch| => Add(Mul(Reciprocal(ch[i]), ls[i]), Mul(ch[i], rs[i])))
  }

  lemma {:induction false} RoundSumIs(commitment: Fp, first: Fp, ls: seq<Fp>, rs: seq<Fp>, oracle: Oracle, ch: seq<Fp>)
    requires AreChallenges(ch, first, ls, rs, oracle)
    ensures RoundSum(commitment, first, ls, rs, oracle)
            == if NoneZero(ch) then Some(Add(commitment, Sum(RoundTerms(ls, rs, ch)))) else None
    decreases |ls|
  {
    if ls == [] || rs == [] {
      assert ch == [];
      Units(commitment);
    } else if oracle(RoundQuery(first, ls[0], rs[0])) == 0 {
      assert Answers(ch, first, ls, rs, oracle, 0);
    } else {
      assert Answers(ch, first, ls, rs, oracle, 0);
      LaterChallenges(ch, first, ls, rs, oracle);
      var v := Inverse(ch[0]).value;
      var sum := Add(commitment, Add(Mul(ls[0], v), Mul(rs[0], ch[0])));
      RoundSumIs(sum, ch[0], ls[1..], rs[1..], oracle, ch[1..]);
      assert NoneZero(ch) <==> NoneZero(ch[1..]) by {
        assert forall i :: 0 < i < |ch| ==> ch[i] == ch[1..][i - 1];
      }
      if NoneZero(ch) {
        assert RoundTerms(ls, rs, ch)[1..] == RoundTerms(ls[1..], rs[1..], ch[1..]);
        Commutes(ls[0], v);
        Commutes(rs[0], ch[0]);
        AddAssociates(commitment, RoundTerms(ls, rs, ch)[0], Sum(RoundTerms(ls[1..], rs[1..], ch[1..])));
      }
    }
  }

  // ----- check

  /** What the verifier knows after the combinations: commitment and value, the commitment without
      blinding, h', and the challenges of the rounds. */
  datatype View = View(commitment: Fp, value: Fp, unblinded: Fp, hPrime: Fp, challenges: seq<Fp>)

  ghost predicate Sees(view: View, vk: Key, comms: seq<LabeledCommitment>, point: Fp, values: seq<Fp>, proof: Proof,
                       xi: Squeezes, oracle: Oracle)
    requires BoundsFit(vk.SupportedDegree(), comms) && (proof.hidingComm.Some? <==> proof.rand.Some?)
  {
    var n := Min(|comms|, |values|);
    var first := oracle(InitialQuery(view.unblinded, point, view.value));
    && view.commitment == Sum(WeighedCommitments(comms, xi, n))
    && view.value == Sum(WeighedValues(vk.SupportedDegree(), comms, values, point, xi, n))
    && view.unblinded == (match proof.hidingComm
                          case None => view.commitment
                          case Some(hc) =>
                            var x := oracle(HidingQuery(view.commitment, point, view.value, hc));
                            Add(view.commitment, Sub(Mul(hc, x), Mul(vk.s, proof.rand.value))))
    && view.hPrime == Mul(vk.h, first)
    && AreChallenges(view.challenges, first, proof.lVec, proof.rVec, oracle)
  }

  /** P' + v h' + sum (u_i^-1 L_i + u_i R_i) == c (K + h' f(z)), for the check polynomial f and the
      final key K of the proof. */
  predicate RoundsBalance(view: View, point: Fp, proof: Proof)
    requires |view.challenges| <= |proof.lVec| && |view.challenges| <= |proof.rVec| && NoneZero(view.challenges)
  {
    Add(Add(view.unblinded, Mul(view.value, view.hPrime)), Sum(RoundTerms(proof.lVec, proof.rVec, view.challenges)))
    == Mul(proof.c, Add(proof.finalCommKey, Mul(view.hPrime, Eval(Coeffs(view.challenges), point))))
  }

  /** There is exactly one such view. */
  lemma ViewExists(vk: Key, comms: seq<LabeledCommitment>, point: Fp, values: seq<Fp>, proof: Proof, xi: Squeezes,
                   oracle: Oracle) returns (view: View)
    requires BoundsFit(vk.SupportedDegree(), comms) && (proof.hidingComm.Some? <==> proof.rand.Some?)
    ensures Sees(view, vk, comms, point, values, proof, xi, oracle)
    ensures forall w: View :: Sees(w, vk, comms, point, values, proof, xi, oracle) ==> w == view
  {
    var n := Min(|comms|, |values|);
    var p := Sum(WeighedCommitments(comms, xi, n));
    var v := Sum(WeighedValues(vk.SupportedDegree(), comms, values, point, xi, n));
    var q := Unblinded(vk, p, point, v, proof, oracle);
    var first := oracle(InitialQuery(q, point, v));
    forall ch ensures AreChallenges(ch, first, proof.lVec, proof.rVec, oracle)
                      <==> ch == Challenges(first, proof.lVec, proof.rVec, oracle)
    {
      ChallengesAre(first, proof.lVec, proof.rVec, oracle, ch);
    }
    view := View(p, v, q, Mul(vk.h, first), Challenges(first, proof.lVec, proof.rVec, oracle));
  }

  lemma {:induction false} TheEquation(view: View, point: Fp, proof: Proof, sum: Fp, product: Fp)
    requires |view.challenges| <= |proof.lVec| && |view.challenges| <= |proof.rVec| && NoneZero(view.challenges)
    requires sum == Add(Add(view.unblinded, Mul(view.hPrime, view.value)),
                        Sum(RoundTerms(proof.lVec, proof.rVec, view.challenges)))
    requires product == Eval(Coeffs(view.challenges), point)
    ensures Sub(sum, Inner([proof.finalCommKey, view.hPrime], [proof.c, Mul(product, proof.c)])) == 0
            <==> RoundsBalance(view, point, proof)
  {
    var k, h, c := proof.finalCommKey, view.hPrime, proof.c;
    TwoElements(k, h, c, product);
    Commutes(h, view.value);
    assert Add(Mul(k, c), Mul(h, Mul(c, product))) == Mul(c, Add(k, Mul(h, product))) by { RingLaws(); }
    SubZero(sum, Mul(c, Add(k, Mul(h, product))));
  }

  /** succinct_check panics for blinding that is there by half or a challenge that is zero;
      otherwise it passes exactly if the rounds balance. */
  lemma SuccinctDecides(vk: Key, comms: seq<LabeledCommitment>, point: Fp, values: seq<Fp>, proof: Proof, xi: Squeezes,
                        oracle: Oracle, view: View)
    requires ShiftsPresent(comms) && BoundsFit(vk.SupportedDegree(), comms)
    requires (proof.hidingComm.Some? <==> proof.rand.Some?)
             ==> Sees(view, vk, comms, point, values, proof, xi, oracle)
    ensures SuccinctCheckSpec(false, vk, comms, point, values, proof, xi, oracle)
            == if proof.hidingComm.Some? != proof.rand.Some? || !NoneZero(view.challenges) then Panic
               else if RoundsBalance(view, point, proof) then Ok(Some(view.challenges)) else Ok(None)
  {
    if proof.hidingComm.Some? == proof.rand.Some? {
      var n, d, ch := Min(|comms|, |values|), vk.SupportedDegree(), view.challenges;
      CombinedCommitmentIs(comms, xi, n);
      CombinedValueIs(d, comms, values, point, xi, n);
      var first := oracle(InitialQuery(view.unblinded, point, view.value));
      ChallengesAre(first, proof.lVec, proof.rVec, oracle, ch);
      var p := Add(view.unblinded, Mul(view.hPrime, view.value));
      RoundSumIs(p, first, proof.lVec, proof.rVec, oracle, ch);
      if NoneZero(ch) {
        ProductIsEvaluation(ch, point);
        TheEquation(view, point, proof, Add(p, Sum(RoundTerms(proof.lVec, proof.rVec, ch))), ProductAt(ch, point));
      }
    }
  }

  /** check errs exactly for vectors of the wrong length, panics as succinct_check does, and otherwise
      accepts exactly if the rounds balance and the final key is that of the check polynomial. */
  lemma CheckDecides(vk: Key, comms: seq<LabeledCommitment>, point: Fp, values: seq<Fp>, proof: Proof, xi: Squeezes,
                     oracle: Oracle, view: View)
    requires ShiftsPresent(comms) && BoundsFit(vk.SupportedDegree(), comms)
    requires |vk.commKey| == Pow2(Log2(|vk.commKey|))
    requires (proof.hidingComm.Some? <==> proof.rand.Some?)
             ==> Sees(view, vk, comms, point, values, proof, xi, oracle)
    ensures CheckSpec(false, vk, comms, point, values, proof, xi, oracle)
            == if |proof.lVec| != |proof.rVec| || |proof.lVec| != Log2(|vk.commKey|) then Err
               else if proof.hidingComm.Some? != proof.rand.Some? || !NoneZero(view.challenges) then Panic
               else Ok(RoundsBalance(view, point, proof)
                       && proof.finalCommKey == Inner(vk.commKey, Coeffs(view.challenges)))
  {
    SuccinctDecides(vk, comms, point, values, proof, xi, oracle, view);
    SubZero(Inner(vk.commKey, Coeffs(view.challenges)), proof.finalCommKey);
  }

  /** A proof that passes, with another last coefficient: it passes exactly if the error times
      K + h' f(z) vanishes. */
  lemma OtherCoefficient(vk: Key, comms: seq<LabeledCommitment>, point: Fp, values: seq<Fp>, proof: Proof, xi: Squeezes,
                         oracle: Oracle, view: View, c: Fp)
    requires ShiftsPresent(comms) && BoundsFit(vk.SupportedDegree(), comms)
    requires proof.hidingComm.Some? <==> proof.rand.Some?
    requires Sees(view, vk, comms, point, values, proof, xi, oracle)
    requires SuccinctCheckSpec(false, vk, comms, point, values, proof, xi, oracle) == Ok(Some(view.challenges))
    ensures SuccinctCheckSpec(false, vk, comms, point, values, proof.(c := c), xi, oracle) == Ok(Some(view.challenges))
            <==> Mul(Sub(c, proof.c), Add(proof.finalCommKey, Mul(view.hPrime, ProductAt(view.challenges, point)))) == 0
  {
    SuccinctDecides(vk, comms, point, values, proof, xi, oracle, view);
    SuccinctDecides(vk, comms, point, values, proof.(c := c), xi, oracle, view);
    ProductIsEvaluation(view.challenges, point);
    Scaled(c, proof.c, Add(proof.finalCommKey, Mul(view.hPrime, ProductAt(view.challenges, point))));
  }

  lemma Scaled(a: Fp, b: Fp, k: Fp)
    ensures Mul(Sub(a, b), k) == 0 <==> Mul(b, k) == Mul(a, k)
  {
    Commutes(Sub(a, b), k);
    Distributes(k, a, Neg(b));
    NegDistributes(k, b);
    Commutes(a, k);
    Commutes(b, k);
    SubZero(Mul(k, a), Mul(k, b));
  }

  // ----- open

  /** open rejects exactly a degree beyond the key or its bound, and a bound beyond the key. */
  lemma RejectsIff(ck: Key, ps: seq<LabeledPolynomial>)
    ensures !AllDegreesOk(ck.SupportedDegree(), ps, |ps|)
            <==> exists i :: 0 <= i < |ps|
                             && var n, b := |ps[i].polynomial|, ps[i].degreeBound;
                             || (n == 0 && |ck.commKey| == 0) || n > |ck.commKey|
                             || (b.Some? && (n > b.value + 1 || b.value + 1 > |ck.commKey|))
  {
  }

  /** The prover's loop panics only at a challenge that is zero. */
  lemma {:induction false} RoundsExist(key: seq<Fp>, coeffs: seq<Fp>, z: seq<Fp>, hPrime: Fp, challenge: Fp,
                                       oracle: Oracle, rounds: nat)
    requires |key| == |coeffs| == |z| == Pow2(rounds)
    requires forall previous, l, r :: oracle(RoundQuery(previous, l, r)) != 0
    ensures ProverRounds(key, coeffs, z, hPrime, challenge, oracle, rounds).Some?
    decreases rounds
  {
    if rounds > 0 {
      var l, r := LeftElement(key, coeffs, z, hPrime), RightElement(key, coeffs, z, hPrime);
      var u := oracle(RoundQuery(challenge, l, r));
      assert u != 0;
      RoundsExist(FoldHalves(key, u), FoldHalves(coeffs, Inverse(u).value), FoldHalves(z, u), hPrime, u, oracle,
                  rounds - 1);
      RoundsGoOn(key, coeffs, z, hPrime, challenge, oracle, rounds, u);
    }
  }

  lemma RoundsGoOn(key: seq<Fp>, coeffs: seq<Fp>, z: seq<Fp>, hPrime: Fp, challenge: Fp, oracle: Oracle, rounds: nat,
                   u: Fp)
    requires |key| == |coeffs| == |z| == Pow2(rounds) && rounds > 0 && u != 0
    requires u == oracle(RoundQuery(challenge, LeftElement(key, coeffs, z, hPrime),
                                    RightElement(key, coeffs, z, hPrime)))
    requires ProverRounds(FoldHalves(key, u), FoldHalves(coeffs, Inverse(u).value), FoldHalves(z, u), hPrime, u, oracle,
                          rounds - 1).Some?
    ensures ProverRounds(key, coeffs, z, hPrime, challenge, oracle, rounds).Some?
  {
  }

  /** So open returns a proof for whatever it does not reject. */
  lemma OpenSucceeds(ck: Key, ps: seq<LabeledPolynomial>, comms: seq<LabeledCommitment>, states: seq<Randomness>,
                     point: Fp, xi: Squeezes, oracle: Oracle, raw: seq<Fp>, hidingRand: Fp)
    requires OpenInputs(ps, comms, states) && AllDegreesOk(ck.SupportedDegree(), ps, |ps|)
    requires |raw| <= |ck.commKey| == Pow2(Log2(|ck.commKey|))
    requires forall previous, l, r :: oracle(RoundQuery(previous, l, r)) != 0
    ensures OpenSpec(ck, ps, comms, states, point, xi, oracle, raw, hidingRand).Some?
  {
    var o := Combined(ck, ps, comms, states, xi, |ps|);
    var value := Eval(o.polynomial, point);
    CombinedLength(ck.SupportedDegree(), ps, xi, |ps|);
    var hidden := HasHiding(ps, |ps|);
    if hidden {
      var (o', hidingComm) := Hide(ck, o, value, point, oracle, raw, hidingRand);
      FinishSucceeds(ck, o', value, point, oracle, Some(hidingComm), Some(o'.rand));
    } else {
      FinishSucceeds(ck, o, value, point, oracle, None, None);
    }
  }

  lemma FinishSucceeds(ck: Key, o: Opening, value: Fp, point: Fp, oracle: Oracle, hidingComm: Option<Fp>,
                       rand: Option<Fp>)
    requires |o.polynomial| <= |ck.commKey| == Pow2(Log2(|ck.commKey|))
    requires forall previous, l, r :: oracle(RoundQuery(previous, l, r)) != 0
    ensures FinishOpening(ck, o, value, point, oracle, hidingComm, rand).Some?
  {
    var n, challenge := |ck.commKey|, oracle(InitialQuery(o.commitment, point, value));
    RoundsExist(ck.commKey, o.polynomial + Zeros(n - |o.polynomial|), PowersFrom(1, point, n),
                Mul(ck.h, challenge), challenge, oracle, Log2(n));
  }

  lemma {:induction false} HasHidingIff(ps: seq<LabeledPolynomial>, n: nat)
    requires n <= |ps|
    ensures HasHiding(ps, n) <==> exists i :: 0 <= i < n && ps[i].hiding
  {
    if n > 0 { HasHidingIff(ps, n - 1); }
  }

  /** Coefficient k of the random polynomial that vanishes at the point. */
  function HidingCoef(raw: seq<Fp>, point: Fp, k: nat): Fp {
    if k == 0 then Sub(Coef(raw, 0), Eval(raw, point)) else Coef(raw, k)
  }

  /** Blinding adds the challenge times that polynomial, coefficient by coefficient, and commits to it
      with randomness of its own. */
  lemma HidesBehind(ck: Key, o: Opening, value: Fp, point: Fp, oracle: Oracle, raw: seq<Fp>, hidingRand: Fp, k: nat)
    requires ck.commKey != []
    ensures var (o', hidingComm) := Hide(ck, o, value, point, oracle, raw, hidingRand);
            var x := oracle(HidingQuery(o.commitment, point, value, hidingComm));
            && hidingComm == Add(Sub(Inner(ck.commKey, raw), Mul(ck.commKey[0], Eval(raw, point))),
                                 Mul(ck.s, hidingRand))
            && o'.rand == Add(o.rand, Mul(x, hidingRand))
            && Coef(o'.polynomial, k) == Add(Coef(o.polynomial, k), Mul(x, HidingCoef(raw, point, k)))
  {
    var c := [Neg(Eval(raw, point))];
    var hp := Plus(raw, c);
    var x := oracle(HidingQuery(o.commitment, point, value, CmCommit(ck.commKey, hp, ck.s, Some(hidingRand))));
    InnerPlusRight(raw, c, ck.commKey);
    assert Inner(ck.commKey, c) == Neg(Mul(ck.commKey[0], Eval(raw, point))) by {
      assert c[1..] == [];
      NegDistributes(ck.commKey[0], Eval(raw, point));
      Units(Neg(Mul(ck.commKey[0], Eval(raw, point))));
    }
    CoefPlus(raw, c, k);
    Units(Coef(raw, k));
    CoefPlus(o.polynomial, Scale(x, hp), k);
    CoefScale(x, hp, k);
  }

  /** The proof carries a hiding commitment exactly if some polynomial is hidden. */
  lemma HidesIff(ck: Key, ps: seq<LabeledPolynomial>, comms: seq<LabeledCommitment>, states: seq<Randomness>,
                 point: Fp, xi: Squeezes, oracle: Oracle, raw: seq<Fp>, hidingRand: Fp, proof: Proof)
    requires OpenInputs(ps, comms, states) && AllDegreesOk(ck.SupportedDegree(), ps, |ps|)
    requires |raw| <= |ck.commKey| == Pow2(Log2(|ck.commKey|))
    requires OpenSpec(ck, ps, comms, states, point, xi, oracle, raw, hidingRand) == Some(proof)
    ensures proof.hidingComm.Some? <==> exists i :: 0 <= i < |ps| && ps[i].hiding
    ensures proof.rand.Some? <==> proof.hidingComm.Some?
    ensures var o := Combined(ck, ps, comms, states, xi, |ps|);
            var (o', hidingComm) := Hide(ck, o, Eval(o.polynomial, point), point, oracle, raw, hidingRand);
            proof.hidingComm.Some? ==> proof.hidingComm == Some(hidingComm) && proof.rand == Some(o'.rand)
  {
    HasHidingIff(ps, |ps|);
    CombinedLength(ck.SupportedDegree(), ps, xi, |ps|);
  }
}
