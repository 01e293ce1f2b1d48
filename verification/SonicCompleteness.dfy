/** What check and batch_check accept of Sonic's openings (sonic_pc/mod.rs). */
module SonicCompleteness {
  import opened PrimeField
  import opened Vectors
  import opened Polynomials
  import opened KZG10
  import opened SonicPC
  import opened SonicBatchCheck
  import BatchChecks
  import KzgVerifier

  // ----- committed polynomials

  ghost predicate AllOk(ck: SonicPC.CommitterKey, td: Trapdoor, ps: seq<LabeledPolynomial>,
                        comms: seq<LabeledCommitment>, rands: seq<seq<Fp>>) {
    && |ps| == |comms| == |rands|
    && forall i :: 0 <= i < |ps| ==> OneOk(ck, td, ps[i], comms[i], rands[i]) && RandFits(ck, rands[i])
  }

  /** Under honest keys everything that commit returns is in order. */
  lemma CommitAllOk(ck: SonicPC.CommitterKey, vk: SonicPC.VerifierKey, td: Trapdoor, ps: seq<LabeledPolynomial>,
                    coins: seq<seq<Fp>>, comms: seq<LabeledCommitment>, rands: seq<seq<Fp>>)
    requires HonestKeys(ck, vk, td) && CommittedAll(ck, ps, coins, comms, rands)
    ensures AllOk(ck, td, ps, comms, rands)
  {
    forall i | 0 <= i < |ps| ensures OneOk(ck, td, ps[i], comms[i], rands[i]) && RandFits(ck, rands[i]) {
      CommitOneOk(ck, vk, td, ps[i], coins[i], comms[i], rands[i]);
    }
  }

  function RandValues(rands: seq<seq<Fp>>, x: Fp): (r: seq<Fp>)
    ensures |r| == |rands| && forall i :: 0 <= i < |r| ==> r[i] == Eval(rands[i], x)
  {
    seq(|rands|, i requires 0 <= i < |rands| => Eval(rands[i], x))
  }

  // ----- what the commitments add up to

  /** The negative power undoes the shift of a commitment. */
  lemma ShiftCancels(ck: SonicPC.CommitterKey, vk: SonicPC.VerifierKey, td: Trapdoor, bound: Option<nat>)
    requires HonestKeys(ck, vk, td) && (bound.Some? ==> ck.bounds.Some? && bound.value in ck.bounds.value)
    ensures PairedWith(vk, bound).Some? && Mul(PairedWith(vk, bound).value, ShiftOf(td, ck.maxDegree, bound)) == td.h
  {
    Units(td.h);
    if bound.Some? {
      assert HonestShifts(ck, vk, td);
      assert NegPowerOk(vk.negPowers.value, bound.value, ck.maxDegree, td);
    }
  }

  /** The commitments of a query, each paired with the element that undoes its shift. */
  lemma {:induction false} CommsTotal(ck: SonicPC.CommitterKey, vk: SonicPC.VerifierKey, td: Trapdoor,
                                      ps: seq<LabeledPolynomial>, comms: seq<LabeledCommitment>, rands: seq<seq<Fp>>,
                                      xi: Squeezes, n: nat)
    requires HonestKeys(ck, vk, td) && AllOk(ck, td, ps, comms, rands) && n <= |ps| && AllSupported(vk, comms)
    ensures CommSum(vk, comms, xi, n)
            == Mul(td.h, Add(Mul(td.g, CombinedValue(Values(ps, td.beta), xi, n)),
                             Mul(td.gammaG, CombinedValue(RandValues(rands, td.beta), xi, n))))
  {
    if n == 0 {
      Units(td.g);
      Units(td.gammaG);
      Units(0);
      Units(td.h);
    } else {
      var p, c, r := ps[n - 1], comms[n - 1], rands[n - 1];
      CommsTotal(ck, vk, td, ps, comms, rands, xi, n - 1);
      assert OneOk(ck, td, p, c, r);
      ShiftCancels(ck, vk, td, c.degreeBound);
      TotalStep(td.h, td.g, td.gammaG, CombinedValue(Values(ps, td.beta), xi, n - 1),
                CombinedValue(RandValues(rands, td.beta), xi, n - 1), Eval(p.polynomial, td.beta), Eval(r, td.beta),
                ShiftOf(td, ck.maxDegree, c.degreeBound), PairedWith(vk, c.degreeBound).value, xi(n - 1));
    }
  }

  lemma BoundsSupported(ck: SonicPC.CommitterKey, vk: SonicPC.VerifierKey, td: Trapdoor, ps: seq<LabeledPolynomial>,
                        comms: seq<LabeledCommitment>, rands: seq<seq<Fp>>)
    requires HonestKeys(ck, vk, td) && AllOk(ck, td, ps, comms, rands)
    ensures AllSupported(vk, comms)
  {
    forall i | 0 <= i < |comms| ensures Supported(vk, comms[i].degreeBound) {
      assert OneOk(ck, td, ps[i], comms[i], rands[i]);
      ShiftCancels(ck, vk, td, comms[i].degreeBound);
    }
  }

  lemma TotalStep(h: Fp, g: Fp, gamma: Fp, a: Fp, b: Fp, p: Fp, r: Fp, shift: Fp, e: Fp, x: Fp)
    requires Mul(e, shift) == h
    ensures Add(Mul(h, Add(Mul(g, a), Mul(gamma, b))), Mul(Mul(Mul(shift, Add(Mul(g, p), Mul(gamma, r))), x), e))
            == Mul(h, Add(Mul(g, Add(a, Mul(p, x))), Mul(gamma, Add(b, Mul(r, x)))))
  {
    var m := Add(Mul(g, p), Mul(gamma, r));
    assert Mul(Mul(Mul(shift, m), x), e) == Mul(Mul(e, shift), Mul(m, x)) by { RingLaws(); }
    assert Mul(m, x) == Add(Mul(g, Mul(p, x)), Mul(gamma, Mul(r, x))) by { RingLaws(); }
    Distributes(h, Add(Mul(g, a), Mul(gamma, b)), Mul(m, x));
    Distributes(g, a, Mul(p, x));
    Distributes(gamma, b, Mul(r, x));
    FourSum(Mul(g, a), Mul(gamma, b), Mul(g, Mul(p, x)), Mul(gamma, Mul(r, x)));
  }

  // ----- the combined polynomial and blinding

  lemma {:induction false} CombinedEvaluates(ps: seq<LabeledPolynomial>, xi: Squeezes, n: nat, x: Fp)
    requires n <= |ps|
    ensures Eval(CombinePolys(ps, xi, n), x) == CombinedValue(Values(ps, x), xi, n)
  {
    if n > 0 {
      CombinedEvaluates(ps, xi, n - 1, x);
      EvalAdded(CombinePolys(ps, xi, n - 1), xi(n - 1), ps[n - 1].polynomial, x);
    }
  }

  lemma {:induction false} RandsEvaluate(rands: seq<seq<Fp>>, xi: Squeezes, n: nat, x: Fp)
    requires n <= |rands|
    ensures Eval(CombineRands(rands, xi, n), x) == CombinedValue(RandValues(rands, x), xi, n)
  {
    if n > 0 {
      RandsEvaluate(rands, xi, n - 1, x);
      EvalAdded(CombineRands(rands, xi, n - 1), xi(n - 1), rands[n - 1], x);
    }
  }

  lemma {:induction false} CombinedBelow(ck: SonicPC.CommitterKey, td: Trapdoor, ps: seq<LabeledPolynomial>,
                                         comms: seq<LabeledCommitment>, rands: seq<seq<Fp>>, xi: Squeezes, n: nat,
                                         k: nat)
    requires AllOk(ck, td, ps, comms, rands) && n <= |ps|
    ensures k >= |ck.powersOfG| ==> Coef(CombinePolys(ps, xi, n), k) == 0
    ensures k >= |ck.powersOfGammaG| ==> Coef(CombineRands(rands, xi, n), k) == 0
  {
    if n > 0 {
      CombinedBelow(ck, td, ps, comms, rands, xi, n - 1, k);
      var x, f, r := xi(n - 1), ps[n - 1].polynomial, rands[n - 1];
      assert OneOk(ck, td, ps[n - 1], comms[n - 1], r) && RandFits(ck, r);
      CoefPlus(CombinePolys(ps, xi, n - 1), Scale(x, f), k);
      CoefScale(x, f, k);
      CoefPlus(CombineRands(rands, xi, n - 1), Scale(x, r), k);
      CoefScale(x, r, k);
      if |ck.powersOfG| <= k < |f| { AboveDegree(f, k); }
      Units(x);
      Units(0);
    }
  }

  /** What the proof of open is worth times beta - z. */
  lemma OpeningValue(ck: SonicPC.CommitterKey, vk: SonicPC.VerifierKey, td: Trapdoor, ps: seq<LabeledPolynomial>,
                     comms: seq<LabeledCommitment>, rands: seq<seq<Fp>>, z: Fp, xi: Squeezes)
    requires HonestKeys(ck, vk, td) && AllOk(ck, td, ps, comms, rands)
    ensures var p, r := CombinePolys(ps, xi, |ps|), CombineRands(rands, xi, |ps|);
            var proof := Opened(Powers(ck.powersOfG, ck.powersOfGammaG), p, z, r);
            && proof.Some? && proof.value.randomV == (if IsZero(r) then None else Some(Eval(r, z)))
            && Mul(proof.value.w, Sub(td.beta, z))
               == Add(Mul(td.g, Sub(Eval(p, td.beta), Eval(p, z))), Mul(td.gammaG, Sub(Eval(r, td.beta), Eval(r, z))))
  {
    var p, r := CombinePolys(ps, xi, |ps|), CombineRands(rands, xi, |ps|);
    forall k: nat ensures k >= |ck.powersOfG| ==> Coef(p, k) == 0 {
      CombinedBelow(ck, td, ps, comms, rands, xi, |ps|, k);
    }
    forall k: nat ensures k >= |ck.powersOfGammaG| ==> Coef(r, k) == 0 {
      CombinedBelow(ck, td, ps, comms, rands, xi, |ps|, k);
    }
    DegreeBelow(p, |ck.powersOfG|);
    DegreeBelow(r, |ck.powersOfGammaG|);
    OpenedValue(Powers(ck.powersOfG, ck.powersOfGammaG), td.g, td.gammaG, td.beta, p, z, r);
  }

  // ----- the pairing product

  lemma AdjustedIs(vk: SonicPC.VerifierKey, v: Fp, z: Fp, proof: Proof, rv: Fp)
    requires rv == if proof.randomV.Some? then proof.randomV.value else 0
    ensures AdjustedWitness(vk, v, z, proof) == Add(Sub(Mul(vk.g, v), Mul(proof.w, z)), Mul(vk.gammaG, rv))
  {
    Units(vk.gammaG);
    Units(Sub(Mul(vk.g, v), Mul(proof.w, z)));
  }

  /** h (g p(beta) + gamma r(beta)) - adjusted h - w beta h == h g (p(z) - v). */
  lemma ErrorIs(h: Fp, beta: Fp, g: Fp, gamma: Fp, pb: Fp, pz: Fp, rb: Fp, rz: Fp, v: Fp, z: Fp, w: Fp)
    requires Mul(w, Sub(beta, z)) == Add(Mul(g, Sub(pb, pz)), Mul(gamma, Sub(rb, rz)))
    ensures var adjusted := Add(Sub(Mul(g, v), Mul(w, z)), Mul(gamma, rz));
            Add(Mul(h, Add(Mul(g, pb), Mul(gamma, rb))), Add(Mul(Neg(adjusted), h), Mul(Neg(w), Mul(h, beta))))
            == Mul(h, Mul(g, Sub(pz, v)))
  {
    var adjusted, m, wb :=
      Add(Sub(Mul(g, v), Mul(w, z)), Mul(gamma, rz)), Add(Mul(g, pb), Mul(gamma, rb)), Mul(w, beta);
    Inner(g, gamma, pb, pz, rb, rz, v, w, beta, z);
    SubIff(m, Add(adjusted, wb), Mul(g, Sub(pz, v)));
    assert Mul(Neg(adjusted), h) == Neg(Mul(h, adjusted)) by { RingLaws(); }
    assert Mul(Neg(w), Mul(h, beta)) == Neg(Mul(h, wb)) by { RingLaws(); }
    Gather(h, m, adjusted, wb);
  }

  /** g p(beta) + gamma r(beta) - adjusted - w beta == g (p(z) - v). */
  lemma Inner(g: Fp, gamma: Fp, pb: Fp, pz: Fp, rb: Fp, rz: Fp, v: Fp, w: Fp, beta: Fp, z: Fp)
    requires Mul(w, Sub(beta, z)) == Add(Mul(g, Sub(pb, pz)), Mul(gamma, Sub(rb, rz)))
    ensures Add(Mul(g, pb), Mul(gamma, rb))
            == Add(Add(Add(Sub(Mul(g, v), Mul(w, z)), Mul(gamma, rz)), Mul(w, beta)), Mul(g, Sub(pz, v)))
  {
    KzgVerifier.FactorOut(w, beta, z);
    KzgVerifier.FactorOut(g, pb, pz);
    KzgVerifier.FactorOut(g, pz, v);
    KzgVerifier.FactorOut(gamma, rb, rz);
    var gb, gz, gv, yb, yz, wb, wz :=
      Mul(g, pb), Mul(g, pz), Mul(g, v), Mul(gamma, rb), Mul(gamma, rz), Mul(w, beta), Mul(w, z);
    SubIff(gz, gv, Sub(gz, gv));
    SubIff(gb, gz, Sub(gb, gz));
    SubIff(yb, yz, Sub(yb, yz));
    FiveSum(gv, Neg(wz), yz, wb, Sub(gz, gv));
    SplitSum(gz, yz, Sub(gb, gz), Sub(yb, yz));
  }

  lemma FiveSum(a: Fp, b: Fp, c: Fp, d: Fp, e: Fp)
    ensures Add(Add(Add(Add(a, b), c), d), e) == Add(Add(a, e), Add(c, Add(d, b)))
  {
    RingLaws();
  }

  lemma SplitSum(a: Fp, b: Fp, c: Fp, d: Fp)
    ensures Add(a, Add(b, Add(c, d))) == Add(Add(a, c), Add(b, d))
  {
    RingLaws();
  }

  lemma Gather(h: Fp, m: Fp, adjusted: Fp, wb: Fp)
    ensures Add(Mul(h, m), Add(Neg(Mul(h, adjusted)), Neg(Mul(h, wb)))) == Mul(h, Sub(m, Add(adjusted, wb)))
  {
    KzgVerifier.FactorOut(h, m, Add(adjusted, wb));
    Distributes(h, adjusted, wb);
    NegDistributes(Mul(h, adjusted), Mul(h, wb));
  }

  // ----- one opening

  /** The error of the combined value that a query claims of its polynomials. */
  function ValueError(ps: seq<LabeledPolynomial>, point: Fp, values: seq<Fp>, xi: Squeezes): Fp
    requires |ps| == |values|
  {
    Sub(CombinedValue(Values(ps, point), xi, |ps|), CombinedValue(values, xi, |ps|))
  }

  lemma {:induction false} TrueHasNoError(ps: seq<LabeledPolynomial>, point: Fp, xi: Squeezes)
    ensures ValueError(ps, point, Values(ps, point), xi) == 0
  {
    SubZero(CombinedValue(Values(ps, point), xi, |ps|), CombinedValue(Values(ps, point), xi, |ps|));
  }

  /** The residual of an honest opening with any claimed values: h times g times their error. */
  lemma {:induction false} OpeningError(ck: SonicPC.CommitterKey, vk: SonicPC.VerifierKey, td: Trapdoor,
                                        ps: seq<LabeledPolynomial>, rands: seq<seq<Fp>>, q: Query)
    requires HonestKeys(ck, vk, td) && AllOk(ck, td, ps, q.comms, rands) && Aligned(q)
    requires Opened(Powers(ck.powersOfG, ck.powersOfGammaG), CombinePolys(ps, q.xi, |ps|), q.point,
                    CombineRands(rands, q.xi, |ps|)) == Some(q.proof)
    ensures AllSupported(vk, q.comms)
    ensures Error(vk, q) == Mul(td.h, Mul(td.g, ValueError(ps, q.point, q.values, q.xi)))
  {
    var n, p, r := |ps|, CombinePolys(ps, q.xi, |ps|), CombineRands(rands, q.xi, |ps|);
    BoundsSupported(ck, vk, td, ps, q.comms, rands);
    OpeningValue(ck, vk, td, ps, q.comms, rands, q.point, q.xi);
    CommsTotal(ck, vk, td, ps, q.comms, rands, q.xi, n);
    CombinedEvaluates(ps, q.xi, n, td.beta);
    CombinedEvaluates(ps, q.xi, n, q.point);
    RandsEvaluate(rands, q.xi, n, td.beta);
    var v, rz := CombinedValue(q.values, q.xi, n), Eval(r, q.point);
    if IsZero(r) { ZeroEvaluates(r, q.point); }
    AdjustedIs(vk, v, q.point, q.proof, rz);
    ErrorIs(td.h, td.beta, td.g, td.gammaG, Eval(p, td.beta), Eval(p, q.point), Eval(r, td.beta), rz, v, q.point,
            q.proof.w);
  }

  lemma {:induction false} BoundsAreOk(ck: SonicPC.CommitterKey, ps: seq<LabeledPolynomial>, coins: seq<seq<Fp>>,
                                       comms: seq<LabeledCommitment>, rands: seq<seq<Fp>>, n: nat)
    requires CommittedAll(ck, ps, coins, comms, rands) && n <= |ps|
    ensures AllBoundsOk(ck, ps, n)
  {
    if n > 0 {
      BoundsAreOk(ck, ps, coins, comms, rands, n - 1);
      assert CommitOne(ck, ps[n - 1], coins[n - 1]).Ok?;
    }
  }

  /** What was committed, opened and claimed for one query. */
  ghost predicate IsOpened(ck: SonicPC.CommitterKey, ps: seq<LabeledPolynomial>, coins: seq<seq<Fp>>,
                           rands: seq<seq<Fp>>, q: Query) {
    CommittedAll(ck, ps, coins, q.comms, rands) && Aligned(q) && OpenSpec(ck, ps, rands, q.point, q.xi) == Ok(q.proof)
  }

  /** Whatever was committed can be opened. */
  lemma {:induction false} Opens(ck: SonicPC.CommitterKey, vk: SonicPC.VerifierKey, td: Trapdoor,
                                 ps: seq<LabeledPolynomial>, coins: seq<seq<Fp>>, comms: seq<LabeledCommitment>,
                                 rands: seq<seq<Fp>>, z: Fp, xi: Squeezes)
    requires HonestKeys(ck, vk, td) && CommittedAll(ck, ps, coins, comms, rands)
    ensures OpenSpec(ck, ps, rands, z, xi).Ok?
  {
    CommitAllOk(ck, vk, td, ps, coins, comms, rands);
    BoundsAreOk(ck, ps, coins, comms, rands, |ps|);
    OpeningValue(ck, vk, td, ps, comms, rands, z, xi);
  }

  /** For any bounds and hiding check accepts what open returned exactly when h times g times the
      error of the combined value is zero; so it accepts the true values. */
  lemma {:induction false} Exactly(ck: SonicPC.CommitterKey, vk: SonicPC.VerifierKey, td: Trapdoor,
                                   ps: seq<LabeledPolynomial>, coins: seq<seq<Fp>>, rands: seq<seq<Fp>>, q: Query)
    requires HonestKeys(ck, vk, td) && IsOpened(ck, ps, coins, rands, q)
    ensures CheckSpec(vk, q) == Some(Mul(td.h, Mul(td.g, ValueError(ps, q.point, q.values, q.xi))) == 0)
    ensures q.values == Values(ps, q.point) ==> CheckSpec(vk, q) == Some(true)
  {
    CommitAllOk(ck, vk, td, ps, coins, q.comms, rands);
    OpeningError(ck, vk, td, ps, rands, q);
    CheckExactly(vk, q);
    if q.values == Values(ps, q.point) {
      TrueHasNoError(ps, q.point, q.xi);
      Units(td.g);
      Units(td.h);
    }
  }

  // ----- several queries at once

  /** The polynomials, coins and blindings behind a query. */
  datatype Source = Source(ps: seq<LabeledPolynomial>, coins: seq<seq<Fp>>, rands: seq<seq<Fp>>)

  ghost predicate AllOpened(ck: SonicPC.CommitterKey, sources: seq<Source>, qs: seq<Query>) {
    && |sources| == |qs|
    && forall i :: 0 <= i < |qs| ==> IsOpened(ck, sources[i].ps, sources[i].coins, sources[i].rands, qs[i])
  }

  /** The errors of the claimed values, one for each query. */
  ghost function ValueErrors(ck: SonicPC.CommitterKey, sources: seq<Source>, qs: seq<Query>): (r: seq<Fp>)
    requires AllOpened(ck, sources, qs)
    ensures |r| == |qs|
    ensures forall i :: 0 <= i < |r| ==> r[i] == ValueError(sources[i].ps, qs[i].point, qs[i].values, qs[i].xi)
  {
    seq(|qs|, i requires 0 <= i < |qs| && AllOpened(ck, sources, qs) =>
      ValueError(sources[i].ps, qs[i].point, qs[i].values, qs[i].xi))
  }

  lemma {:induction false} SumPullsOut(errors: seq<Fp>, values: seq<Fp>, h: Fp, g: Fp, draws: BatchChecks.Draws, n: nat)
    requires n <= |errors| == |values| && forall i :: 0 <= i < |errors| ==> errors[i] == Mul(h, Mul(g, values[i]))
    ensures BatchChecks.WeightedSum(errors, draws, n) == Mul(Mul(h, g), BatchChecks.WeightedSum(values, draws, n))
  {
    if n == 0 {
      Units(Mul(h, g));
    } else {
      SumPullsOut(errors, values, h, g, draws, n - 1);
      PullTogether(h, g, BatchChecks.Randomizer(draws, n - 1), BatchChecks.WeightedSum(values, draws, n - 1),
                   values[n - 1]);
    }
  }

  lemma PullTogether(h: Fp, g: Fp, rho: Fp, sum: Fp, e: Fp)
    ensures Add(Mul(Mul(h, g), sum), Mul(rho, Mul(h, Mul(g, e)))) == Mul(Mul(h, g), Add(sum, Mul(rho, e)))
  {
    assert Mul(rho, Mul(h, Mul(g, e))) == Mul(Mul(h, g), Mul(rho, e)) by { RingLaws(); }
    Distributes(Mul(h, g), sum, Mul(rho, e));
  }

  /** batch_check on what open returned says whether h g times the weighted sum of the errors
      vanishes. */
  lemma {:induction false} BatchExactly(ck: SonicPC.CommitterKey, vk: SonicPC.VerifierKey, td: Trapdoor,
                                        sources: seq<Source>, qs: seq<Query>, draws: BatchChecks.Draws)
    requires HonestKeys(ck, vk, td) && AllOpened(ck, sources, qs)
    ensures forall i :: 0 <= i < |qs| ==> Aligned(qs[i])
    ensures CheckElems(vk, BatchSums(vk, qs, draws, |qs|))
            == Some(Mul(Mul(td.h, td.g), BatchChecks.WeightedSum(ValueErrors(ck, sources, qs), draws, |qs|)) == 0)
  {
    forall i | 0 <= i < |qs|
      ensures Aligned(qs[i]) && AllSupported(vk, qs[i].comms)
      ensures Error(vk, qs[i]) == Mul(td.h, Mul(td.g, ValueErrors(ck, sources, qs)[i]))
    {
      assert IsOpened(ck, sources[i].ps, sources[i].coins, sources[i].rands, qs[i]);
      CommitAllOk(ck, vk, td, sources[i].ps, sources[i].coins, qs[i].comms, sources[i].rands);
      OpeningError(ck, vk, td, sources[i].ps, sources[i].rands, qs[i]);
    }
    BatchIsWeighted(vk, qs, draws);
    SumPullsOut(Errors(vk, qs), ValueErrors(ck, sources, qs), td.h, td.g, draws, |qs|);
  }

  /** If all values are true, batch_check accepts, whatever is drawn. */
  lemma {:induction false} BatchComplete(ck: SonicPC.CommitterKey, vk: SonicPC.VerifierKey, td: Trapdoor,
                                         sources: seq<Source>, qs: seq<Query>, draws: BatchChecks.Draws)
    requires HonestKeys(ck, vk, td) && AllOpened(ck, sources, qs)
    requires forall i :: 0 <= i < |qs| ==> qs[i].values == Values(sources[i].ps, qs[i].point)
    ensures forall i :: 0 <= i < |qs| ==> Aligned(qs[i])
    ensures CheckElems(vk, BatchSums(vk, qs, draws, |qs|)) == Some(true)
  {
    forall i | 0 <= i < |qs| ensures Accepted(vk, qs[i]) {
      assert IsOpened(ck, sources[i].ps, sources[i].coins, sources[i].rands, qs[i]);
      Exactly(ck, vk, td, sources[i].ps, sources[i].coins, sources[i].rands, qs[i]);
    }
    AcceptedTogether(vk, qs, draws);
  }
}
