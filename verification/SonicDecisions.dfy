/** What Sonic commits to and opens (sonic_pc/mod.rs), for whatever polynomials, and exactly when it
    does not. */
module SonicDecisions {
  import opened PrimeField
  import opened Vectors
  import opened Polynomials
  import opened KZG10
  import opened SonicPC

  // ----- commit

  predicate InOrder(ck: SonicPC.CommitterKey, p: LabeledPolynomial) {
    p.degreeBound.Some? ==>
      && ck.bounds.Some? && p.degreeBound.value in ck.bounds.value
      && Degree(p.polynomial) <= p.degreeBound.value <= ck.maxDegree
  }

  /** How many blinding powers there are for the bound of a polynomial. */
  function BlindingPowers(ck: SonicPC.CommitterKey, p: LabeledPolynomial): nat {
    if p.degreeBound.None? then |ck.powersOfGammaG|
    else if p.degreeBound.value in ck.shiftedPowersOfGammaG then |ck.shiftedPowersOfGammaG[p.degreeBound.value]|
    else 0
  }

  predicate Committable(ck: SonicPC.CommitterKey, p: LabeledPolynomial, coin: seq<Fp>) {
    && InOrder(ck, p) && (p.degreeBound.None? ==> Degree(p.polynomial) < |ck.powersOfG|)
    && (p.hidingBound.Some? ==> 0 < Degree(coin) < BlindingPowers(ck, p))
  }

  /** commit errs exactly for what does not fit its bound, the key or the blinding powers, never panics,
      and blinds with the coin exactly if it hides. */
  lemma CommitDecides(ck: SonicPC.CommitterKey, vk: SonicPC.VerifierKey, td: Trapdoor, p: LabeledPolynomial,
                      coin: seq<Fp>)
    requires HonestKeys(ck, vk, td)
    ensures var r := CommitOne(ck, p, coin);
            && r != Panic && (r.Ok? <==> Committable(ck, p, coin))
            && (r.Ok? ==> r.value.0.degreeBound == p.degreeBound
                          && r.value.1 == if p.hidingBound.Some? then coin else [])
  {
    if p.degreeBound.Some? && InOrder(ck, p) {
      assert HonestShifts(ck, vk, td);
      var d, l := p.degreeBound.value, ck.bounds.value[|ck.bounds.value| - 1];
      assert ShiftedPowers(ck, d) == Some(Powers(ck.shiftedPowersOfG.value[l - d..], ck.shiftedPowersOfGammaG[d]));
    }
  }

  // ----- open

  lemma {:induction false} BoundsInOrder(ck: SonicPC.CommitterKey, ps: seq<LabeledPolynomial>, n: nat)
    requires n <= |ps|
    ensures AllBoundsOk(ck, ps, n) <==> forall i :: 0 <= i < n ==> InOrder(ck, ps[i])
  {
    if n > 0 { BoundsInOrder(ck, ps, n - 1); }
  }

  /** open errs exactly for a bound out of order or a combined polynomial beyond the key, and never
      panics. */
  lemma {:induction false} OpenDecides(ck: SonicPC.CommitterKey, ps: seq<LabeledPolynomial>, rands: seq<seq<Fp>>,
                                       point: Fp, xi: Squeezes)
    requires |ps| == |rands|
    ensures var r := OpenSpec(ck, ps, rands, point, xi);
            && r != Panic
            && (r.Ok? <==> (forall i :: 0 <= i < |ps| ==> InOrder(ck, ps[i]))
                           && Degree(CombinePolys(ps, xi, |ps|)) < |ck.powersOfG|)
  {
    BoundsInOrder(ck, ps, |ps|);
    WitnessDegree(CombinePolys(ps, xi, |ps|), point);
  }

  /** Coefficient k of the combined polynomial: those of the polynomials, each with its challenge. */
  function CoefTerms(ps: seq<LabeledPolynomial>, xi: Squeezes, k: nat): (r: seq<Fp>)
    ensures |r| == |ps| && forall i :: 0 <= i < |r| ==> r[i] == Mul(xi(i), Coef(ps[i].polynomial, k))
  {
    seq(|ps|, i requires 0 <= i < |ps| => CoefTerm(ps, xi, k, i))
  }

  function CoefTerm(ps: seq<LabeledPolynomial>, xi: Squeezes, k: nat, i: nat): (r: Fp)
    requires i < |ps|
  {
    Mul(xi(i), Coef(ps[i].polynomial, k))
  }

  lemma {:induction false} CombinedCoef(ps: seq<LabeledPolynomial>, xi: Squeezes, n: nat, k: nat)
    requires n <= |ps|
    ensures Coef(CombinePolys(ps, xi, n), k) == Sum(CoefTerms(ps, xi, k)[..n])
  {
    if n > 0 {
      CombinedCoef(ps, xi, n - 1, k);
      SumNext(CoefTerms(ps, xi, k), n);
      CoefPlus(CombinePolys(ps, xi, n - 1), Scale(xi(n - 1), ps[n - 1].polynomial), k);
      CoefScale(xi(n - 1), ps[n - 1].polynomial, k);
    }
  }
}
