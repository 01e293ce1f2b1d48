/** Checking several openings at once (kzg10/mod.rs, marlin/marlin_pst13_pc/mod.rs, ipa_pc/mod.rs):
    for arbitrary commitments and proofs, the one batched equation compares with zero the sum of
    what the separate checks compare with zero, weighted with the randomizers. */
module BatchChecks {
  import opened PrimeField
  import opened Vectors
  import KZG10
  import KzgVerifier

  /** The elements drawn from the random source, in order. */
  type Draws = nat -> Fp

  /** The first opening is weighted with one. */
  function Randomizer(draws: Draws, i: nat): Fp {
    if i == 0 then 1 else draws(i - 1)
  }

  // ----- weighted sums of errors

  function WeightedSum(errors: seq<Fp>, draws: Draws, n: nat): Fp
    requires n <= |errors|
  {
    if n == 0 then 0 else Add(WeightedSum(errors, draws, n - 1), Mul(Randomizer(draws, n - 1), errors[n - 1]))
  }

  lemma {:induction false} AllZero(errors: seq<Fp>, draws: Draws, n: nat)
    requires n <= |errors| && forall i :: 0 <= i < n ==> errors[i] == 0
    ensures WeightedSum(errors, draws, n) == 0
  {
    if n > 0 {
      AllZero(errors, draws, n - 1);
      Units(Randomizer(draws, n - 1));
      Units(0);
    }
  }

  /** What every opening adds: the first its error, each other its error times what was drawn before it. */
  function Terms(errors: seq<Fp>, draws: Draws): (r: seq<Fp>)
    ensures |r| == |errors| && (r != [] ==> r[0] == errors[0])
    ensures forall i :: 0 < i < |r| ==> r[i] == Mul(draws(i - 1), errors[i])
  {
    seq(|errors|, i requires 0 <= i < |errors| => Term(errors, draws, i))
  }

  function Term(errors: seq<Fp>, draws: Draws, i: nat): (r: Fp)
    requires i < |errors|
  {
    if i == 0 then errors[0] else Mul(draws(i - 1), errors[i])
  }

  /** The batched sum is the sum of these. */
  lemma {:induction false} WeightedSumIs(errors: seq<Fp>, draws: Draws, n: nat)
    requires n <= |errors|
    ensures WeightedSum(errors, draws, n) == Sum(Terms(errors, draws)[..n])
  {
    if n > 0 {
      WeightedSumIs(errors, draws, n - 1);
      SumNext(Terms(errors, draws), n);
      Units(errors[0]);
    }
  }

  /** A single error shows, unless it is not the first and zero was drawn before it. */
  lemma {:induction false} OneWrong(errors: seq<Fp>, draws: Draws, n: nat, j: nat)
    requires j < n <= |errors| && forall i :: 0 <= i < n && i != j ==> errors[i] == 0
    ensures WeightedSum(errors, draws, n) == if j == 0 then errors[j] else Mul(draws(j - 1), errors[j])
    ensures WeightedSum(errors, draws, n) == 0 <==> (j > 0 && draws(j - 1) == 0) || errors[j] == 0
  {
    Units(Mul(Randomizer(draws, j), errors[j]));
    Units(errors[j]);
    if j > 0 { ZeroProduct(draws(j - 1), errors[j]); }
    if j == n - 1 {
      AllZero(errors, draws, n - 1);
    } else {
      OneWrong(errors, draws, n - 1, j);
      Units(Randomizer(draws, n - 1));
      Units(WeightedSum(errors, draws, n - 1));
    }
  }

  /** Of two errors the later is weighted with what was drawn before it. */
  lemma {:induction false} TwoWrong(errors: seq<Fp>, draws: Draws, n: nat, i: nat, j: nat)
    requires i < j < n <= |errors| && forall k :: 0 <= k < n && k != i && k != j ==> errors[k] == 0
    ensures WeightedSum(errors, draws, n)
            == Add(if i == 0 then errors[i] else Mul(draws(i - 1), errors[i]), Mul(draws(j - 1), errors[j]))
  {
    if j == n - 1 {
      OneWrong(errors, draws, n - 1, i);
    } else {
      TwoWrong(errors, draws, n - 1, i, j);
      Units(Randomizer(draws, n - 1));
      Units(WeightedSum(errors, draws, n - 1));
    }
  }

  lemma ZeroProduct(a: Fp, b: Fp)
    ensures Mul(a, b) == 0 <==> a == 0 || b == 0
  {
    if a == 0 || b == 0 {
      Units(a);
      Units(b);
    } else if Mul(a, b) == 0 {
      NoZeroDivisors(a, b);
    }
  }

  // ----- the sums that every batched check keeps

  /** Commitments, the multipliers of g and gamma_g, and the pairings of the witnesses. */
  datatype Totals = Totals(c: Fp, gMultiplier: Fp, gammaMultiplier: Fp, pairings: Fp)

  function Deficit(g: Fp, gamma: Fp, h: Fp, t: Totals): Fp {
    Sub(Mul(Sub(Sub(t.c, Mul(g, t.gMultiplier)), Mul(gamma, t.gammaMultiplier)), h), t.pairings)
  }

  function AddTotals(t: Totals, rho: Fp, u: Totals): Totals {
    Totals(Add(t.c, Mul(u.c, rho)), Add(t.gMultiplier, Mul(rho, u.gMultiplier)),
           Add(t.gammaMultiplier, Mul(rho, u.gammaMultiplier)), Add(t.pairings, Mul(rho, u.pairings)))
  }

  lemma SubSums(a: Fp, x: Fp, b: Fp, y: Fp)
    ensures Sub(Add(a, x), Add(b, y)) == Add(Sub(a, b), Sub(x, y))
  {
    NegDistributes(b, y);
    FourSum(a, x, Neg(b), Neg(y));
  }

  /** (a + rho x) - k (b + rho y) == (a - k b) + rho (x - k y). */
  lemma SubScaled(a: Fp, x: Fp, b: Fp, y: Fp, k: Fp, rho: Fp)
    ensures Sub(Add(a, Mul(rho, x)), Mul(k, Add(b, Mul(rho, y)))) == Add(Sub(a, Mul(k, b)), Mul(rho, Sub(x, Mul(k, y))))
  {
    Distributes(k, b, Mul(rho, y));
    assert Mul(k, Mul(rho, y)) == Mul(rho, Mul(k, y)) by { RingLaws(); }
    SubSums(a, Mul(rho, x), Mul(k, b), Mul(rho, Mul(k, y)));
    KzgVerifier.FactorOut(rho, x, Mul(k, y));
  }

  lemma TimesH(d: Fp, rho: Fp, e: Fp, h: Fp)
    ensures Mul(Add(d, Mul(rho, e)), h) == Add(Mul(d, h), Mul(rho, Mul(e, h)))
  {
    Commutes(Add(d, Mul(rho, e)), h);
    Distributes(h, d, Mul(rho, e));
    assert Mul(h, Mul(rho, e)) == Mul(rho, Mul(e, h)) by { RingLaws(); }
    Commutes(h, d);
  }

  lemma DeficitAdds(g: Fp, gamma: Fp, h: Fp, t: Totals, rho: Fp, u: Totals)
    ensures Deficit(g, gamma, h, AddTotals(t, rho, u))
            == Add(Deficit(g, gamma, h, t), Mul(rho, Deficit(g, gamma, h, u)))
  {
    Commutes(u.c, rho);
    var x, y := Sub(t.c, Mul(g, t.gMultiplier)), Sub(u.c, Mul(g, u.gMultiplier));
    SubScaled(t.c, u.c, t.gMultiplier, u.gMultiplier, g, rho);
    SubScaled(x, y, t.gammaMultiplier, u.gammaMultiplier, gamma, rho);
    var x', y' := Sub(x, Mul(gamma, t.gammaMultiplier)), Sub(y, Mul(gamma, u.gammaMultiplier));
    TimesH(x', rho, y', h);
    SubSums(Mul(x', h), Mul(rho, Mul(y', h)), t.pairings, Mul(rho, u.pairings));
    KzgVerifier.FactorOut(rho, Mul(y', h), u.pairings);
  }

  function Blinding(randomV: Option<Fp>): Fp {
    if randomV.Some? then randomV.value else 0
  }

  function Deficits(g: Fp, gamma: Fp, h: Fp, us: seq<Totals>): (r: seq<Fp>)
    ensures |r| == |us| && forall i :: 0 <= i < |r| ==> r[i] == Deficit(g, gamma, h, us[i])
  {
    seq(|us|, i requires 0 <= i < |us| => Deficit(g, gamma, h, us[i]))
  }

  /** The weighted sum of the first n deficits. */
  function WeightedDeficits(g: Fp, gamma: Fp, h: Fp, us: seq<Totals>, draws: Draws, n: nat): Fp
    requires n <= |us|
  {
    WeightedSum(Deficits(g, gamma, h, us), draws, n)
  }

  /** One more claim in the sums. */
  lemma DeficitsAdd(g: Fp, gamma: Fp, h: Fp, us: seq<Totals>, draws: Draws, n: nat, t: Totals)
    requires n < |us| && Deficit(g, gamma, h, t) == WeightedDeficits(g, gamma, h, us, draws, n)
    ensures Deficit(g, gamma, h, AddTotals(t, Randomizer(draws, n), us[n]))
            == WeightedDeficits(g, gamma, h, us, draws, n + 1)
  {
    DeficitAdds(g, gamma, h, t, Randomizer(draws, n), us[n]);
  }

  lemma EmptyDeficit(g: Fp, gamma: Fp, h: Fp)
    ensures Deficit(g, gamma, h, Totals(0, 0, 0, 0)) == 0
  {
    Units(g);
    Units(gamma);
    Units(h);
    SubZero(0, 0);
  }

  // ----- KZG10

  datatype Claim = Claim(comm: Fp, point: Fp, value: Fp, proof: KZG10.Proof)

  /** One opening: the commitment plus the witness times the point, the value, the blinding. */
  function Single(vk: KZG10.VerifierKey, c: Claim): Totals {
    Totals(Add(Mul(c.proof.w, c.point), c.comm), c.value, Blinding(c.proof.randomV), Mul(c.proof.w, vk.betaH))
  }

  function Singles(vk: KZG10.VerifierKey, cs: seq<Claim>): (r: seq<Totals>)
    ensures |r| == |cs| && forall i :: 0 <= i < |r| ==> r[i] == Single(vk, cs[i])
  {
    seq(|cs|, i requires 0 <= i < |cs| => Single(vk, cs[i]))
  }

  /** check accepts a claim exactly when it has no deficit. */
  lemma CheckIsDeficit(vk: KZG10.VerifierKey, c: Claim)
    ensures KZG10.Check(vk, c.comm, c.point, c.value, c.proof) <==> Deficit(vk.g, vk.gammaG, vk.h, Single(vk, c)) == 0
  {
    var w, d := c.proof.w, Sub(c.comm, Mul(vk.g, c.value));
    var d' := Sub(d, Mul(vk.gammaG, Blinding(c.proof.randomV)));
    if c.proof.randomV.None? {
      Units(vk.gammaG);
      SubIff(d, 0, d);
      Units(d);
    }
    DeficitIsImbalance(vk, c);
    SubZero(Mul(d', vk.h), Mul(w, Sub(vk.betaH, Mul(vk.h, c.point))));
  }

  lemma LiftOut(x: Fp, c: Fp, y: Fp, z: Fp)
    ensures Sub(Sub(Add(x, c), y), z) == Add(Sub(Sub(c, y), z), x)
  {
    RingLaws();
  }

  /** The running sums of kzg10::batch_check. */
  method BatchCheck(vk: KZG10.VerifierKey, comms: seq<Fp>, points: seq<Fp>, values: seq<Fp>, proofs: seq<KZG10.Proof>,
                    draws: Draws) returns (result: bool)
    ensures result <==> WeightedDeficits(vk.g, vk.gammaG, vk.h, Singles(vk, Zip(comms, points, values, proofs)), draws,
                                         |Zip(comms, points, values, proofs)|) == 0
  {
    ghost var us := Singles(vk, Zip(comms, points, values, proofs));
    var totalC: Fp, totalW: Fp, randomizer: Fp, gMultiplier: Fp, gammaGMultiplier: Fp := 0, 0, 1, 0, 0;
    ghost var t := Totals(0, 0, 0, 0);
    EmptyDeficit(vk.g, vk.gammaG, vk.h);
    assert Mul(0, vk.betaH) == 0 by { Units(vk.betaH); }
    for i := 0 to Shortest(|comms|, |points|, |values|, |proofs|)
      invariant randomizer == Randomizer(draws, i)
      invariant t == Totals(totalC, gMultiplier, gammaGMultiplier, Mul(totalW, vk.betaH))
      invariant Deficit(vk.g, vk.gammaG, vk.h, t) == WeightedDeficits(vk.g, vk.gammaG, vk.h, us, draws, i)
    {
      var w := proofs[i].w;
      var c := Add(Mul(w, points[i]), comms[i]);
      ghost var u := Single(vk, Claim(comms[i], points[i], values[i], proofs[i]));
      assert us[i] == u;
      DeficitsAdd(vk.g, vk.gammaG, vk.h, us, draws, i, t);
      PairingAdds(totalW, w, randomizer, vk.betaH);
      t := AddTotals(t, randomizer, u);
      gMultiplier := Add(gMultiplier, Mul(randomizer, values[i]));
      if proofs[i].randomV.Some? {
        gammaGMultiplier := Add(gammaGMultiplier, Mul(randomizer, proofs[i].randomV.value));
      } else {
        Units(randomizer);
        Units(gammaGMultiplier);
      }
      totalC := Add(totalC, Mul(c, randomizer));
      totalW := Add(totalW, Mul(w, randomizer));
      randomizer := draws(i);
    }
    totalC := Sub(totalC, Mul(vk.g, gMultiplier));
    totalC := Sub(totalC, Mul(vk.gammaG, gammaGMultiplier));
    NegatedPairing(totalW, vk.betaH, totalC, vk.h);
    result := Add(Mul(Neg(totalW), vk.betaH), Mul(totalC, vk.h)) == 0;
  }

  lemma PairingAdds(total: Fp, w: Fp, rho: Fp, b: Fp)
    ensures Mul(Add(total, Mul(w, rho)), b) == Add(Mul(total, b), Mul(rho, Mul(w, b)))
  {
    Commutes(w, rho);
    TimesH(total, rho, w, b);
  }

  lemma NegatedPairing(w: Fp, b: Fp, c: Fp, h: Fp)
    ensures Add(Mul(Neg(w), b), Mul(c, h)) == Sub(Mul(c, h), Mul(w, b))
  {
    assert Mul(Neg(w), b) == Neg(Mul(w, b)) by { RingLaws(); }
    Commutes(Neg(Mul(w, b)), Mul(c, h));
  }

  function Shortest(comms: nat, points: nat, values: nat, proofs: nat): (n: nat)
    ensures n <= comms && n <= points && n <= values && n <= proofs
    ensures n == comms || n == points || n == values || n == proofs
  {
    var m := if comms < points then comms else points;
    var m' := if m < values then m else values;
    if m' < proofs then m' else proofs
  }

  function Zip(comms: seq<Fp>, points: seq<Fp>, values: seq<Fp>, proofs: seq<KZG10.Proof>): (r: seq<Claim>)
    ensures |r| == Shortest(|comms|, |points|, |values|, |proofs|)
    ensures forall i :: 0 <= i < |r| ==> r[i] == Claim(comms[i], points[i], values[i], proofs[i])
  {
    var n := Shortest(|comms|, |points|, |values|, |proofs|);
    seq(n, i requires 0 <= i < n => Claim(comms[i], points[i], values[i], proofs[i]))
  }

  /** Claims behind the end of the shortest list are not looked at. */
  lemma {:induction false} BehindShortest(comms: seq<Fp>, points: seq<Fp>, values: seq<Fp>, proofs: seq<KZG10.Proof>)
    ensures var n := Shortest(|comms|, |points|, |values|, |proofs|);
            Zip(comms, points, values, proofs) == Zip(comms[..n], points[..n], values[..n], proofs[..n])
  {
    var n := Shortest(|comms|, |points|, |values|, |proofs|);
    var cs, cs' := Zip(comms, points, values, proofs), Zip(comms[..n], points[..n], values[..n], proofs[..n]);
    forall i | 0 <= i < n ensures cs[i] == cs'[i] {
    }
  }

  predicate Accepted(vk: KZG10.VerifierKey, c: Claim) {
    KZG10.Check(vk, c.comm, c.point, c.value, c.proof)
  }

  lemma {:induction false} AcceptedHasNoDeficit(vk: KZG10.VerifierKey, cs: seq<Claim>, i: nat)
    requires i < |cs|
    ensures Accepted(vk, cs[i]) <==> Deficits(vk.g, vk.gammaG, vk.h, Singles(vk, cs))[i] == 0
  {
    CheckIsDeficit(vk, cs[i]);
  }

  /** Claims that check accepts one by one, batch_check accepts together. */
  lemma {:induction false} AcceptedTogether(vk: KZG10.VerifierKey, cs: seq<Claim>, draws: Draws)
    requires forall i :: 0 <= i < |cs| ==> Accepted(vk, cs[i])
    ensures WeightedDeficits(vk.g, vk.gammaG, vk.h, Singles(vk, cs), draws, |cs|) == 0
  {
    forall i | 0 <= i < |cs| { AcceptedHasNoDeficit(vk, cs, i); }
    AllZero(Deficits(vk.g, vk.gammaG, vk.h, Singles(vk, cs)), draws, |cs|);
  }

  /** If check accepts all claims but one, batch_check accepts exactly if check accepts that one
      too, or it is not the first and zero was drawn for it. */
  lemma {:induction false} BatchRefinesSingle(vk: KZG10.VerifierKey, cs: seq<Claim>, draws: Draws, j: nat)
    requires j < |cs| && forall i :: 0 <= i < |cs| && i != j ==> Accepted(vk, cs[i])
    ensures WeightedDeficits(vk.g, vk.gammaG, vk.h, Singles(vk, cs), draws, |cs|) == 0
            <==> Accepted(vk, cs[j]) || (j > 0 && draws(j - 1) == 0)
  {
    forall i | 0 <= i < |cs| { AcceptedHasNoDeficit(vk, cs, i); }
    OneWrong(Deficits(vk.g, vk.gammaG, vk.h, Singles(vk, cs)), draws, |cs|, j);
  }

  // ----- the batched equation written out

  /** By how much the two sides of the equation that check compares differ for a claim. */
  function Imbalance(vk: KZG10.VerifierKey, c: Claim): Fp {
    Sub(Mul(Sub(Sub(c.comm, Mul(vk.g, c.value)), Mul(vk.gammaG, Blinding(c.proof.randomV))), vk.h),
        Mul(c.proof.w, Sub(vk.betaH, Mul(vk.h, c.point))))
  }

  function Imbalances(vk: KZG10.VerifierKey, cs: seq<Claim>): (r: seq<Fp>)
    ensures |r| == |cs| && forall i :: 0 <= i < |r| ==> r[i] == Imbalance(vk, cs[i])
  {
    seq(|cs|, i requires 0 <= i < |cs| => Imbalance(vk, cs[i]))
  }

  lemma DeficitIsImbalance(vk: KZG10.VerifierKey, c: Claim)
    ensures Deficit(vk.g, vk.gammaG, vk.h, Single(vk, c)) == Imbalance(vk, c)
  {
    var d := Sub(Sub(c.comm, Mul(vk.g, c.value)), Mul(vk.gammaG, Blinding(c.proof.randomV)));
    var w := c.proof.w;
    LiftOut(Mul(w, c.point), c.comm, Mul(vk.g, c.value), Mul(vk.gammaG, Blinding(c.proof.randomV)));
    BothSides(d, w, c.point, vk.h, vk.betaH);
  }

  /** (d + w z) h - w B == d h - w (B - h z). */
  lemma BothSides(d: Fp, w: Fp, z: Fp, h: Fp, b: Fp)
    ensures Sub(Mul(Add(d, Mul(w, z)), h), Mul(w, b)) == Sub(Mul(d, h), Mul(w, Sub(b, Mul(h, z))))
  {
    KzgVerifier.FactorOut(w, b, Mul(h, z));
    var dh, wb, wz := Mul(d, h), Mul(w, b), Mul(w, Mul(h, z));
    assert Mul(Add(d, Mul(w, z)), h) == Add(dh, wz) by {
      Commutes(Add(d, Mul(w, z)), h);
      Distributes(h, d, Mul(w, z));
      assert Mul(h, Mul(w, z)) == wz by { RingLaws(); }
      Commutes(h, d);
    }
    SubOfSub(dh, wb, wz);
  }

  lemma SubOfSub(a: Fp, b: Fp, c: Fp)
    ensures Sub(Add(a, c), b) == Sub(a, Sub(b, c))
  {
    NegDistributes(b, Neg(c));
    NegDistributes(c, 0);
    AddAssociates(a, c, Neg(b));
    Commutes(c, Neg(b));
  }

  /** batch_check compares with zero the imbalance of the first claim plus those of the others, each
      times what was drawn before it. */
  lemma {:induction false} BatchIs(vk: KZG10.VerifierKey, cs: seq<Claim>, draws: Draws)
    ensures WeightedDeficits(vk.g, vk.gammaG, vk.h, Singles(vk, cs), draws, |cs|)
            == Sum(Terms(Imbalances(vk, cs), draws))
  {
    var ds := Deficits(vk.g, vk.gammaG, vk.h, Singles(vk, cs));
    forall i | 0 <= i < |cs| ensures ds[i] == Imbalance(vk, cs[i]) { DeficitIsImbalance(vk, cs[i]); }
    assert ds == Imbalances(vk, cs);
    WeightedSumIs(ds, draws, |cs|);
    assert Terms(ds, draws)[..|cs|] == Terms(ds, draws);
  }

  /** If check accepts all claims but two, batch_check accepts exactly if their imbalances cancel, that
      of the first claim as it is and others times what was drawn before them. */
  lemma {:induction false} TwoMustCancel(vk: KZG10.VerifierKey, cs: seq<Claim>, draws: Draws, i: nat, j: nat)
    requires i < j < |cs| && forall k :: 0 <= k < |cs| && k != i && k != j ==> Accepted(vk, cs[k])
    ensures WeightedDeficits(vk.g, vk.gammaG, vk.h, Singles(vk, cs), draws, |cs|) == 0
            <==> Add(if i == 0 then Imbalance(vk, cs[i]) else Mul(draws(i - 1), Imbalance(vk, cs[i])),
                     Mul(draws(j - 1), Imbalance(vk, cs[j]))) == 0
  {
    forall k | 0 <= k < |cs| { AcceptedHasNoDeficit(vk, cs, k); }
    TwoWrong(Deficits(vk.g, vk.gammaG, vk.h, Singles(vk, cs)), draws, |cs|, i, j);
    DeficitIsImbalance(vk, cs[i]);
    DeficitIsImbalance(vk, cs[j]);
  }
}
