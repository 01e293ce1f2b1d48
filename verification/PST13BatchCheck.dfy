/** batch_check of PST13 (marlin/marlin_pst13_pc/mod.rs), after commitments and values have been
    combined for each point: one product of pairings with a sum of witnesses for each variable. */
module PST13BatchCheck {
  import opened PrimeField
  import opened Vectors
  import opened MarlinPST13Keys
  import opened MarlinPST13
  import opened BatchChecks
  import H = MarlinPST13Hiding
  import KzgVerifier
  import M = MarlinPST13Completeness

  /** A combined commitment, its point and value, and the proof that stands at the same place. */
  datatype MVClaim = MVClaim(comm: Fp, point: seq<Fp>, value: Fp, proof: Proof)

  /** The four lists side by side, up to the end of the shortest. */
  function MVZip(comms: seq<Fp>, points: seq<seq<Fp>>, values: seq<Fp>, proofs: seq<Proof>): (r: seq<MVClaim>)
    ensures |r| == Shortest(|comms|, |points|, |values|, |proofs|)
    ensures forall i :: 0 <= i < |r| ==> r[i] == MVClaim(comms[i], points[i], values[i], proofs[i])
  {
    var n := Shortest(|comms|, |points|, |values|, |proofs|);
    seq(n, i requires 0 <= i < n => MVClaim(comms[i], points[i], values[i], proofs[i]))
  }

  function MVSingle(vk: VerifierKey, c: MVClaim): Totals {
    Totals(Add(Inner(c.proof.w, c.point), c.comm), c.value, Blinding(c.proof.randomV), Inner(c.proof.w, vk.betaH))
  }

  function MVSingles(vk: VerifierKey, cs: seq<MVClaim>): (r: seq<Totals>)
    ensures |r| == |cs| && forall i :: 0 <= i < |r| ==> r[i] == MVSingle(vk, cs[i])
  {
    seq(|cs|, i requires 0 <= i < |cs| => MVSingle(vk, cs[i]))
  }

  /** The proof has a witness for each variable of the key, and the point a coordinate for each
      witness. */
  predicate Indexable(vk: VerifierKey, c: MVClaim) {
    vk.numVars <= |c.proof.w| <= |c.point|
  }

  predicate AllIndexable(vk: VerifierKey, cs: seq<MVClaim>, n: nat)
    requires n <= |cs|
  {
    n == 0 || (AllIndexable(vk, cs, n - 1) && Indexable(vk, cs[n - 1]))
  }

  lemma {:induction false} NotIndexable(vk: VerifierKey, cs: seq<MVClaim>, i: nat, n: nat)
    requires i < n <= |cs| && !Indexable(vk, cs[i])
    ensures !AllIndexable(vk, cs, n)
  {
    if i < n - 1 { NotIndexable(vk, cs, i, n - 1); }
  }

  // ----- one claim

  lemma {:induction false} PairingsSplit(w: seq<Fp>, betaH: seq<Fp>, h: Fp, point: seq<Fp>, j: nat)
    requires j + |w| <= |betaH| && j + |w| <= |point|
    ensures PairingProduct(w, betaH, h, point, j) == Sub(Inner(w, betaH[j..]), Mul(h, Inner(w, point[j..])))
    decreases |w|
  {
    if w == [] {
      Units(h);
      SubZero(0, 0);
    } else {
      PairingsSplit(w[1..], betaH, h, point, j + 1);
      assert betaH[j..][1..] == betaH[j + 1..] && point[j..][1..] == point[j + 1..];
      PairingStep(w[0], betaH[j], h, point[j], Inner(w[1..], betaH[j + 1..]), Inner(w[1..], point[j + 1..]));
    }
  }

  lemma PairingStep(w: Fp, b: Fp, h: Fp, z: Fp, rest: Fp, at: Fp)
    ensures Add(Mul(w, Sub(b, Mul(h, z))), Sub(rest, Mul(h, at)))
            == Sub(Add(Mul(w, b), rest), Mul(h, Add(Mul(w, z), at)))
  {
    KzgVerifier.FactorOut(w, b, Mul(h, z));
    Distributes(h, Mul(w, z), at);
    assert Mul(h, Mul(w, z)) == Mul(w, Mul(h, z)) by { RingLaws(); }
    SubSums(Mul(w, b), rest, Mul(w, Mul(h, z)), Mul(h, at));
  }

  /** By how much the two sides of the equation that check compares differ for a claim; on the right
      one pairing for every witness. */
  function MVImbalance(vk: VerifierKey, c: MVClaim): Fp
    requires |c.proof.w| <= |vk.betaH| && |c.proof.w| <= |c.point|
  {
    Sub(Mul(Sub(Sub(c.comm, Mul(vk.g, c.value)), Mul(vk.gammaG, Blinding(c.proof.randomV))), vk.h),
        Sum(Pairings(c.proof.w, vk.betaH, vk.h, c.point)))
  }

  function Pairings(w: seq<Fp>, betaH: seq<Fp>, h: Fp, point: seq<Fp>): (r: seq<Fp>)
    requires |w| <= |betaH| && |w| <= |point|
    ensures |r| == |w| && forall j :: 0 <= j < |w| ==> r[j] == Mul(w[j], Sub(betaH[j], Mul(h, point[j])))
  {
    seq(|w|, j requires 0 <= j < |w| => Mul(w[j], Sub(betaH[j], Mul(h, point[j]))))
  }

  lemma {:induction false} PairingsSum(w: seq<Fp>, betaH: seq<Fp>, h: Fp, point: seq<Fp>, j: nat)
    requires j <= |w| <= |betaH| && |w| <= |point|
    ensures PairingProduct(w[j..], betaH, h, point, j) == Sum(Pairings(w, betaH, h, point)[j..])
    decreases |w| - j
  {
    if j < |w| {
      PairingsSum(w, betaH, h, point, j + 1);
      assert w[j..][1..] == w[j + 1..];
      assert Pairings(w, betaH, h, point)[j..][1..] == Pairings(w, betaH, h, point)[j + 1..];
    }
  }

  lemma MVDeficitIsImbalance(vk: VerifierKey, c: MVClaim)
    requires |c.proof.w| <= |vk.betaH| && |c.proof.w| <= |c.point|
    ensures Deficit(vk.g, vk.gammaG, vk.h, MVSingle(vk, c)) == MVImbalance(vk, c)
    ensures PairingProduct(c.proof.w, vk.betaH, vk.h, c.point, 0)
            == Sum(Pairings(c.proof.w, vk.betaH, vk.h, c.point))
  {
    var w, d := c.proof.w, Sub(Sub(c.comm, Mul(vk.g, c.value)), Mul(vk.gammaG, Blinding(c.proof.randomV)));
    PairingsSplit(w, vk.betaH, vk.h, c.point, 0);
    assert vk.betaH[0..] == vk.betaH && c.point[0..] == c.point && w[0..] == w;
    PairingsSum(w, vk.betaH, vk.h, c.point, 0);
    assert Pairings(w, vk.betaH, vk.h, c.point)[0..] == Pairings(w, vk.betaH, vk.h, c.point);
    LiftOut(Inner(w, c.point), c.comm, Mul(vk.g, c.value), Mul(vk.gammaG, Blinding(c.proof.randomV)));
    TimesPoint(d, Inner(w, c.point), vk.h);
    SubOfSub(Mul(d, vk.h), Inner(w, vk.betaH), Mul(vk.h, Inner(w, c.point)));
  }

  lemma TimesPoint(d: Fp, wz: Fp, h: Fp)
    ensures Mul(Add(d, wz), h) == Add(Mul(d, h), Mul(h, wz))
  {
    Commutes(Add(d, wz), h);
    Distributes(h, d, wz);
    Commutes(h, d);
  }

  /** check accepts a claim exactly when it has no deficit. */
  lemma MVCheckIsDeficit(vk: VerifierKey, c: MVClaim)
    requires |c.proof.w| <= |vk.betaH| && |c.proof.w| <= |c.point|
    ensures CheckCombined(vk, c.comm, c.point, c.value, c.proof)
            <==> Deficit(vk.g, vk.gammaG, vk.h, MVSingle(vk, c)) == 0
  {
    var d := Sub(c.comm, Mul(vk.g, c.value));
    if c.proof.randomV.None? {
      Units(vk.gammaG);
      SubIff(d, 0, d);
      Units(d);
    }
    MVDeficitIsImbalance(vk, c);
    SubZero(Mul(Sub(d, Mul(vk.gammaG, Blinding(c.proof.randomV))), vk.h),
            Sum(Pairings(c.proof.w, vk.betaH, vk.h, c.point)));
  }

  // ----- all claims

  /** Adds a scaled proof to the witness sums in place. */
  method AddWitnesses(totalW: array<Fp>, w: seq<Fp>, randomizer: Fp)
    requires totalW.Length <= |w|
    modifies totalW
    ensures forall j :: 0 <= j < totalW.Length ==> totalW[j] == Add(old(totalW[j]), Mul(w[j], randomizer))
  {
    for j := 0 to totalW.Length
      invariant forall k :: 0 <= k < j ==> totalW[k] == Add(old(totalW[k]), Mul(w[k], randomizer))
      invariant forall k :: j <= k < totalW.Length ==> totalW[k] == old(totalW[k])
    {
      totalW[j] := Add(totalW[j], Mul(w[j], randomizer));
    }
  }

  lemma {:induction false} WitnessesAdd(before: seq<Fp>, after: seq<Fp>, w: seq<Fp>, rho: Fp, b: seq<Fp>)
    requires |before| == |after| == |b| <= |w|
    requires forall j :: 0 <= j < |before| ==> after[j] == Add(before[j], Mul(w[j], rho))
    ensures Inner(after, b) == Add(Inner(before, b), Mul(rho, Inner(w, b)))
  {
    if b == [] {
      Units(rho);
      Units(0);
    } else {
      WitnessesAdd(before[1..], after[1..], w[1..], rho, b[1..]);
      PairingAdds(before[0], w[0], rho, b[0]);
      Distributes(rho, Mul(w[0], b[0]), Inner(w[1..], b[1..]));
      FourSum(Mul(before[0], b[0]), Mul(rho, Mul(w[0], b[0])), Inner(before[1..], b[1..]),
              Mul(rho, Inner(w[1..], b[1..])));
    }
  }

  /** The product of the pairings of the negated sums with beta_j h, and of the rest with h. */
  function FinalProduct(totalW: seq<Fp>, betaH: seq<Fp>, totalC: Fp, h: Fp): Fp {
    if totalW == [] || betaH == [] then Mul(totalC, h)
    else Add(Mul(Neg(totalW[0]), betaH[0]), FinalProduct(totalW[1..], betaH[1..], totalC, h))
  }

  lemma {:induction false} FinalProductIs(totalW: seq<Fp>, betaH: seq<Fp>, totalC: Fp, h: Fp)
    ensures FinalProduct(totalW, betaH, totalC, h) == Sub(Mul(totalC, h), Inner(totalW, betaH))
  {
    if totalW == [] || betaH == [] {
      SubIff(Mul(totalC, h), 0, Mul(totalC, h));
      Units(Mul(totalC, h));
    } else {
      FinalProductIs(totalW[1..], betaH[1..], totalC, h);
      var p, rest, c := Mul(totalW[0], betaH[0]), Inner(totalW[1..], betaH[1..]), Mul(totalC, h);
      NegTimes(totalW[0], betaH[0]);
      NegDistributes(p, rest);
      Rotate(Neg(p), c, Neg(rest));
    }
  }

  lemma Rotate(a: Fp, b: Fp, c: Fp)
    ensures Add(a, Add(b, c)) == Add(b, Add(a, c))
  {
    RingLaws();
  }

  method AllZeros(n: nat) returns (a: array<Fp>)
    ensures fresh(a) && a.Length == n && a[..] == Zeros(n)
  {
    a := new Fp[n](i => 0);
  }

  /** One turn of the loop: a scaled claim goes into the sums. */
  method AddClaim(vk: VerifierKey, c: MVClaim, randomizer: Fp, totalW: array<Fp>, totalC: Fp, gMultiplier: Fp,
                  gammaGMultiplier: Fp) returns (totalC': Fp, gMultiplier': Fp, gammaGMultiplier': Fp)
    requires totalW.Length == vk.numVars == |vk.betaH| && Indexable(vk, c)
    modifies totalW
    ensures Totals(totalC', gMultiplier', gammaGMultiplier', Inner(totalW[..], vk.betaH))
            == AddTotals(Totals(totalC, gMultiplier, gammaGMultiplier, Inner(old(totalW[..]), vk.betaH)), randomizer,
                         MVSingle(vk, c))
  {
    ghost var before := totalW[..];
    AddWitnesses(totalW, c.proof.w, randomizer);
    WitnessesAdd(before, totalW[..], c.proof.w, randomizer, vk.betaH);
    totalC' := Add(totalC, Mul(Add(Inner(c.proof.w, c.point), c.comm), randomizer));
    gMultiplier' := Add(gMultiplier, Mul(randomizer, c.value));
    gammaGMultiplier' := gammaGMultiplier;
    if c.proof.randomV.Some? {
      gammaGMultiplier' := Add(gammaGMultiplier, Mul(randomizer, c.proof.randomV.value));
    } else {
      Units(randomizer);
      Units(gammaGMultiplier);
    }
  }

  /** What batch_check answers for these claims: a panic where a proof has fewer witnesses than the
      key has variables, or more than its point has coordinates; otherwise whether the weighted
      deficits add up to zero. */
  function Together(vk: VerifierKey, cs: seq<MVClaim>, draws: Draws): Outcome<bool> {
    if AllIndexable(vk, cs, |cs|)
    then Ok(WeightedDeficits(vk.g, vk.gammaG, vk.h, MVSingles(vk, cs), draws, |cs|) == 0) else Panic
  }

  /** batch_check; the lists are paired up to the end of the shortest. */
  method MVBatchCheck(vk: VerifierKey, comms: seq<Fp>, points: seq<seq<Fp>>, values: seq<Fp>, proofs: seq<Proof>,
                      draws: Draws) returns (result: Outcome<bool>)
    requires |vk.betaH| == vk.numVars
    ensures result == Together(vk, MVZip(comms, points, values, proofs), draws)
  {
    ghost var cs := MVZip(comms, points, values, proofs);
    var totalC: Fp, randomizer: Fp, gMultiplier: Fp, gammaGMultiplier: Fp := 0, 1, 0, 0;
    var totalW := AllZeros(vk.numVars);
    EmptyDeficit(vk.g, vk.gammaG, vk.h);
    InnerZeros(vk.numVars, vk.betaH);
    for i := 0 to Shortest(|comms|, |points|, |values|, |proofs|)
      invariant AllIndexable(vk, cs, i)
      invariant randomizer == Randomizer(draws, i)
      invariant AddedUp(vk, cs, draws, i,
                        Totals(totalC, gMultiplier, gammaGMultiplier, Inner(totalW[..], vk.betaH)))
    {
      if |proofs[i].w| > |points[i]| || |proofs[i].w| < vk.numVars {
        NotIndexable(vk, cs, i, |cs|);
        return Panic;
      }
      ghost var t := Totals(totalC, gMultiplier, gammaGMultiplier, Inner(totalW[..], vk.betaH));
      totalC, gMultiplier, gammaGMultiplier :=
        AddClaim(vk, MVClaim(comms[i], points[i], values[i], proofs[i]), randomizer, totalW, totalC, gMultiplier,
                 gammaGMultiplier);
      OneMoreClaim(vk, cs, draws, i, t);
      randomizer := draws(i);
    }
    var balanced := FinalCheck(vk, totalW, totalC, gMultiplier, gammaGMultiplier);
    result := Ok(balanced);
  }

  /** The sums after n claims have the weighted sum of their deficits. */
  ghost predicate AddedUp(vk: VerifierKey, cs: seq<MVClaim>, draws: Draws, n: nat, t: Totals)
    requires n <= |cs|
  {
    Deficit(vk.g, vk.gammaG, vk.h, t) == WeightedDeficits(vk.g, vk.gammaG, vk.h, MVSingles(vk, cs), draws, n)
  }

  lemma OneMoreClaim(vk: VerifierKey, cs: seq<MVClaim>, draws: Draws, n: nat, t: Totals)
    requires n < |cs| && AddedUp(vk, cs, draws, n, t)
    ensures AddedUp(vk, cs, draws, n + 1, AddTotals(t, Randomizer(draws, n), MVSingle(vk, cs[n])))
  {
    DeficitsAdd(vk.g, vk.gammaG, vk.h, MVSingles(vk, cs), draws, n, t);
  }

  /** After the loop: whether the sums have no deficit. */
  method FinalCheck(vk: VerifierKey, totalW: array<Fp>, totalC: Fp, gMultiplier: Fp, gammaGMultiplier: Fp)
    returns (result: bool)
    ensures result <==> Deficit(vk.g, vk.gammaG, vk.h, Totals(totalC, gMultiplier, gammaGMultiplier,
                                                              Inner(totalW[..], vk.betaH))) == 0
  {
    var rest := Sub(Sub(totalC, Mul(vk.g, gMultiplier)), Mul(vk.gammaG, gammaGMultiplier));
    FinalProductIs(totalW[..], vk.betaH, rest, vk.h);
    result := FinalProduct(totalW[..], vk.betaH, rest, vk.h) == 0;
  }

  // ----- against the separate checks

  function CheckOne(vk: VerifierKey, c: MVClaim): Outcome<bool> {
    CheckOutcome(vk, c.comm, c.point, c.value, c.proof)
  }

  predicate MVAccepted(vk: VerifierKey, c: MVClaim) {
    CheckOne(vk, c) == Ok(true)
  }

  /** What an accepted claim adds to the batched equation. */
  predicate Balanced(vk: VerifierKey, c: MVClaim) {
    Deficit(vk.g, vk.gammaG, vk.h, MVSingle(vk, c)) == 0
  }

  /** check panics for more witnesses than the key has variables or the point has coordinates;
      otherwise it accepts exactly what has no deficit. */
  lemma {:induction false} CheckIsBalanced(vk: VerifierKey, c: MVClaim)
    requires |vk.betaH| == vk.numVars
    ensures CheckOne(vk, c) == if |c.proof.w| > vk.numVars || |c.proof.w| > |c.point| then Panic
                               else Ok(Balanced(vk, c))
  {
    if |c.proof.w| <= vk.numVars && |c.proof.w| <= |c.point| { MVCheckIsDeficit(vk, c); }
  }

  /** Claims that check accepts one by one: together they are accepted if every proof has a witness
      for every variable of the key, and otherwise batch_check panics. */
  lemma {:induction false} MVAcceptedTogether(vk: VerifierKey, cs: seq<MVClaim>, draws: Draws)
    requires |vk.betaH| == vk.numVars && forall i :: 0 <= i < |cs| ==> MVAccepted(vk, cs[i])
    ensures Together(vk, cs, draws)
            == if forall i :: 0 <= i < |cs| ==> |cs[i].proof.w| == vk.numVars then Ok(true) else Panic
  {
    forall i | 0 <= i < |cs| ensures Deficits(vk.g, vk.gammaG, vk.h, MVSingles(vk, cs))[i] == 0 {
      CheckIsBalanced(vk, cs[i]);
    }
    AllZero(Deficits(vk.g, vk.gammaG, vk.h, MVSingles(vk, cs)), draws, |cs|);
    IndexableIff(vk, cs, |cs|);
  }

  lemma {:induction false} IndexableIff(vk: VerifierKey, cs: seq<MVClaim>, n: nat)
    requires n <= |cs|
    ensures AllIndexable(vk, cs, n) <==> forall i :: 0 <= i < n ==> Indexable(vk, cs[i])
  {
    if n > 0 { IndexableIff(vk, cs, n - 1); }
  }

  /** If check accepts all claims but one and nothing panics, batch_check accepts exactly if that one
      is balanced or is not the first and zero was drawn for it, for proofs of any length.  If its proof has a witness
      for each variable of the key and no more, being balanced is being accepted by check. */
  lemma {:induction false} MVBatchRefinesSingle(vk: VerifierKey, cs: seq<MVClaim>, draws: Draws, j: nat)
    requires |vk.betaH| == vk.numVars && j < |cs|
    requires forall i :: 0 <= i < |cs| && i != j ==> MVAccepted(vk, cs[i])
    ensures Together(vk, cs, draws)
            == if AllIndexable(vk, cs, |cs|) then Ok(Balanced(vk, cs[j]) || (j > 0 && draws(j - 1) == 0)) else Panic
    ensures Indexable(vk, cs[j]) && |cs[j].proof.w| == vk.numVars ==> CheckOne(vk, cs[j]) == Ok(Balanced(vk, cs[j]))
    ensures Indexable(vk, cs[j]) && |cs[j].proof.w| != vk.numVars ==> CheckOne(vk, cs[j]) == Panic
  {
    var ds := Deficits(vk.g, vk.gammaG, vk.h, MVSingles(vk, cs));
    forall i | 0 <= i < |cs| && i != j ensures ds[i] == 0 { CheckIsBalanced(vk, cs[i]); }
    CheckIsBalanced(vk, cs[j]);
    OneWrong(ds, draws, |cs|, j);
  }

  ghost predicate Pairable(vk: VerifierKey, cs: seq<MVClaim>) {
    |vk.betaH| == vk.numVars && forall i :: 0 <= i < |cs| ==> |cs[i].proof.w| == vk.numVars <= |cs[i].point|
  }

  ghost function MVImbalances(vk: VerifierKey, cs: seq<MVClaim>): (r: seq<Fp>)
    requires Pairable(vk, cs)
    ensures |r| == |cs| && forall i :: 0 <= i < |r| ==> r[i] == MVImbalance(vk, cs[i])
  {
    seq(|cs|, i requires 0 <= i < |cs| => assert Pairable(vk, cs); MVImbalance(vk, cs[i]))
  }

  lemma {:induction false} ImbalancesAre(vk: VerifierKey, cs: seq<MVClaim>)
    requires Pairable(vk, cs)
    ensures Deficits(vk.g, vk.gammaG, vk.h, MVSingles(vk, cs)) == MVImbalances(vk, cs)
    ensures AllIndexable(vk, cs, |cs|)
  {
    var ds := Deficits(vk.g, vk.gammaG, vk.h, MVSingles(vk, cs));
    forall i | 0 <= i < |cs| ensures ds[i] == MVImbalances(vk, cs)[i] && Indexable(vk, cs[i]) {
      MVDeficitIsImbalance(vk, cs[i]);
    }
    IndexableIff(vk, cs, |cs|);
  }

  /** For proofs with one witness for each variable, batch_check compares with zero the imbalance of the
      first claim plus those of the others, each times what was drawn before it. */
  lemma {:induction false} MVBatchIs(vk: VerifierKey, cs: seq<MVClaim>, draws: Draws)
    requires Pairable(vk, cs)
    ensures Together(vk, cs, draws) == Ok(Sum(Terms(MVImbalances(vk, cs), draws)) == 0)
  {
    ImbalancesAre(vk, cs);
    WeightedSumIs(MVImbalances(vk, cs), draws, |cs|);
    assert Terms(MVImbalances(vk, cs), draws)[..|cs|] == Terms(MVImbalances(vk, cs), draws);
  }

  /** If check accepts all of them but two, batch_check accepts exactly if their imbalances cancel. */
  lemma {:induction false} MVTwoMustCancel(vk: VerifierKey, cs: seq<MVClaim>, draws: Draws, i: nat, j: nat)
    requires Pairable(vk, cs) && i < j < |cs|
    requires forall k :: 0 <= k < |cs| && k != i && k != j ==> MVAccepted(vk, cs[k])
    ensures Together(vk, cs, draws)
            == Ok(Add(if i == 0 then MVImbalance(vk, cs[i]) else Mul(draws(i - 1), MVImbalance(vk, cs[i])),
                      Mul(draws(j - 1), MVImbalance(vk, cs[j]))) == 0)
  {
    ImbalancesAre(vk, cs);
    forall k | 0 <= k < |cs| && k != i && k != j ensures MVImbalances(vk, cs)[k] == 0 { CheckIsBalanced(vk, cs[k]); }
    TwoWrong(MVImbalances(vk, cs), draws, |cs|, i, j);
  }

  // ----- points with more coordinates than the key has variables

  /** Whatever batch_check accepts alone at this point, check accepts. */
  ghost predicate OnlyAccepted(vk: VerifierKey, point: seq<Fp>, draws: Draws) {
    forall comm, value, proof :: AcceptedIfTogether(vk, MVClaim(comm, point, value, proof), draws)
  }

  ghost predicate AcceptedIfTogether(vk: VerifierKey, c: MVClaim, draws: Draws) {
    Together(vk, [c], draws) == Ok(true) ==> MVAccepted(vk, c)
  }

  lemma {:induction false} TogetherAlone(vk: VerifierKey, c: MVClaim, draws: Draws)
    requires |vk.betaH| == vk.numVars
    ensures Together(vk, [c], draws) == if Indexable(vk, c) then Ok(Balanced(vk, c)) else Panic
  {
    MVBatchRefinesSingle(vk, [c], draws, 0);
    IndexableIff(vk, [c], 1);
    if Indexable(vk, c) { assert forall i :: 0 <= i < 1 ==> Indexable(vk, [c][i]); }
  }

  /** That is so exactly if the point has no more coordinates than the key has variables. */
  lemma {:induction false} OnlyAcceptedIff(vk: VerifierKey, point: seq<Fp>, draws: Draws)
    requires |vk.betaH| == vk.numVars
    ensures OnlyAccepted(vk, point, draws) <==> |point| <= vk.numVars
  {
    if |point| <= vk.numVars {
      forall comm, value, proof ensures AcceptedIfTogether(vk, MVClaim(comm, point, value, proof), draws) {
        TogetherAlone(vk, MVClaim(comm, point, value, proof), draws);
        CheckIsBalanced(vk, MVClaim(comm, point, value, proof));
      }
    } else {
      var c := MVClaim(0, point, 0, Proof(Zeros(vk.numVars + 1), None));
      ZerosBalance(vk, c);
      TogetherAlone(vk, c, draws);
      CheckIsBalanced(vk, c);
      assert !AcceptedIfTogether(vk, c, draws);
    }
  }

  lemma ZerosBalance(vk: VerifierKey, c: MVClaim)
    requires c.proof == Proof(Zeros(|c.proof.w|), None) && c.comm == 0 && c.value == 0
    ensures Balanced(vk, c)
  {
    InnerZeros(|c.proof.w|, c.point);
    InnerZeros(|c.proof.w|, vk.betaH);
    Units(0);
    EmptyDeficit(vk.g, vk.gammaG, vk.h);
  }

  /** An input: the point has a further coordinate z that is not zero.  The key has no variable for
      the last witness, so it stands for no difference of values, but it still enters the sum with
      the factor z: whatever the commitment and whatever the value, the equation balances. */
  lemma {:induction false} ExtraWitness(vk: VerifierKey, comm: Fp, point: seq<Fp>, value: Fp, inverse: Fp, draws: Draws)
    requires |vk.betaH| == vk.numVars < |point| && Mul(point[vk.numVars], inverse) == 1
    ensures var w := Zeros(vk.numVars) + [Mul(inverse, Sub(Mul(vk.g, value), comm))];
            var c := MVClaim(comm, point, value, Proof(w, None));
            Together(vk, [c], draws) == Ok(true) && CheckOne(vk, c) == Panic
  {
    var n, x := vk.numVars, Mul(inverse, Sub(Mul(vk.g, value), comm));
    var c := MVClaim(comm, point, value, Proof(Zeros(n) + [x], None));
    assert Inner(Zeros(n) + [x], point) == Sub(Mul(vk.g, value), comm) by {
      LastWitness(n, x, point);
      MulAssociates(inverse, Sub(Mul(vk.g, value), comm), point[n]);
      Cancelled(point[n], inverse, Sub(Mul(vk.g, value), comm));
    }
    assert Inner(Zeros(n) + [x], vk.betaH) == 0 by { NoVariable(n, x, vk.betaH); }
    SubIff(Mul(vk.g, value), comm, Sub(Mul(vk.g, value), comm));
    Commutes(comm, Sub(Mul(vk.g, value), comm));
    NothingLeft(Mul(vk.g, value), vk.gammaG, vk.h);
    TogetherAlone(vk, c, draws);
  }

  lemma LastWitness(n: nat, x: Fp, b: seq<Fp>)
    requires n < |b|
    ensures Inner(Zeros(n) + [x], b) == Mul(x, b[n])
  {
    assert b == b[..n] + b[n..];
    InnerAppend(Zeros(n), [x], b[..n], b[n..]);
    InnerZeros(n, b[..n]);
    assert [x][1..] == [];
    Units(Mul(x, b[n]));
  }

  lemma NoVariable(n: nat, x: Fp, b: seq<Fp>)
    requires |b| == n
    ensures Inner(Zeros(n) + [x], b) == 0
  {
    assert b == b + [];
    InnerAppend(Zeros(n), [x], b, []);
    InnerZeros(n, b);
    Units(0);
  }

  lemma Cancelled(z: Fp, inverse: Fp, d: Fp)
    requires Mul(z, inverse) == 1
    ensures Mul(Mul(inverse, d), z) == d
  {
    Commutes(Mul(inverse, d), z);
    MulAssociates(z, inverse, d);
    Units(d);
  }

  lemma NothingLeft(gv: Fp, gamma: Fp, h: Fp)
    ensures Sub(Mul(Sub(Sub(gv, gv), Mul(gamma, 0)), h), 0) == 0
  {
    SubZero(gv, gv);
    Units(gamma);
    SubZero(0, 0);
    Units(h);
  }

  // ----- claims without a proof

  /** Claims behind the last proof are not looked at. */
  lemma {:induction false} BehindLastProof(vk: VerifierKey, comms: seq<Fp>, points: seq<seq<Fp>>, values: seq<Fp>,
                                           proofs: seq<Proof>, draws: Draws)
    requires |comms| == |points| == |values| && |proofs| <= |comms|
    ensures var n := |proofs|;
            Together(vk, MVZip(comms, points, values, proofs), draws)
            == Together(vk, MVZip(comms[..n], points[..n], values[..n], proofs), draws)
  {
    var n := |proofs|;
    assert MVZip(comms, points, values, proofs) == MVZip(comms[..n], points[..n], values[..n], proofs);
  }

  /** So without proofs everything is accepted. */
  lemma {:induction false} NoProofs(vk: VerifierKey, comms: seq<Fp>, points: seq<seq<Fp>>, values: seq<Fp>,
                                    draws: Draws)
    ensures Together(vk, MVZip(comms, points, values, []), draws) == Ok(true)
  {
  }

  /** With value v claimed at place j, batch_check accepts only if there is a proof for it that check
      accepts. */
  ghost predicate Counts(vk: VerifierKey, comms: seq<Fp>, points: seq<seq<Fp>>, values: seq<Fp>, proofs: seq<Proof>,
                         draws: Draws, j: nat, v: Fp)
    requires j < |comms| == |points| == |values|
  {
    Together(vk, MVZip(comms, points, values[j := v], proofs), draws) == Ok(true) ==>
      j < |proofs| && MVAccepted(vk, MVClaim(comms[j], points[j], v, proofs[j]))
  }

  ghost predicate EveryClaimCounts(vk: VerifierKey, comms: seq<Fp>, points: seq<seq<Fp>>, values: seq<Fp>,
                                   proofs: seq<Proof>, draws: Draws)
    requires |comms| == |points| == |values|
  {
    forall j, v :: 0 <= j < |comms| ==> Counts(vk, comms, points, values, proofs, draws, j, v)
  }

  /** Where what has a proof is accepted one by one and together, every claimed value counts exactly
      if there is a proof for every claim. */
  lemma {:induction false} EveryClaimCountsIff(vk: VerifierKey, comms: seq<Fp>, points: seq<seq<Fp>>, values: seq<Fp>,
                                               proofs: seq<Proof>, draws: Draws)
    requires |vk.betaH| == vk.numVars && |comms| == |points| == |values|
    requires forall j :: 0 <= j < |comms| && j < |proofs| ==>
               && MVAccepted(vk, MVClaim(comms[j], points[j], values[j], proofs[j]))
               && |proofs[j].w| == vk.numVars && (j > 0 ==> draws(j - 1) != 0)
    ensures EveryClaimCounts(vk, comms, points, values, proofs, draws) <==> |proofs| >= |comms|
  {
    if |proofs| >= |comms| {
      forall j, v | 0 <= j < |comms| ensures Counts(vk, comms, points, values, proofs, draws, j, v) {
        var cs := MVZip(comms, points, values[j := v], proofs);
        MVBatchRefinesSingle(vk, cs, draws, j);
        IndexableIff(vk, cs, |cs|);
      }
    } else {
      var j := |proofs|;
      assert values[j := values[j]] == values;
      MVAcceptedTogether(vk, MVZip(comms, points, values, proofs), draws);
      assert !Counts(vk, comms, points, values, proofs, draws, j, values[j]);
    }
  }

  // ----- what open returns

  /** The proof that open returns can be checked in a batch exactly when one of the opened
      polynomials has all variables of the key; otherwise batch_check panics on it, although
      check would accept it. */
  lemma OpenedIndexable(ck: CommitterKey, vk: VerifierKey, ps: seq<MVPolynomial>, states: seq<MVPolynomial>,
                        point: seq<Fp>, xi: Squeezes, degree: nat, width: nat, blinding: nat, proof: Proof, comm: Fp,
                        value: Fp)
    requires OpenInputs(ps, vk.numVars, degree, width) && vk.numVars <= |point|
    requires IsOpening(ck, ps, states, point, xi, degree, width, blinding, Some(proof))
    ensures Indexable(vk, MVClaim(comm, point, value, proof))
            <==> vk.numVars == 0 || exists i :: 0 <= i < |ps| && ps[i].numVars == vk.numVars
  {
    CombinedFits(ps, xi, |ps|, vk.numVars, degree, width);
    assert |proof.w| == CombinePolys(ps, xi, |ps|).numVars;
    SomeHasAll(ps, xi, |ps|);
  }

  lemma {:induction false} SomeHasAll(ps: seq<MVPolynomial>, xi: Squeezes, n: nat)
    requires n <= |ps|
    ensures var v := CombinePolys(ps, xi, n).numVars; v == 0 || exists i :: 0 <= i < n && ps[i].numVars == v
  {
    if n > 0 { SomeHasAll(ps, xi, n - 1); }
  }

  // ----- accepted alone, not in a batch

  /** What is claimed of an opening: the combined commitment and the combined true value. */
  function TrueClaim(ps: seq<LabeledPolynomial>, comms: seq<Fp>, point: seq<Fp>, xi: Squeezes, proof: Proof): MVClaim {
    MVClaim(Weighted(comms, xi, |comms|), point, Weighted(M.Values(Polynomials(ps), point), xi, |ps|), proof)
  }

  /** Whatever is opened without hiding and without a polynomial in all variables: check accepts
      the true values, and batch_check panics on the same proof. */
  lemma {:induction false} AcceptedAlone(ck: CommitterKey, vk: VerifierKey, td: Trapdoor, ps: seq<LabeledPolynomial>,
                                         coins: seq<MVPolynomial>, comms: seq<Fp>, states: seq<MVPolynomial>,
                                         point: seq<Fp>, xi: Squeezes, proof: Proof)
    requires HonestKeys(ck, vk, td) && M.Committed(ck, ps, coins, comms, states) && 0 < vk.numVars <= |point|
    requires IsOpening(ck, Polynomials(ps), states, point, xi, ck.supportedDegree, ck.numVars, ck.supportedDegree + 1,
                       Some(proof))
    requires H.NothingHidden(ps) && !H.SomeFull(ck.numVars, ps)
    ensures MVAccepted(vk, TrueClaim(ps, comms, point, xi, proof))
    ensures !AllIndexable(vk, [TrueClaim(ps, comms, point, xi, proof)], 1)
  {
    NotTogether(ck, vk, td, ps, coins, comms, states, point, xi, proof);
    AcceptedTrue(ck, vk, td, ps, coins, comms, states, point, xi, proof);
  }

  lemma {:induction false} AcceptedTrue(ck: CommitterKey, vk: VerifierKey, td: Trapdoor, ps: seq<LabeledPolynomial>,
                                        coins: seq<MVPolynomial>, comms: seq<Fp>, states: seq<MVPolynomial>,
                                        point: seq<Fp>, xi: Squeezes, proof: Proof)
    requires HonestKeys(ck, vk, td) && M.Committed(ck, ps, coins, comms, states)
    requires IsOpening(ck, Polynomials(ps), states, point, xi, ck.supportedDegree, ck.numVars, ck.supportedDegree + 1,
                       Some(proof))
    requires H.NothingHidden(ps) && |proof.w| < vk.numVars <= |point|
    ensures MVAccepted(vk, TrueClaim(ps, comms, point, xi, proof))
  {
    H.KeepsWitnesses(ck, ps, coins, comms, states);
    M.Completeness(ck, vk, td, ps, coins, comms, states, point, xi, proof);
  }

  lemma {:induction false} NotTogether(ck: CommitterKey, vk: VerifierKey, td: Trapdoor, ps: seq<LabeledPolynomial>,
                                       coins: seq<MVPolynomial>, comms: seq<Fp>, states: seq<MVPolynomial>,
                                       point: seq<Fp>, xi: Squeezes, proof: Proof)
    requires HonestKeys(ck, vk, td) && M.Committed(ck, ps, coins, comms, states) && 0 < vk.numVars <= |point|
    requires IsOpening(ck, Polynomials(ps), states, point, xi, ck.supportedDegree, ck.numVars, ck.supportedDegree + 1,
                       Some(proof))
    requires !H.SomeFull(ck.numVars, ps)
    ensures |proof.w| < vk.numVars && !AllIndexable(vk, [TrueClaim(ps, comms, point, xi, proof)], 1)
  {
    var claim := TrueClaim(ps, comms, point, xi, proof);
    M.CommittedInputs(ck, vk, td, ps, coins, comms, states);
    OpenedIndexable(ck, vk, Polynomials(ps), states, point, xi, ck.supportedDegree, ck.numVars, ck.supportedDegree + 1,
                    proof, claim.comm, claim.value);
    NotIndexable(vk, [claim], 0, 1);
    CombinedFits(Polynomials(ps), xi, |ps|, ck.numVars, ck.supportedDegree, ck.numVars);
  }

  /** The zero polynomial in no variables, not hidden. */
  function ZeroInNoVariables(): LabeledPolynomial {
    LabeledPolynomial(MVPolynomial(0, []), None)
  }

  /** It is such an input under every key with a variable. */
  lemma {:induction false} AcceptedAloneHappens(ck: CommitterKey, vk: VerifierKey, td: Trapdoor, point: seq<Fp>,
                                                xi: Squeezes) returns (comm: Fp, state: MVPolynomial, proof: Proof)
    requires HonestKeys(ck, vk, td) && 0 < vk.numVars <= |point|
    ensures CommitOne(ck, ZeroInNoVariables(), MVPolynomial(0, [])) == Ok((comm, state))
    ensures IsOpening(ck, Polynomials([ZeroInNoVariables()]), [state], point, xi, ck.supportedDegree, ck.numVars,
                      ck.supportedDegree + 1, Some(proof))
    ensures MVAccepted(vk, TrueClaim([ZeroInNoVariables()], [comm], point, xi, proof))
    ensures !AllIndexable(vk, [TrueClaim([ZeroInNoVariables()], [comm], point, xi, proof)], 1)
  {
    var ps, coin := [ZeroInNoVariables()], MVPolynomial(0, []);
    CommitOneIsValue(ck, vk, ps[0], coin, td);
    comm, state := CommitOne(ck, ps[0], coin).value.0, CommitOne(ck, ps[0], coin).value.1;
    assert M.CommittedOne(ck, ps[0], coin, comm, state);
    proof := H.Opens(ck, vk, td, ps, [coin], [comm], [state], point, xi);
    AcceptedAlone(ck, vk, td, ps, [coin], [comm], [state], point, xi, proof);
  }
}
