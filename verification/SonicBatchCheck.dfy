/** batch_check of Sonic against its check, for arbitrary commitments, values and proofs
    (sonic_pc/mod.rs). */
module SonicBatchCheck {
  import opened PrimeField
  import opened Vectors
  import opened SonicPC
  import opened BatchChecks

  // ----- the sums per degree bound

  predicate Supported(vk: SonicPC.VerifierKey, bound: Option<nat>) {
    PairedWith(vk, bound).Some?
  }

  lemma {:induction false} PairSumAdd(vk: SonicPC.VerifierKey, entries: Entries, bound: Option<nat>, x: Fp)
    requires Supported(vk, bound) && PairSum(vk, entries).Some?
    ensures PairSum(vk, AddEntry(entries, bound, x))
            == Some(Add(PairSum(vk, entries).value, Mul(x, PairedWith(vk, bound).value)))
  {
    var e := PairedWith(vk, bound).value;
    if entries == [] {
      assert [(bound, Add(0, x))][1..] == [];
      Units(x);
      Units(Mul(x, e));
    } else if entries[0].0 == bound {
      assert ([(bound, Add(entries[0].1, x))] + entries[1..])[1..] == entries[1..];
      AddToFactor(entries[0].1, x, e, PairSum(vk, entries[1..]).value);
    } else {
      PairSumAdd(vk, entries[1..], bound, x);
      assert ([entries[0]] + AddEntry(entries[1..], bound, x))[1..] == AddEntry(entries[1..], bound, x);
      AddAssociates(Mul(entries[0].1, PairedWith(vk, entries[0].0).value), PairSum(vk, entries[1..]).value, Mul(x, e));
    }
  }

  /** An unsupported bound is noticed wherever it is entered, and stays. */
  lemma {:induction false} Unsupported(vk: SonicPC.VerifierKey, entries: Entries, bound: Option<nat>, x: Fp)
    requires !Supported(vk, bound) || PairSum(vk, entries).None?
    ensures PairSum(vk, AddEntry(entries, bound, x)).None?
  {
    if entries == [] {
      assert [(bound, Add(0, x))][0].0 == bound;
    } else if entries[0].0 == bound {
      assert ([(bound, Add(entries[0].1, x))] + entries[1..])[1..] == entries[1..];
    } else {
      assert ([entries[0]] + AddEntry(entries[1..], bound, x))[1..] == AddEntry(entries[1..], bound, x);
      if Supported(vk, entries[0].0) { Unsupported(vk, entries[1..], bound, x); }
    }
  }

  // ----- what one claim contributes

  predicate AllSupported(vk: SonicPC.VerifierKey, comms: seq<LabeledCommitment>) {
    forall i :: 0 <= i < |comms| ==> Supported(vk, comms[i].degreeBound)
  }

  /** The first n commitments with their challenges, each paired with the element for its bound. */
  function CommSum(vk: SonicPC.VerifierKey, comms: seq<LabeledCommitment>, xi: Squeezes, n: nat): Fp
    requires n <= |comms| && AllSupported(vk, comms)
  {
    if n == 0 then 0
    else Add(CommSum(vk, comms, xi, n - 1),
             Mul(Mul(comms[n - 1].comm, xi(n - 1)), PairedWith(vk, comms[n - 1].degreeBound).value))
  }

  /** A missing randomizer counts as one. */
  function Factor(randomizer: Option<Fp>): Fp {
    if randomizer.Some? then randomizer.value else 1
  }

  lemma RandomizedIs(randomizer: Option<Fp>, x: Fp)
    ensures Randomized(randomizer, x) == Mul(Factor(randomizer), x)
  {
    Units(x);
    if randomizer.Some? { Commutes(x, randomizer.value); }
  }

  lemma {:induction false} CommsAdd(vk: SonicPC.VerifierKey, entries: Entries, comms: seq<LabeledCommitment>,
                                    xi: Squeezes, randomizer: Option<Fp>, n: nat)
    requires n <= |comms| && AllSupported(vk, comms) && PairSum(vk, entries).Some?
    ensures PairSum(vk, AddComms(entries, comms, xi, randomizer, n))
            == Some(Add(PairSum(vk, entries).value, Mul(Factor(randomizer), CommSum(vk, comms, xi, n))))
  {
    var total, rho := PairSum(vk, entries).value, Factor(randomizer);
    if n == 0 {
      Units(rho);
      Units(total);
    } else {
      CommsAdd(vk, entries, comms, xi, randomizer, n - 1);
      var c, x := comms[n - 1], Mul(comms[n - 1].comm, xi(n - 1));
      RandomizedIs(randomizer, x);
      PairSumAdd(vk, AddComms(entries, comms, xi, randomizer, n - 1), c.degreeBound, Randomized(randomizer, x));
      OneMore(total, rho, CommSum(vk, comms, xi, n - 1), x, PairedWith(vk, c.degreeBound).value);
    }
  }

  lemma OneMore(total: Fp, rho: Fp, sum: Fp, x: Fp, e: Fp)
    ensures Add(Add(total, Mul(rho, sum)), Mul(Mul(rho, x), e)) == Add(total, Mul(rho, Add(sum, Mul(x, e))))
  {
    MulAssociates(rho, x, e);
    Distributes(rho, sum, Mul(x, e));
    AddAssociates(total, Mul(rho, sum), Mul(rho, Mul(x, e)));
  }

  lemma {:induction false} CommsUnsupported(vk: SonicPC.VerifierKey, entries: Entries, comms: seq<LabeledCommitment>,
                                            xi: Squeezes, randomizer: Option<Fp>, n: nat)
    requires n <= |comms|
    requires PairSum(vk, entries).None? || exists i :: 0 <= i < n && !Supported(vk, comms[i].degreeBound)
    ensures PairSum(vk, AddComms(entries, comms, xi, randomizer, n)).None?
  {
    if n > 0 {
      var before, x := AddComms(entries, comms, xi, randomizer, n - 1), Mul(comms[n - 1].comm, xi(n - 1));
      if Supported(vk, comms[n - 1].degreeBound) { CommsUnsupported(vk, entries, comms, xi, randomizer, n - 1); }
      Unsupported(vk, before, comms[n - 1].degreeBound, Randomized(randomizer, x));
    }
  }

  // ----- the pairing product

  /** What check_elems compares with zero. */
  function Residual(vk: SonicPC.VerifierKey, sums: Sums): Fp
    requires PairSum(vk, sums.comms).Some?
  {
    Add(PairSum(vk, sums.comms).value, Add(Mul(Neg(sums.adjusted), vk.h), Mul(Neg(sums.w), vk.betaH)))
  }

  lemma EmptyResidual(vk: SonicPC.VerifierKey)
    ensures Residual(vk, Sums([], 0, 0)) == 0
  {
    assert Neg(0) == 0;
    Units(vk.h);
    Units(vk.betaH);
    Units(0);
  }

  /** The residual of one claim. */
  function Error(vk: SonicPC.VerifierKey, q: Query): Fp
    requires Aligned(q) && AllSupported(vk, q.comms)
  {
    var v := CombinedValue(q.values, q.xi, |q.values|);
    Add(CommSum(vk, q.comms, q.xi, |q.comms|),
        Add(Mul(Neg(AdjustedWitness(vk, v, q.point, q.proof)), vk.h), Mul(Neg(q.proof.w), vk.betaH)))
  }

  /** A claim adds its residual, times the randomizer. */
  lemma {:induction false} AddedResidual(vk: SonicPC.VerifierKey, sums: Sums, q: Query, randomizer: Option<Fp>)
    requires Aligned(q) && AllSupported(vk, q.comms) && PairSum(vk, sums.comms).Some?
    ensures PairSum(vk, Added(sums, vk, q, randomizer).comms).Some?
    ensures Residual(vk, Added(sums, vk, q, randomizer))
            == Add(Residual(vk, sums), Mul(Factor(randomizer), Error(vk, q)))
  {
    CommsAdd(vk, sums.comms, q.comms, q.xi, randomizer, |q.comms|);
    var a, rho := AdjustedWitness(vk, CombinedValue(q.values, q.xi, |q.values|), q.point, q.proof), Factor(randomizer);
    RandomizedIs(randomizer, q.proof.w);
    RandomizedIs(randomizer, a);
    ResidualsAdd(PairSum(vk, sums.comms).value, sums.adjusted, sums.w, rho, CommSum(vk, q.comms, q.xi, |q.comms|), a,
                 q.proof.w, vk.h, vk.betaH);
  }

  lemma ResidualsAdd(t: Fp, j: Fp, k: Fp, rho: Fp, c: Fp, a: Fp, w: Fp, h: Fp, b: Fp)
    ensures Add(Add(t, Mul(rho, c)), Add(Mul(Neg(Add(j, Mul(rho, a))), h), Mul(Neg(Add(k, Mul(rho, w))), b)))
            == Add(Add(t, Add(Mul(Neg(j), h), Mul(Neg(k), b))),
                   Mul(rho, Add(c, Add(Mul(Neg(a), h), Mul(Neg(w), b)))))
  {
    NegatedAdd(j, rho, a, h);
    NegatedAdd(k, rho, w, b);
    var x, y := Mul(Neg(a), h), Mul(Neg(w), b);
    Distributes(rho, x, y);
    Distributes(rho, c, Add(x, y));
    FourSum(Mul(Neg(j), h), Mul(rho, x), Mul(Neg(k), b), Mul(rho, y));
    FourSum(t, Mul(rho, c), Add(Mul(Neg(j), h), Mul(Neg(k), b)), Add(Mul(rho, x), Mul(rho, y)));
  }

  lemma NegatedAdd(j: Fp, rho: Fp, a: Fp, h: Fp)
    ensures Mul(Neg(Add(j, Mul(rho, a))), h) == Add(Mul(Neg(j), h), Mul(rho, Mul(Neg(a), h)))
  {
    NegDistributes(j, Mul(rho, a));
    NegDistributes(rho, a);
    TimesH(Neg(j), rho, Neg(a), h);
  }

  // ----- check and batch_check

  /** check errs exactly for an unsupported bound; otherwise it compares the residual with zero. */
  lemma {:induction false} CheckExactly(vk: SonicPC.VerifierKey, q: Query)
    requires Aligned(q)
    ensures CheckSpec(vk, q) == if AllSupported(vk, q.comms) then Some(Error(vk, q) == 0) else None
  {
    if AllSupported(vk, q.comms) {
      AddedResidual(vk, Sums([], 0, 0), q, None);
      EmptyResidual(vk);
      Units(Error(vk, q));
    } else {
      CommsUnsupported(vk, [], q.comms, q.xi, None, |q.comms|);
    }
  }

  ghost predicate QueriesOk(vk: SonicPC.VerifierKey, qs: seq<Query>) {
    forall i :: 0 <= i < |qs| ==> Aligned(qs[i]) && AllSupported(vk, qs[i].comms)
  }

  ghost function Errors(vk: SonicPC.VerifierKey, qs: seq<Query>): (r: seq<Fp>)
    requires QueriesOk(vk, qs)
    ensures |r| == |qs| && forall i :: 0 <= i < |r| ==> r[i] == Error(vk, qs[i])
  {
    seq(|qs|, i requires 0 <= i < |qs| && QueriesOk(vk, qs) => Error(vk, qs[i]))
  }

  /** What holds of the sums after n claims. */
  ghost predicate SumsTo(vk: SonicPC.VerifierKey, sums: Sums, total: Fp) {
    PairSum(vk, sums.comms).Some? && Residual(vk, sums) == total
  }

  lemma {:induction false} BatchStep(vk: SonicPC.VerifierKey, sums: Sums, q: Query, rho: Fp, total: Fp)
    requires Aligned(q) && AllSupported(vk, q.comms) && SumsTo(vk, sums, total)
    ensures SumsTo(vk, Added(sums, vk, q, Some(rho)), Add(total, Mul(rho, Error(vk, q))))
  {
    AddedResidual(vk, sums, q, Some(rho));
  }

  lemma {:induction false} BatchResidual(vk: SonicPC.VerifierKey, qs: seq<Query>, draws: Draws, n: nat)
    requires n <= |qs| && QueriesOk(vk, qs)
    ensures SumsTo(vk, BatchSums(vk, qs, draws, n), WeightedSum(Errors(vk, qs), draws, n))
  {
    if n == 0 {
      EmptyResidual(vk);
    } else {
      BatchResidual(vk, qs, draws, n - 1);
      BatchStep(vk, BatchSums(vk, qs, draws, n - 1), qs[n - 1], Randomizer(draws, n - 1),
                WeightedSum(Errors(vk, qs), draws, n - 1));
    }
  }

  /** batch_check compares the weighted sum of the separate residuals with zero. */
  lemma {:induction false} BatchIsWeighted(vk: SonicPC.VerifierKey, qs: seq<Query>, draws: Draws)
    requires QueriesOk(vk, qs)
    ensures CheckElems(vk, BatchSums(vk, qs, draws, |qs|)) == Some(WeightedSum(Errors(vk, qs), draws, |qs|) == 0)
  {
    BatchResidual(vk, qs, draws, |qs|);
  }

  lemma {:induction false} BatchUnsupported(vk: SonicPC.VerifierKey, qs: seq<Query>, draws: Draws, i: nat, n: nat)
    requires i < n <= |qs| && (forall k :: 0 <= k < |qs| ==> Aligned(qs[k])) && !AllSupported(vk, qs[i].comms)
    ensures PairSum(vk, BatchSums(vk, qs, draws, n).comms).None?
  {
    var q := qs[n - 1];
    if i < n - 1 { BatchUnsupported(vk, qs, draws, i, n - 1); }
    CommsUnsupported(vk, BatchSums(vk, qs, draws, n - 1).comms, q.comms, q.xi, Some(Randomizer(draws, n - 1)),
                     |q.comms|);
  }

  /** batch_check errs exactly if check errs for one of the claims. */
  lemma {:induction false} ErrsTogether(vk: SonicPC.VerifierKey, qs: seq<Query>, draws: Draws)
    requires forall i :: 0 <= i < |qs| ==> Aligned(qs[i])
    ensures CheckElems(vk, BatchSums(vk, qs, draws, |qs|)).None?
            <==> exists i :: 0 <= i < |qs| && CheckSpec(vk, qs[i]).None?
  {
    forall i | 0 <= i < |qs| ensures CheckSpec(vk, qs[i]).None? <==> !AllSupported(vk, qs[i].comms) {
      CheckExactly(vk, qs[i]);
    }
    if i :| 0 <= i < |qs| && !AllSupported(vk, qs[i].comms) {
      BatchUnsupported(vk, qs, draws, i, |qs|);
    } else {
      BatchIsWeighted(vk, qs, draws);
    }
  }

  ghost predicate Accepted(vk: SonicPC.VerifierKey, q: Query) {
    Aligned(q) && CheckSpec(vk, q) == Some(true)
  }

  /** Claims that check accepts one by one, batch_check accepts together. */
  lemma {:induction false} AcceptedTogether(vk: SonicPC.VerifierKey, qs: seq<Query>, draws: Draws)
    requires forall i :: 0 <= i < |qs| ==> Accepted(vk, qs[i])
    ensures forall i :: 0 <= i < |qs| ==> Aligned(qs[i])
    ensures CheckElems(vk, BatchSums(vk, qs, draws, |qs|)) == Some(true)
  {
    forall i | 0 <= i < |qs| ensures AllSupported(vk, qs[i].comms) && Error(vk, qs[i]) == 0 {
      assert Accepted(vk, qs[i]);
      CheckExactly(vk, qs[i]);
    }
    BatchIsWeighted(vk, qs, draws);
    AllZero(Errors(vk, qs), draws, |qs|);
  }

  lemma {:induction false} ErrorsOf(vk: SonicPC.VerifierKey, qs: seq<Query>, i: nat)
    requires i < |qs| && Aligned(qs[i]) && CheckSpec(vk, qs[i]).Some?
    ensures AllSupported(vk, qs[i].comms) && (Accepted(vk, qs[i]) <==> Error(vk, qs[i]) == 0)
  {
    CheckExactly(vk, qs[i]);
  }

  /** If check accepts all claims but one and does not err for that one, batch_check accepts
      exactly if check accepts that one too, or it is not the first and zero was drawn for it. */
  lemma {:induction false} BatchRefinesSingle(vk: SonicPC.VerifierKey, qs: seq<Query>, draws: Draws, j: nat)
    requires j < |qs| && Aligned(qs[j]) && CheckSpec(vk, qs[j]).Some?
    requires forall i :: 0 <= i < |qs| && i != j ==> Accepted(vk, qs[i])
    ensures forall i :: 0 <= i < |qs| ==> Aligned(qs[i])
    ensures CheckElems(vk, BatchSums(vk, qs, draws, |qs|))
            == Some(Accepted(vk, qs[j]) || (j > 0 && draws(j - 1) == 0))
  {
    forall i | 0 <= i < |qs|
      ensures Aligned(qs[i]) && AllSupported(vk, qs[i].comms) && (Accepted(vk, qs[i]) <==> Error(vk, qs[i]) == 0)
    {
      assert i != j ==> Accepted(vk, qs[i]);
      ErrorsOf(vk, qs, i);
    }
    BatchIsWeighted(vk, qs, draws);
    OneWrong(Errors(vk, qs), draws, |qs|, j);
  }

  // ----- the equations written out

  /** Every commitment with its challenge, paired with the element for its bound. */
  function PairTerms(vk: SonicPC.VerifierKey, comms: seq<LabeledCommitment>, xi: Squeezes): (r: seq<Fp>)
    requires AllSupported(vk, comms)
    ensures |r| == |comms|
    ensures forall i :: 0 <= i < |r| ==>
              r[i] == Mul(Mul(comms[i].comm, xi(i)), PairedWith(vk, comms[i].degreeBound).value)
  {
    seq(|comms|, i requires 0 <= i < |comms| => PairTerm(vk, comms, xi, i))
  }

  function PairTerm(vk: SonicPC.VerifierKey, comms: seq<LabeledCommitment>, xi: Squeezes, i: nat): (r: Fp)
    requires i < |comms| && AllSupported(vk, comms)
  {
    Mul(Mul(comms[i].comm, xi(i)), PairedWith(vk, comms[i].degreeBound).value)
  }

  function ValueTerms(values: seq<Fp>, xi: Squeezes): (r: seq<Fp>)
    ensures |r| == |values| && forall i :: 0 <= i < |r| ==> r[i] == Mul(values[i], xi(i))
  {
    seq(|values|, i requires 0 <= i < |values| => ValueTerm(values, xi, i))
  }

  function ValueTerm(values: seq<Fp>, xi: Squeezes, i: nat): (r: Fp)
    requires i < |values|
  {
    Mul(values[i], xi(i))
  }

  lemma {:induction false} CommSumIs(vk: SonicPC.VerifierKey, comms: seq<LabeledCommitment>, xi: Squeezes, n: nat)
    requires n <= |comms| && AllSupported(vk, comms)
    ensures CommSum(vk, comms, xi, n) == Sum(PairTerms(vk, comms, xi)[..n])
  {
    if n > 0 {
      CommSumIs(vk, comms, xi, n - 1);
      SumNext(PairTerms(vk, comms, xi), n);
    }
  }

  lemma {:induction false} CombinedValueIs(values: seq<Fp>, xi: Squeezes, n: nat)
    requires n <= |values|
    ensures CombinedValue(values, xi, n) == Sum(ValueTerms(values, xi)[..n])
  {
    if n > 0 {
      CombinedValueIs(values, xi, n - 1);
      SumNext(ValueTerms(values, xi), n);
    }
  }

  /** The paired commitments, less h paired with g v + gamma r - z w and beta h paired with w, where v is
      the sum of the values with their challenges. */
  function Imbalance(vk: SonicPC.VerifierKey, q: Query): Fp
    requires Aligned(q) && AllSupported(vk, q.comms)
  {
    var value := Add(Mul(vk.g, Sum(ValueTerms(q.values, q.xi))), Mul(vk.gammaG, Blinding(q.proof.randomV)));
    Sub(Sub(Sum(PairTerms(vk, q.comms, q.xi)), Mul(Sub(value, Mul(q.proof.w, q.point)), vk.h)),
        Mul(q.proof.w, vk.betaH))
  }

  lemma ErrorIsImbalance(vk: SonicPC.VerifierKey, q: Query)
    requires Aligned(q) && AllSupported(vk, q.comms)
    ensures Error(vk, q) == Imbalance(vk, q)
  {
    CommSumIs(vk, q.comms, q.xi, |q.comms|);
    CombinedValueIs(q.values, q.xi, |q.values|);
    assert PairTerms(vk, q.comms, q.xi)[..|q.comms|] == PairTerms(vk, q.comms, q.xi);
    assert ValueTerms(q.values, q.xi)[..|q.values|] == ValueTerms(q.values, q.xi);
    var v, w := Sum(ValueTerms(q.values, q.xi)), q.proof.w;
    var a := AdjustedWitness(vk, v, q.point, q.proof);
    assert a == Sub(Add(Mul(vk.g, v), Mul(vk.gammaG, Blinding(q.proof.randomV))), Mul(w, q.point)) by {
      BlindingIn(Mul(vk.g, v), Mul(w, q.point), Mul(vk.gammaG, Blinding(q.proof.randomV)));
      Units(vk.gammaG);
      Units(Sub(Mul(vk.g, v), Mul(w, q.point)));
    }
    NegTimes(a, vk.h);
    NegTimes(w, vk.betaH);
    AddAssociates(Sum(PairTerms(vk, q.comms, q.xi)), Neg(Mul(a, vk.h)), Neg(Mul(w, vk.betaH)));
  }

  lemma BlindingIn(a: Fp, b: Fp, c: Fp)
    ensures Add(Sub(a, b), c) == Sub(Add(a, c), b)
  {
    RingLaws();
  }

  /** check errs exactly for an unsupported bound; otherwise it compares this with zero. */
  lemma CheckDecides(vk: SonicPC.VerifierKey, q: Query)
    requires Aligned(q)
    ensures CheckSpec(vk, q) == if AllSupported(vk, q.comms) then Some(Imbalance(vk, q) == 0) else None
  {
    CheckExactly(vk, q);
    if AllSupported(vk, q.comms) { ErrorIsImbalance(vk, q); }
  }

  ghost function Imbalances(vk: SonicPC.VerifierKey, qs: seq<Query>): (r: seq<Fp>)
    requires QueriesOk(vk, qs)
    ensures |r| == |qs| && forall i :: 0 <= i < |r| ==> r[i] == Imbalance(vk, qs[i])
  {
    seq(|qs|, i requires 0 <= i < |qs| && QueriesOk(vk, qs) => Imbalance(vk, qs[i]))
  }

  lemma {:induction false} ErrorsAre(vk: SonicPC.VerifierKey, qs: seq<Query>)
    requires QueriesOk(vk, qs)
    ensures Errors(vk, qs) == Imbalances(vk, qs)
  {
    forall i | 0 <= i < |qs| ensures Errors(vk, qs)[i] == Imbalances(vk, qs)[i] { ErrorIsImbalance(vk, qs[i]); }
  }

  /** batch_check compares with zero the imbalance of the first claim plus those of the others, each
      times what was drawn before it. */
  lemma {:induction false} BatchIs(vk: SonicPC.VerifierKey, qs: seq<Query>, draws: Draws)
    requires QueriesOk(vk, qs)
    ensures CheckElems(vk, BatchSums(vk, qs, draws, |qs|)) == Some(Sum(Terms(Imbalances(vk, qs), draws)) == 0)
  {
    BatchIsWeighted(vk, qs, draws);
    ErrorsAre(vk, qs);
    WeightedSumIs(Imbalances(vk, qs), draws, |qs|);
    assert Terms(Imbalances(vk, qs), draws)[..|qs|] == Terms(Imbalances(vk, qs), draws);
  }

  /** If check accepts all claims but two, batch_check accepts exactly if their imbalances cancel. */
  lemma {:induction false} TwoMustCancel(vk: SonicPC.VerifierKey, qs: seq<Query>, draws: Draws, i: nat, j: nat)
    requires QueriesOk(vk, qs) && i < j < |qs|
    requires forall k :: 0 <= k < |qs| && k != i && k != j ==> Accepted(vk, qs[k])
    ensures CheckElems(vk, BatchSums(vk, qs, draws, |qs|))
            == Some(Add(if i == 0 then Imbalance(vk, qs[i]) else Mul(draws(i - 1), Imbalance(vk, qs[i])),
                        Mul(draws(j - 1), Imbalance(vk, qs[j]))) == 0)
  {
    BatchIsWeighted(vk, qs, draws);
    forall k | 0 <= k < |qs| && k != i && k != j ensures Errors(vk, qs)[k] == 0 { ErrorsOf(vk, qs, k); }
    TwoWrong(Errors(vk, qs), draws, |qs|, i, j);
    ErrorIsImbalance(vk, qs[i]);
    ErrorIsImbalance(vk, qs[j]);
  }
}
