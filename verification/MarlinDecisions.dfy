/** What Marlin trims, commits to, opens and decides (marlin/marlin_pc/mod.rs, marlin/mod.rs), for
    whatever polynomials, commitments, values and proofs. */
module MarlinDecisions {
  import opened PrimeField
  import opened Vectors
  import opened KZG10
  import opened MarlinPC
  import opened MarlinCompleteness
  import BatchChecks

  // ----- trim

  /** trim errs for too large a degree and panics for too large a hiding bound or degree bound;
      otherwise it keeps as many powers as asked for, and the bounds. */
  lemma TrimDecides(pp: UniversalParams, maxDegree: nat, supportedDegree: nat, supportedHidingBound: nat,
                    bounds: Option<seq<nat>>)
    requires |pp.powersOfG| == maxDegree + 1 && |pp.powersOfGammaG| == maxDegree + 2
    ensures var r := Trim(pp, maxDegree, supportedDegree, supportedHidingBound, bounds);
            && (r == Err <==> supportedDegree > maxDegree)
            && (r == Panic <==> supportedDegree <= maxDegree
                                && (supportedHidingBound > maxDegree
                                    || (bounds.Some? && exists d :: d in bounds.value && d > maxDegree)))
            && (r.Ok? ==>
                  var (ck, vk) := r.value;
                  && |ck.powers| == supportedDegree + 1 && |ck.powersOfGammaG| == supportedHidingBound + 2
                  && ck.bounds == bounds && ck.maxDegree == maxDegree
                  && (ck.shiftedPowers.Some? <==> bounds.Some? && bounds.value != [])
                  && (ck.shiftedPowers.Some? ==> |ck.shiftedPowers.value| == Largest(bounds.value) + 1)
                  && vk.vk == KZG10.VerifierKey(pp.powersOfG[0], pp.powersOfGammaG[0], pp.h, pp.betaH)
                  && (vk.shiftPowers.Some? <==> ck.shiftedPowers.Some?))
  {
    if bounds.Some? {
      assert (exists d :: d in bounds.value && d > maxDegree)
        <==> exists i :: 0 <= i < |bounds.value| && bounds.value[i] > maxDegree by {
        assert forall i :: 0 <= i < |bounds.value| ==> bounds.value[i] in bounds.value;
      }
    }
  }

  // ----- commit

  predicate GoodCoin(ck: CommitterKey, coin: seq<Fp>) {
    0 < Degree(coin) < |ck.powersOfGammaG|
  }

  predicate Committable(ck: CommitterKey, p: LabeledPolynomial, coin: seq<Fp>, shiftedCoin: seq<Fp>) {
    && Degree(p.polynomial) < |ck.powers|
    && (p.degreeBound.Some? ==>
          && ck.bounds.Some? && p.degreeBound.value in ck.bounds.value
          && Degree(p.polynomial) <= p.degreeBound.value <= ck.maxDegree)
    && (p.hidingBound.Some? ==> GoodCoin(ck, coin) && (p.degreeBound.Some? ==> GoodCoin(ck, shiftedCoin)))
  }

  /** commit rejects exactly what does not fit the key, its bound or the blinding powers, and blinds each
      of the two commitments with coins of its own, if it hides. */
  lemma CommitDecides(ck: CommitterKey, vk: MarlinPC.VerifierKey, td: Trapdoor, p: LabeledPolynomial, coin: seq<Fp>,
                      shiftedCoin: seq<Fp>)
    requires HonestKeys(ck, vk, td)
    ensures var r := CommitOne(ck, p, coin, shiftedCoin);
            && (r.Some? <==> Committable(ck, p, coin, shiftedCoin))
            && (r.Some? ==>
                  r.value.1 == Randomness(if p.hidingBound.Some? then coin else [],
                                          if p.degreeBound.None? then None
                                          else Some(if p.hidingBound.Some? then shiftedCoin else [])))
  {
    if p.degreeBound.Some? && ck.bounds.Some? && p.degreeBound.value in ck.bounds.value {
      assert HonestShifts(ck, vk, td);
      var d, l := p.degreeBound.value, Largest(ck.bounds.value);
      assert ShiftedPowers(ck, d) == Some(Powers(ck.shiftedPowers.value[l - d..], ck.powersOfGammaG));
    }
  }

  // ----- the places of the challenges

  /** One challenge for every polynomial before, and one more for every bounded one of them. */
  function Place(bounded: seq<bool>, n: nat): nat
    requires n <= |bounded|
  {
    n + |Earlier(bounded, n)|
  }

  function Earlier(bounded: seq<bool>, n: nat): set<nat>
    requires n <= |bounded|
  {
    set i: nat | i < n && bounded[i]
  }

  lemma {:induction false} PositionIs(bounded: seq<bool>, n: nat)
    requires n <= |bounded|
    ensures Position(bounded, n) == Place(bounded, n)
  {
    if n > 0 {
      PositionIs(bounded, n - 1);
      assert Earlier(bounded, n) == Earlier(bounded, n - 1) + if bounded[n - 1] then {n - 1} else {};
    }
  }

  // ----- check

  /** A bound and a shifted commitment come together, and the bound has a shift power. */
  predicate InOrder(vk: MarlinPC.VerifierKey, c: LabeledCommitment) {
    && c.degreeBound.Some? == c.commitment.shiftedComm.Some?
    && (c.degreeBound.Some? ==> vk.shiftPowers.Some? && Lookup(vk.shiftPowers.value, c.degreeBound.value).Some?)
  }

  /** A table holds a bound exactly if some entry has it, and the first such entry counts. */
  lemma {:induction false} LookupIs(table: seq<(nat, Fp)>, bound: nat)
    ensures Lookup(table, bound).Some? <==> exists i :: 0 <= i < |table| && table[i].0 == bound
    ensures forall i :: 0 <= i < |table| && table[i].0 == bound && (forall k :: 0 <= k < i ==> table[k].0 != bound)
                        ==> Lookup(table, bound) == Some(table[i].1)
  {
    if table != [] && table[0].0 != bound {
      LookupIs(table[1..], bound);
      assert forall i :: 0 <= i < |table| - 1 ==> table[1..][i] == table[i + 1];
      assert forall i :: 0 < i < |table| ==> table[i] == table[1..][i - 1];
    }
  }

  predicate AllInOrder(vk: MarlinPC.VerifierKey, comms: seq<LabeledCommitment>) {
    forall i :: 0 <= i < |comms| ==> InOrder(vk, comms[i])
  }

  /** Commitment i with its challenge; a shifted one, less the shift power times the value, with the next. */
  function CommTerm(vk: MarlinPC.VerifierKey, comms: seq<LabeledCommitment>, values: seq<Fp>, xi: Squeezes, i: nat): Fp
    requires i < |comms| == |values| && InOrder(vk, comms[i])
  {
    var c, k := comms[i], Place(BoundedComms(comms), i);
    if c.degreeBound.None? then Mul(c.commitment.comm, xi(k))
    else
      var power := Lookup(vk.shiftPowers.value, c.degreeBound.value).value;
      Add(Mul(c.commitment.comm, xi(k)), Mul(Sub(c.commitment.shiftedComm.value, Mul(power, values[i])), xi(k + 1)))
  }

  function CommTerms(vk: MarlinPC.VerifierKey, comms: seq<LabeledCommitment>, values: seq<Fp>, xi: Squeezes):
    (r: seq<Fp>)
    requires |comms| == |values| && AllInOrder(vk, comms)
    ensures |r| == |comms| && forall i :: 0 <= i < |r| ==> r[i] == CommTerm(vk, comms, values, xi, i)
  {
    seq(|comms|, i requires 0 <= i < |comms| => CommTerm(vk, comms, values, xi, i))
  }

  function ValueTerms(bounded: seq<bool>, values: seq<Fp>, xi: Squeezes): (r: seq<Fp>)
    requires |bounded| == |values|
    ensures |r| == |values| && forall i :: 0 <= i < |r| ==> r[i] == Mul(values[i], xi(Place(bounded, i)))
  {
    seq(|values|, i requires 0 <= i < |values| => ValueTerm(bounded, values, xi, i))
  }

  function ValueTerm(bounded: seq<bool>, values: seq<Fp>, xi: Squeezes, i: nat): Fp
    requires i < |bounded| == |values|
  {
    Mul(values[i], xi(Place(bounded, i)))
  }

  lemma {:induction false} CommOutcomeIs(vk: MarlinPC.VerifierKey, comms: seq<LabeledCommitment>, values: seq<Fp>,
                                         xi: Squeezes, n: nat)
    requires n <= |comms| == |values| && AllInOrder(vk, comms)
    ensures CommOutcome(vk, comms, values, xi, n) == Ok(Sum(CommTerms(vk, comms, values, xi)[..n]))
  {
    if n > 0 {
      CommOutcomeIs(vk, comms, values, xi, n - 1);
      SumNext(CommTerms(vk, comms, values, xi), n);
      PositionIs(BoundedComms(comms), n - 1);
      AddsTerm(vk, comms, values, xi, n - 1, Sum(CommTerms(vk, comms, values, xi)[..n - 1]));
    }
  }

  lemma AddsTerm(vk: MarlinPC.VerifierKey, comms: seq<LabeledCommitment>, values: seq<Fp>, xi: Squeezes, i: nat,
                 sum: Fp)
    requires i < |comms| == |values| && InOrder(vk, comms[i])
    ensures var k := Place(BoundedComms(comms), i);
            AddOutcome(vk, sum, comms[i], values[i], xi(k), xi(k + 1))
            == Ok(Add(sum, CommTerm(vk, comms, values, xi, i)))
  {
    var c, k := comms[i], Place(BoundedComms(comms), i);
    if c.degreeBound.Some? {
      var power := Lookup(vk.shiftPowers.value, c.degreeBound.value).value;
      AddAssociates(sum, Mul(c.commitment.comm, xi(k)),
                    Mul(Sub(c.commitment.shiftedComm.value, Mul(power, values[i])), xi(k + 1)));
    }
  }

  lemma {:induction false} CombinedValueIs(bounded: seq<bool>, values: seq<Fp>, xi: Squeezes, n: nat)
    requires n <= |bounded| == |values|
    ensures CombinedValue(bounded, values, xi, n) == Sum(ValueTerms(bounded, values, xi)[..n])
  {
    if n > 0 {
      CombinedValueIs(bounded, values, xi, n - 1);
      SumNext(ValueTerms(bounded, values, xi), n);
      PositionIs(bounded, n - 1);
    }
  }

  /** Where all commitments are in order, check compares the two sides of the KZG10 equation for these
      sums, whatever the commitments, values and proof. */
  lemma CheckDecides(vk: MarlinPC.VerifierKey, comms: seq<LabeledCommitment>, point: Fp, values: seq<Fp>, proof: Proof,
                     xi: Squeezes)
    requires |comms| == |values| && AllInOrder(vk, comms)
    ensures var c, v := Sum(CommTerms(vk, comms, values, xi)), Sum(ValueTerms(BoundedComms(comms), values, xi));
            CheckSpec(vk, comms, point, values, proof, xi)
            == Ok(BatchChecks.Imbalance(vk.vk, BatchChecks.Claim(c, point, v, proof)) == 0)
  {
    var n := |comms|;
    CommOutcomeIs(vk, comms, values, xi, n);
    CombinedValueIs(BoundedComms(comms), values, xi, n);
    assert CommTerms(vk, comms, values, xi)[..n] == CommTerms(vk, comms, values, xi);
    assert ValueTerms(BoundedComms(comms), values, xi)[..n] == ValueTerms(BoundedComms(comms), values, xi);
    var claim := BatchChecks.Claim(Sum(CommTerms(vk, comms, values, xi)), point,
                                   Sum(ValueTerms(BoundedComms(comms), values, xi)), proof);
    BatchChecks.CheckIsDeficit(vk.vk, claim);
    BatchChecks.DeficitIsImbalance(vk.vk, claim);
  }

  /** Otherwise the first that is not in order decides. */
  lemma {:induction false} CheckFails(vk: MarlinPC.VerifierKey, comms: seq<LabeledCommitment>, point: Fp,
                                      values: seq<Fp>, proof: Proof, xi: Squeezes, k: nat)
    requires k < |comms| == |values| && !InOrder(vk, comms[k])
    requires forall i :: 0 <= i < k ==> InOrder(vk, comms[i])
    ensures CheckSpec(vk, comms, point, values, proof, xi)
            == if comms[k].degreeBound.Some? != comms[k].commitment.shiftedComm.Some? then Panic else Err
  {
    SomeOutcome(vk, comms, values, xi, k);
    FailedOnce(vk, comms, values, xi, k + 1, |comms|);
  }

  lemma {:induction false} SomeOutcome(vk: MarlinPC.VerifierKey, comms: seq<LabeledCommitment>, values: seq<Fp>,
                                       xi: Squeezes, n: nat)
    requires n <= |comms| == |values| && forall i :: 0 <= i < n ==> InOrder(vk, comms[i])
    ensures CommOutcome(vk, comms, values, xi, n).Ok?
  {
    if n > 0 { SomeOutcome(vk, comms, values, xi, n - 1); }
  }

  // ----- open

  /** The blinding has a shifted part exactly with a bound, and the bound is in order. */
  predicate Openable(ck: CommitterKey, p: LabeledPolynomial, state: Randomness) {
    && p.degreeBound.Some? == state.shiftedRand.Some?
    && (p.degreeBound.Some? ==>
          && ck.bounds.Some? && p.degreeBound.value in ck.bounds.value
          && Degree(p.polynomial) <= p.degreeBound.value <= ck.maxDegree)
  }

  ghost predicate SomeBound(ps: seq<LabeledPolynomial>, n: nat)
    requires n <= |ps|
  {
    exists i :: 0 <= i < n && ps[i].degreeBound.Some?
  }

  lemma SomeBoundNext(ps: seq<LabeledPolynomial>, n: nat)
    requires 0 < n <= |ps|
    ensures SomeBound(ps, n) <==> SomeBound(ps, n - 1) || ps[n - 1].degreeBound.Some?
  {
  }

  ghost predicate AllOpenable(ck: CommitterKey, ps: seq<LabeledPolynomial>, states: seq<Randomness>, n: nat)
    requires n <= |ps| == |states|
  {
    forall i :: 0 <= i < n ==> Openable(ck, ps[i], states[i])
  }

  lemma {:induction false} SomeTurns(ck: CommitterKey, vk: MarlinPC.VerifierKey, td: Trapdoor,
                                     ps: seq<LabeledPolynomial>, states: seq<Randomness>, point: Fp, xi: Squeezes,
                                     n: nat)
    requires HonestKeys(ck, vk, td) && n <= |ps| == |states| && AllOpenable(ck, ps, states, n)
    ensures Turns(ck, ps, states, point, xi, n).Ok?
    ensures Turns(ck, ps, states, point, xi, n).value.enforce <==> SomeBound(ps, n)
  {
    if n > 0 {
      assert Openable(ck, ps[n - 1], states[n - 1]);
      SomeTurns(ck, vk, td, ps, states, point, xi, n - 1);
      SomeBoundNext(ps, n);
      NextTurnIs(ck, vk, td, ps, states, point, xi, n, Turns(ck, ps, states, point, xi, n - 1).value);
    }
  }

  lemma NextTurnIs(ck: CommitterKey, vk: MarlinPC.VerifierKey, td: Trapdoor, ps: seq<LabeledPolynomial>,
                   states: seq<Randomness>, point: Fp, xi: Squeezes, n: nat, acc: Accumulated)
    requires HonestKeys(ck, vk, td) && 0 < n <= |ps| == |states| && Openable(ck, ps[n - 1], states[n - 1])
    requires Turns(ck, ps, states, point, xi, n - 1) == Ok(acc)
    ensures var r := Turns(ck, ps, states, point, xi, n);
            r.Ok? && (r.value.enforce <==> acc.enforce || ps[n - 1].degreeBound.Some?)
  {
    var k := Position(Bounded(ps), n - 1);
    TurnSucceeds(ck, vk, td, acc, ps[n - 1], states[n - 1], point, xi(k), xi(k + 1));
  }

  lemma TurnSucceeds(ck: CommitterKey, vk: MarlinPC.VerifierKey, td: Trapdoor, acc: Accumulated, p: LabeledPolynomial,
                     state: Randomness, point: Fp, x: Fp, y: Fp)
    requires HonestKeys(ck, vk, td) && Openable(ck, p, state)
    ensures var r := Turn(ck, acc, p, state, point, x, y);
            r.Ok? && (r.value.enforce <==> acc.enforce || p.degreeBound.Some?)
  {
    if p.degreeBound.Some? { assert HonestShifts(ck, vk, td); }
  }

  /** The first polynomial that cannot be opened decides: a panic for blinding that does not go with the
      bound, otherwise an error. */
  lemma {:induction false} OpenFails(ck: CommitterKey, vk: MarlinPC.VerifierKey, td: Trapdoor,
                                     ps: seq<LabeledPolynomial>, states: seq<Randomness>, point: Fp, xi: Squeezes,
                                     k: nat)
    requires HonestKeys(ck, vk, td) && k < |ps| == |states| && !Openable(ck, ps[k], states[k])
    requires AllOpenable(ck, ps, states, k)
    ensures OpenSpec(ck, ps, states, point, xi)
            == if ps[k].degreeBound.Some? != states[k].shiftedRand.Some? then Panic else Err
  {
    SomeTurns(ck, vk, td, ps, states, point, xi, k);
    FailedTurn(ck, ps, states, point, xi, k);
    FailureStays(ck, ps, states, point, xi, k + 1, |ps|, Turns(ck, ps, states, point, xi, k + 1));
    assert Peek(0);
  }

  lemma FailedTurn(ck: CommitterKey, ps: seq<LabeledPolynomial>, states: seq<Randomness>, point: Fp, xi: Squeezes,
                   k: nat)
    requires k < |ps| == |states| && !Openable(ck, ps[k], states[k]) && Turns(ck, ps, states, point, xi, k).Ok?
    ensures Turns(ck, ps, states, point, xi, k + 1)
            == if ps[k].degreeBound.Some? != states[k].shiftedRand.Some? then Panic else Err
  {
  }

  /** Otherwise open errs exactly if a combined polynomial does not fit its key. */
  lemma {:induction false} OpenDecides(ck: CommitterKey, vk: MarlinPC.VerifierKey, td: Trapdoor,
                                       ps: seq<LabeledPolynomial>, states: seq<Randomness>, point: Fp, xi: Squeezes)
    requires HonestKeys(ck, vk, td) && |ps| == |states| && AllOpenable(ck, ps, states, |ps|)
    ensures var acc := Turns(ck, ps, states, point, xi, |ps|);
            && acc.Ok? && OpenSpec(ck, ps, states, point, xi) != Panic
            && (OpenSpec(ck, ps, states, point, xi).Ok?
                <==> Degree(acc.value.p) < |ck.powers|
                     && (SomeBound(ps, |ps|)
                         ==> ck.shiftedPowers.Some? && Degree(acc.value.shiftedW) < |ck.shiftedPowers.value|))
  {
    SomeTurns(ck, vk, td, ps, states, point, xi, |ps|);
    var acc := Turns(ck, ps, states, point, xi, |ps|).value;
    if SomeBound(ps, |ps|) {
      var i :| 0 <= i < |ps| && ps[i].degreeBound.Some?;
      assert Openable(ck, ps[i], states[i]);
      assert HonestShifts(ck, vk, td);
    }
    WitnessDegree(acc.p, point);
  }
}
