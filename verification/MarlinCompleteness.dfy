/** What check accepts of Marlin's openings, for any mix of degree bounds and hiding
    (marlin/marlin_pc/mod.rs, marlin/mod.rs). */
module MarlinCompleteness {
  import opened PrimeField
  import opened Vectors
  import opened Polynomials
  import opened KZG10
  import opened MarlinPC
  import StreamingKzg
  import Division
  import KzgVerifier

  // ----- honest keys

  /** All powers come from one trapdoor; the shifted ones start at maxDegree minus the largest
      bound. */
  ghost predicate HonestKeys(ck: CommitterKey, vk: MarlinPC.VerifierKey, td: Trapdoor) {
    && HonestPowers(Powers(ck.powers, ck.powersOfGammaG), td.g, td.gammaG, td.beta)
    && |ck.powers| >= 1 && |ck.powersOfGammaG| >= 1 && HonestVerifierKey(vk.vk, td)
    && (ck.bounds.Some? && ck.bounds.value != [] ==> HonestShifts(ck, vk, td))
  }

  ghost predicate HonestShifts(ck: CommitterKey, vk: MarlinPC.VerifierKey, td: Trapdoor)
    requires ck.bounds.Some? && ck.bounds.value != []
  {
    var l := Largest(ck.bounds.value);
    && l <= ck.maxDegree && (forall d :: d in ck.bounds.value ==> d <= l)
    && ck.shiftedPowers == Some(PowersFrom(Mul(td.g, Pow(td.beta, ck.maxDegree - l)), td.beta, l + 1))
    && vk.shiftPowers.Some?
    && forall d :: d in ck.bounds.value ==> Lookup(vk.shiftPowers.value, d) == Some(Shift(td, ck.maxDegree, d))
  }

  /** g times the power of beta that a bound shifts by. */
  function Shift(td: Trapdoor, maxDegree: nat, bound: nat): Fp {
    Mul(td.g, Pow(td.beta, if bound <= maxDegree then maxDegree - bound else 0))
  }

  lemma {:induction false} ShiftLookup(table: seq<(nat, Fp)>, bounds: seq<nat>, d: nat, td: Trapdoor, maxDegree: nat)
    requires |table| == |bounds| && d in bounds
    requires forall i :: 0 <= i < |table| ==> table[i] == (bounds[i], Shift(td, maxDegree, bounds[i]))
    ensures Lookup(table, d) == Some(Shift(td, maxDegree, d))
  {
    if bounds[0] != d {
      assert forall i :: 0 <= i < |table| - 1 ==> table[1..][i] == table[i + 1] && bounds[1..][i] == bounds[i + 1];
      assert d in bounds[1..] by {
        var i :| 0 <= i < |bounds| && bounds[i] == d;
        assert bounds[1..][i - 1] == d;
      }
      ShiftLookup(table[1..], bounds[1..], d, td, maxDegree);
    }
  }

  /** Trimming honest parameters for bounds in rising order gives honest keys. */
  lemma TrimIsHonest(pp: UniversalParams, maxDegree: nat, supportedDegree: nat, supportedHidingBound: nat,
                     bounds: Option<seq<nat>>, td: Trapdoor)
    requires HonestParams(pp, maxDegree, td) && supportedDegree <= maxDegree && supportedHidingBound <= maxDegree
    requires bounds.Some? ==>
               forall i, j :: 0 <= i <= j < |bounds.value| ==> bounds.value[i] <= bounds.value[j] <= maxDegree
    ensures var keys := Trim(pp, maxDegree, supportedDegree, supportedHidingBound, bounds);
            keys.Ok? && HonestKeys(keys.value.0, keys.value.1, td)
  {
    var (ck, vk) := Trim(pp, maxDegree, supportedDegree, supportedHidingBound, bounds).value;
    assert HonestPowers(Powers(ck.powers, ck.powersOfGammaG), td.g, td.gammaG, td.beta) by {
      KzgVerifier.PowersPrefix(td.g, td.beta, maxDegree + 1, supportedDegree + 1);
      KzgVerifier.PowersPrefix(td.gammaG, td.beta, maxDegree + 2, supportedHidingBound + 2);
    }
    if bounds.Some? && bounds.value != [] {
      TrimmedShifts(pp, maxDegree, bounds.value, ck, vk, td);
    }
  }

  /** What trimming does for the enforced bounds. */
  lemma TrimmedShifts(pp: UniversalParams, maxDegree: nat, bounds: seq<nat>, ck: CommitterKey, vk: MarlinPC.VerifierKey,
                      td: Trapdoor)
    requires HonestParams(pp, maxDegree, td) && bounds != [] && ck.bounds == Some(bounds) && ck.maxDegree == maxDegree
    requires forall i, j :: 0 <= i <= j < |bounds| ==> bounds[i] <= bounds[j] <= maxDegree
    requires ck.shiftedPowers == Some(pp.powersOfG[maxDegree - Largest(bounds)..])
    requires vk.shiftPowers == Some(ShiftTable(pp.powersOfG, maxDegree, bounds))
    ensures HonestShifts(ck, vk, td)
  {
    PowersSuffix(td.g, td.beta, maxDegree + 1, maxDegree - Largest(bounds));
    TableIsHonest(pp, maxDegree, bounds, vk.shiftPowers.value, td);
  }

  lemma TableIsHonest(pp: UniversalParams, maxDegree: nat, bounds: seq<nat>, table: seq<(nat, Fp)>, td: Trapdoor)
    requires HonestParams(pp, maxDegree, td) && bounds != []
    requires forall i, j :: 0 <= i <= j < |bounds| ==> bounds[i] <= bounds[j] <= maxDegree
    requires table == ShiftTable(pp.powersOfG, maxDegree, bounds)
    ensures forall d :: d in bounds ==> d <= Largest(bounds)
    ensures forall d :: d in bounds ==> Lookup(table, d) == Some(Shift(td, maxDegree, d))
  {
    forall i | 0 <= i < |bounds| ensures table[i] == (bounds[i], Shift(td, maxDegree, bounds[i])) {
      PowersIndex(td.g, td.beta, maxDegree + 1, maxDegree - bounds[i]);
    }
    forall d | d in bounds ensures Lookup(table, d) == Some(Shift(td, maxDegree, d)) {
      ShiftLookup(table, bounds, d, td, maxDegree);
    }
  }

  // ----- committed polynomials

  /** Coefficients from n on are zero. */
  ghost predicate Below(f: seq<Fp>, n: nat) {
    forall k: nat :: k >= n ==> Coef(f, k) == 0
  }

  lemma BelowDegree(f: seq<Fp>, n: nat)
    requires n >= 1
    ensures Degree(f) < n <==> Below(f, n)
  {
    if Degree(f) < n {
      forall k: nat | k >= n ensures Coef(f, k) == 0 {
        if k < |f| { AboveDegree(f, k); }
      }
    }
    if Below(f, n) {
      forall i | 0 <= i < |f| && i > n - 1 ensures f[i] == 0 { assert Coef(f, i) == 0; }
      DegreeAtMost(f, n - 1);
    }
  }

  /** Everything commit guarantees for one polynomial. */
  ghost predicate OneOk(ck: CommitterKey, td: Trapdoor, p: LabeledPolynomial, c: LabeledCommitment, st: Randomness) {
    && c.degreeBound == p.degreeBound
    && (p.degreeBound.Some? <==> c.commitment.shiftedComm.Some?) && (p.degreeBound.Some? <==> st.shiftedRand.Some?)
    && Below(p.polynomial, |ck.powers|) && Below(st.rand, |ck.powersOfGammaG|)
    && c.commitment.comm == Add(Mul(td.g, Eval(p.polynomial, td.beta)), Mul(td.gammaG, Eval(st.rand, td.beta)))
    && (p.degreeBound.Some? ==> BoundedOk(ck, td, p, c, st))
  }

  ghost predicate BoundedOk(ck: CommitterKey, td: Trapdoor, p: LabeledPolynomial, c: LabeledCommitment, st: Randomness)
    requires p.degreeBound.Some? && c.commitment.shiftedComm.Some? && st.shiftedRand.Some?
  {
    && ck.bounds.Some? && p.degreeBound.value in ck.bounds.value
    && Below(p.polynomial, p.degreeBound.value + 1) && Below(st.shiftedRand.value, |ck.powersOfGammaG|)
    && c.commitment.shiftedComm.value
       == Add(Mul(Shift(td, ck.maxDegree, p.degreeBound.value), Eval(p.polynomial, td.beta)),
              Mul(td.gammaG, Eval(st.shiftedRand.value, td.beta)))
  }

  lemma CommitOneOk(ck: CommitterKey, vk: MarlinPC.VerifierKey, td: Trapdoor, p: LabeledPolynomial, coin: seq<Fp>,
                    shiftedCoin: seq<Fp>, c: LabeledCommitment, st: Randomness)
    requires HonestKeys(ck, vk, td) && CommitOne(ck, p, coin, shiftedCoin) == Some((c, st))
    ensures OneOk(ck, td, p, c, st)
  {
    var f, powers := p.polynomial, Powers(ck.powers, ck.powersOfGammaG);
    CommittedValue(powers, td.g, td.gammaG, td.beta, f, p.hidingBound, coin);
    BelowDegree(f, |ck.powers|);
    BlindingBelow(st.rand, |ck.powersOfGammaG|);
    if p.degreeBound.Some? {
      ShiftedCommit(ck, vk, td, p, shiftedCoin);
      BelowDegree(f, p.degreeBound.value + 1);
      BlindingBelow(st.shiftedRand.value, |ck.powersOfGammaG|);
    }
  }

  lemma BlindingBelow(r: seq<Fp>, n: nat)
    requires n >= 1 && (r == [] || Degree(r) < n)
    ensures Below(r, n)
  {
    BelowDegree(r, n);
  }

  lemma ShiftedCommit(ck: CommitterKey, vk: MarlinPC.VerifierKey, td: Trapdoor, p: LabeledPolynomial, coin: seq<Fp>)
    requires HonestKeys(ck, vk, td) && BoundOk(ck.bounds, ck.maxDegree, p) && p.degreeBound.Some?
    requires ShiftedPowers(ck, p.degreeBound.value).Some?
    requires Committed(ShiftedPowers(ck, p.degreeBound.value).value, p.polynomial, p.hidingBound, coin).Some?
    ensures var (c, rand) := Committed(ShiftedPowers(ck, p.degreeBound.value).value, p.polynomial, p.hidingBound,
                                       coin).value;
            && c == Add(Mul(Shift(td, ck.maxDegree, p.degreeBound.value), Eval(p.polynomial, td.beta)),
                        Mul(td.gammaG, Eval(rand, td.beta)))
            && (rand == [] || Degree(rand) < |ck.powersOfGammaG|)
  {
    var d, l := p.degreeBound.value, Largest(ck.bounds.value);
    var powers := ShiftedPowers(ck, d).value;
    assert HonestShifts(ck, vk, td);
    PowersSuffix(Mul(td.g, Pow(td.beta, ck.maxDegree - l)), td.beta, l + 1, l - d);
    MulAssociates(td.g, Pow(td.beta, ck.maxDegree - l), Pow(td.beta, l - d));
    PowAdd(td.beta, ck.maxDegree - l, l - d);
    CommittedValue(powers, Shift(td, ck.maxDegree, d), td.gammaG, td.beta, p.polynomial, p.hidingBound, coin);
  }

  // ----- the sums that open and check build

  ghost predicate AllOk(ck: CommitterKey, td: Trapdoor, ps: seq<LabeledPolynomial>, comms: seq<LabeledCommitment>,
                        states: seq<Randomness>) {
    && |ps| == |comms| == |states|
    && forall i :: 0 <= i < |ps| ==> OneOk(ck, td, ps[i], comms[i], states[i])
  }

  /** Under honest keys everything that commit returns is in order. */
  lemma CommitAllOk(ck: CommitterKey, vk: MarlinPC.VerifierKey, td: Trapdoor, ps: seq<LabeledPolynomial>,
                    coins: seq<(seq<Fp>, seq<Fp>)>, comms: seq<LabeledCommitment>, states: seq<Randomness>)
    requires HonestKeys(ck, vk, td) && CommittedAll(ck, ps, coins, comms, states)
    ensures AllOk(ck, td, ps, comms, states)
  {
    forall i | 0 <= i < |ps| ensures OneOk(ck, td, ps[i], comms[i], states[i]) {
      CommitOneOk(ck, vk, td, ps[i], coins[i].0, coins[i].1, comms[i], states[i]);
    }
  }

  function RandValues(states: seq<Randomness>, x: Fp): (r: seq<Fp>)
    ensures |r| == |states| && forall i :: 0 <= i < |r| ==> r[i] == Eval(states[i].rand, x)
  {
    seq(|states|, i requires 0 <= i < |states| => Eval(states[i].rand, x))
  }

  function ShiftedRandValues(states: seq<Randomness>, x: Fp): (r: seq<Fp>)
    ensures |r| == |states|
    ensures forall i :: 0 <= i < |r| ==>
              r[i] == if states[i].shiftedRand.Some? then Eval(states[i].shiftedRand.value, x) else 0
  {
    seq(|states|, i requires 0 <= i < |states| =>
      if states[i].shiftedRand.Some? then Eval(states[i].shiftedRand.value, x) else 0)
  }

  /** Values of bounded polynomials with their second challenges. */
  function SecondSum(bounded: seq<bool>, values: seq<Fp>, xi: Squeezes, n: nat): Fp
    requires n <= |bounded| == |values|
  {
    if n == 0 then 0
    else if !bounded[n - 1] then SecondSum(bounded, values, xi, n - 1)
    else Add(SecondSum(bounded, values, xi, n - 1), Mul(values[n - 1], xi(Position(bounded, n - 1) + 1)))
  }

  /** The same with the power of beta that the bound shifts by. */
  function ShiftSum(ps: seq<LabeledPolynomial>, values: seq<Fp>, xi: Squeezes, td: Trapdoor, maxDegree: nat, n: nat): Fp
    requires n <= |ps| == |values|
  {
    if n == 0 then 0
    else if ps[n - 1].degreeBound.None? then ShiftSum(ps, values, xi, td, maxDegree, n - 1)
    else Add(ShiftSum(ps, values, xi, td, maxDegree, n - 1),
             Mul(Mul(Shift(td, maxDegree, ps[n - 1].degreeBound.value), values[n - 1]),
                 xi(Position(Bounded(ps), n - 1) + 1)))
  }

  // ----- the combined commitment

  lemma SameBounds(ck: CommitterKey, td: Trapdoor, ps: seq<LabeledPolynomial>, comms: seq<LabeledCommitment>,
                   states: seq<Randomness>)
    requires AllOk(ck, td, ps, comms, states)
    ensures BoundedComms(comms) == Bounded(ps)
  {
    forall i | 0 <= i < |ps| ensures BoundedComms(comms)[i] == Bounded(ps)[i] {
      assert OneOk(ck, td, ps[i], comms[i], states[i]);
    }
  }

  /** What the combined commitment of n polynomials is: with e the shifted values claimed, a1 the
      values and a2 the shifted values at beta, r1 and r2 the blinding values at beta. */
  ghost predicate CommIs(comm: Option<Fp>, e: Fp, td: Trapdoor, a1: Fp, a2: Fp, r1: Fp, r2: Fp) {
    comm.Some? && Add(comm.value, e) == Add(Add(Mul(td.g, a1), a2), Mul(td.gammaG, Add(r1, r2)))
  }

  /** What the combined commitment of the first n polynomials is. */
  ghost predicate CombinedTo(ck: CommitterKey, vk: MarlinPC.VerifierKey, td: Trapdoor, ps: seq<LabeledPolynomial>,
                             comms: seq<LabeledCommitment>, states: seq<Randomness>, values: seq<Fp>, xi: Squeezes,
                             n: nat)
    requires n <= |ps| == |comms| == |states| == |values|
  {
    CommIs(CombinedComm(vk, comms, values, xi, n), ShiftSum(ps, values, xi, td, ck.maxDegree, n), td,
           CombinedValue(Bounded(ps), Values(ps, td.beta), xi, n),
           ShiftSum(ps, Values(ps, td.beta), xi, td, ck.maxDegree, n),
           CombinedValue(Bounded(ps), RandValues(states, td.beta), xi, n),
           SecondSum(Bounded(ps), ShiftedRandValues(states, td.beta), xi, n))
  }

  lemma {:induction false} CombinedCommValue(ck: CommitterKey, vk: MarlinPC.VerifierKey, td: Trapdoor,
                                             ps: seq<LabeledPolynomial>, comms: seq<LabeledCommitment>,
                                             states: seq<Randomness>, values: seq<Fp>, xi: Squeezes, n: nat)
    requires HonestKeys(ck, vk, td) && AllOk(ck, td, ps, comms, states) && n <= |ps| == |values|
    ensures CombinedTo(ck, vk, td, ps, comms, states, values, xi, n)
  {
    if n == 0 {
      Units(td.g);
      Units(td.gammaG);
      Units(0);
    } else {
      CombinedCommValue(ck, vk, td, ps, comms, states, values, xi, n - 1);
      SameBounds(ck, td, ps, comms, states);
      assert OneOk(ck, td, ps[n - 1], comms[n - 1], states[n - 1]);
      CombinedNext(ck, vk, td, ps, comms, states, values, xi, n);
    }
  }

  lemma {:induction false} CombinedNext(ck: CommitterKey, vk: MarlinPC.VerifierKey, td: Trapdoor,
                                        ps: seq<LabeledPolynomial>, comms: seq<LabeledCommitment>,
                                        states: seq<Randomness>, values: seq<Fp>, xi: Squeezes, n: nat)
    requires HonestKeys(ck, vk, td) && 0 < n <= |ps| == |comms| == |states| == |values|
    requires BoundedComms(comms) == Bounded(ps) && OneOk(ck, td, ps[n - 1], comms[n - 1], states[n - 1])
    requires CombinedTo(ck, vk, td, ps, comms, states, values, xi, n - 1)
    ensures CombinedTo(ck, vk, td, ps, comms, states, values, xi, n)
  {
    var b, k := Bounded(ps), Position(Bounded(ps), n - 1);
    CommStep(ck, vk, td, ps[n - 1], comms[n - 1], states[n - 1], CombinedComm(vk, comms, values, xi, n - 1).value,
             ShiftSum(ps, values, xi, td, ck.maxDegree, n - 1), CombinedValue(b, Values(ps, td.beta), xi, n - 1),
             ShiftSum(ps, Values(ps, td.beta), xi, td, ck.maxDegree, n - 1),
             CombinedValue(b, RandValues(states, td.beta), xi, n - 1),
             SecondSum(b, ShiftedRandValues(states, td.beta), xi, n - 1), values[n - 1], xi(k), xi(k + 1));
  }

  lemma CommStep(ck: CommitterKey, vk: MarlinPC.VerifierKey, td: Trapdoor, p: LabeledPolynomial, c: LabeledCommitment,
                 st: Randomness, sum: Fp, e: Fp, a1: Fp, a2: Fp, r1: Fp, r2: Fp, v: Fp, x: Fp, y: Fp)
    requires HonestKeys(ck, vk, td) && OneOk(ck, td, p, c, st) && CommIs(Some(sum), e, td, a1, a2, r1, r2)
    ensures var next := AddCommitment(vk, sum, c, v, x, y);
            var pv, rv := Eval(p.polynomial, td.beta), Eval(st.rand, td.beta);
            var a1', r1' := Add(a1, Mul(pv, x)), Add(r1, Mul(rv, x));
            && (p.degreeBound.None? ==> CommIs(next, e, td, a1', a2, r1', r2))
            && (p.degreeBound.Some? ==>
                  var shift := Shift(td, ck.maxDegree, p.degreeBound.value);
                  CommIs(next, Add(e, Mul(Mul(shift, v), y)), td, a1', Add(a2, Mul(Mul(shift, pv), y)), r1',
                         Add(r2, Mul(Eval(st.shiftedRand.value, td.beta), y))))
  {
    var pv, rv := Eval(p.polynomial, td.beta), Eval(st.rand, td.beta);
    AddPlain(sum, e, td.g, td.gammaG, a1, a2, r1, r2, pv, rv, x);
    if p.degreeBound.Some? {
      assert HonestShifts(ck, vk, td);
      AddShifted(Add(sum, Mul(c.commitment.comm, x)), e, Mul(td.g, Add(a1, Mul(pv, x))), a2, td.gammaG,
                 Add(r1, Mul(rv, x)), r2, Shift(td, ck.maxDegree, p.degreeBound.value), pv,
                 Eval(st.shiftedRand.value, td.beta), v, y);
    }
  }

  lemma AddPlain(sum: Fp, e: Fp, g: Fp, gamma: Fp, a1: Fp, a2: Fp, r1: Fp, r2: Fp, p: Fp, r: Fp, x: Fp)
    requires Add(sum, e) == Add(Add(Mul(g, a1), a2), Mul(gamma, Add(r1, r2)))
    ensures Add(Add(sum, Mul(Add(Mul(g, p), Mul(gamma, r)), x)), e)
            == Add(Add(Mul(g, Add(a1, Mul(p, x))), a2), Mul(gamma, Add(Add(r1, Mul(r, x)), r2)))
  {
    var gp, gr := Mul(g, Mul(p, x)), Mul(gamma, Mul(r, x));
    assert Mul(Add(Mul(g, p), Mul(gamma, r)), x) == Add(gp, gr) by { RingLaws(); }
    Distributes(g, a1, Mul(p, x));
    assert Mul(gamma, Add(Add(r1, Mul(r, x)), r2)) == Add(Mul(gamma, Add(r1, r2)), gr) by {
      assert Add(Add(r1, Mul(r, x)), r2) == Add(Add(r1, r2), Mul(r, x)) by { RingLaws(); }
      Distributes(gamma, Add(r1, r2), Mul(r, x));
    }
    Shuffle(sum, e, Mul(g, a1), a2, Mul(gamma, Add(r1, r2)), gp, gr);
  }

  lemma Shuffle(sum: Fp, e: Fp, a: Fp, b: Fp, c: Fp, u: Fp, v: Fp)
    requires Add(sum, e) == Add(Add(a, b), c)
    ensures Add(Add(sum, Add(u, v)), e) == Add(Add(Add(a, u), b), Add(c, v))
  {
    assert Add(Add(sum, Add(u, v)), e) == Add(Add(sum, e), Add(u, v)) by { RingLaws(); }
    assert Add(Add(Add(a, b), c), Add(u, v)) == Add(Add(Add(a, u), b), Add(c, v)) by { RingLaws(); }
  }

  lemma AddShifted(sum: Fp, e: Fp, a: Fp, a2: Fp, gamma: Fp, r1: Fp, r2: Fp, shift: Fp, p: Fp, s: Fp, v: Fp, y: Fp)
    requires Add(sum, e) == Add(Add(a, a2), Mul(gamma, Add(r1, r2)))
    ensures Add(Add(sum, Mul(Sub(Add(Mul(shift, p), Mul(gamma, s)), Mul(shift, v)), y)), Add(e, Mul(Mul(shift, v), y)))
            == Add(Add(a, Add(a2, Mul(Mul(shift, p), y))), Mul(gamma, Add(r1, Add(r2, Mul(s, y)))))
  {
    var sp, sv, gs := Mul(Mul(shift, p), y), Mul(Mul(shift, v), y), Mul(gamma, Mul(s, y));
    assert Add(Mul(Sub(Add(Mul(shift, p), Mul(gamma, s)), Mul(shift, v)), y), sv) == Add(sp, gs) by {
      AdjustedTerm(Mul(shift, p), gamma, s, Mul(shift, v), y);
    }
    assert Mul(gamma, Add(r1, Add(r2, Mul(s, y)))) == Add(Mul(gamma, Add(r1, r2)), gs) by {
      AddAssociates(r1, r2, Mul(s, y));
      Distributes(gamma, Add(r1, r2), Mul(s, y));
    }
    ShuffleShifted(sum, e, a, a2, Mul(gamma, Add(r1, r2)),
                   Mul(Sub(Add(Mul(shift, p), Mul(gamma, s)), Mul(shift, v)), y), sv, sp, gs);
  }

  lemma AdjustedTerm(sp: Fp, gamma: Fp, s: Fp, sv: Fp, y: Fp)
    ensures Add(Mul(Sub(Add(sp, Mul(gamma, s)), sv), y), Mul(sv, y)) == Add(Mul(sp, y), Mul(gamma, Mul(s, y)))
  {
    var t := Add(sp, Mul(gamma, s));
    assert Add(Mul(Sub(t, sv), y), Mul(sv, y)) == Mul(t, y) by {
      SubIff(t, sv, Sub(t, sv));
      Commutes(Sub(t, sv), y);
      Commutes(sv, y);
      Commutes(t, y);
      Distributes(y, sv, Sub(t, sv));
      Commutes(Mul(y, Sub(t, sv)), Mul(y, sv));
    }
    assert Mul(t, y) == Add(Mul(sp, y), Mul(gamma, Mul(s, y))) by { RingLaws(); }
  }

  lemma ShuffleShifted(sum: Fp, e: Fp, a: Fp, a2: Fp, c: Fp, m: Fp, sv: Fp, sp: Fp, gs: Fp)
    requires Add(sum, e) == Add(Add(a, a2), c) && Add(m, sv) == Add(sp, gs)
    ensures Add(Add(sum, m), Add(e, sv)) == Add(Add(a, Add(a2, sp)), Add(c, gs))
  {
    assert Add(Add(sum, m), Add(e, sv)) == Add(Add(sum, e), Add(m, sv)) by { RingLaws(); }
    assert Add(Add(Add(a, a2), c), Add(sp, gs)) == Add(Add(a, Add(a2, sp)), Add(c, gs)) by { RingLaws(); }
  }

  // ----- what open accumulates

  lemma BelowPlus(f: seq<Fp>, c: Fp, g: seq<Fp>, n: nat)
    requires Below(f, n) && Below(g, n)
    ensures Below(Plus(f, Scale(c, g)), n)
  {
    forall k: nat | k >= n ensures Coef(Plus(f, Scale(c, g)), k) == 0 {
      CoefPlus(f, Scale(c, g), k);
      CoefScale(c, g, k);
      Units(c);
      Units(0);
    }
  }

  lemma BelowWitness(f: seq<Fp>, z: Fp, n: nat)
    requires n >= 1 && Below(f, n)
    ensures Below(StreamingKzg.Witness(f, z), if n == 1 then 1 else n - 1)
  {
    BelowDegree(f, n);
    WitnessDegree(f, z);
    BelowDegree(StreamingKzg.Witness(f, z), if n == 1 then 1 else n - 1);
  }

  lemma BelowShift(f: seq<Fp>, k: nat, n: nat)
    requires Below(f, n)
    ensures Below(Zeros(k) + f, k + n)
  {
    forall j: nat | j >= k + n ensures Coef(Zeros(k) + f, j) == 0 {
      assert Coef(f, j - k) == 0;
    }
  }

  lemma BelowMore(f: seq<Fp>, n: nat, m: nat)
    requires Below(f, n) && n <= m
    ensures Below(f, m)
  {
  }

  /** The degrees of everything accumulated stay within the keys. */
  ghost predicate Fits(ck: CommitterKey, acc: Accumulated) {
    && Below(acc.p, |ck.powers|) && Below(acc.r, |ck.powersOfGammaG|) && Below(acc.shiftedRWitness, |ck.powersOfGammaG|)
    && (acc.enforce ==> ck.shiftedPowers.Some? && Below(acc.shiftedW, |ck.shiftedPowers.value|))
    && (!acc.enforce ==> acc.shiftedW == [] && acc.shiftedR == [] && acc.shiftedRWitness == [])
  }

  /** The shifted witness and the blinding witness, times beta - z, are differences of values:
      w2 and s2 at beta, w0 and s0 at z; scale is the power the shifted key starts with. */
  ghost predicate WitnessesOk(acc: Accumulated, td: Trapdoor, z: Fp, scale: Fp, a2: Fp, a0: Fp, s2: Fp, s0: Fp) {
    && Mul(Mul(scale, Eval(acc.shiftedW, td.beta)), Sub(td.beta, z)) == Sub(a2, a0)
    && Mul(Eval(acc.shiftedRWitness, td.beta), Sub(td.beta, z)) == Sub(s2, s0)
  }

  /** What the shifted key starts with. */
  function KeyScale(ck: CommitterKey, td: Trapdoor): Fp {
    if ck.bounds.Some? && ck.bounds.value != [] then Shift(td, ck.maxDegree, Largest(ck.bounds.value)) else 0
  }

  lemma ShiftedWitness(ck: CommitterKey, vk: MarlinPC.VerifierKey, td: Trapdoor, f: seq<Fp>, d: nat, z: Fp)
    requires HonestKeys(ck, vk, td) && ck.bounds.Some? && d in ck.bounds.value && Below(f, d + 1)
    ensures var w := ShiftPolynomial(ck, StreamingKzg.Witness(f, z), d);
            && w.Some? && Below(w.value, Largest(ck.bounds.value) + 1)
            && Mul(Mul(KeyScale(ck, td), Eval(w.value, td.beta)), Sub(td.beta, z))
               == Mul(Shift(td, ck.maxDegree, d), Sub(Eval(f, td.beta), Eval(f, z)))
  {
    assert HonestShifts(ck, vk, td);
    var l, w := Largest(ck.bounds.value), StreamingKzg.Witness(f, z);
    StreamingKzg.WitnessCorrect(f, z, td.beta);
    if IsZero(w) {
      forall k: nat ensures Coef(w, k) == Coef([], k) {
      }
      EvalZero(w, td.beta);
      Units(Sub(td.beta, z));
      Units(KeyScale(ck, td));
      Units(Shift(td, ck.maxDegree, d));
    } else {
      BelowWitness(f, z, d + 1);
      BelowMore(w, if d == 0 then 1 else d, d + 1);
      BelowShift(w, l - d, d + 1);
      ShiftedEval(td, ck.maxDegree, l, d, w, Sub(td.beta, z));
    }
  }

  lemma ShiftedEval(td: Trapdoor, maxDegree: nat, l: nat, d: nat, w: seq<Fp>, diff: Fp)
    requires d <= l <= maxDegree
    ensures Mul(Mul(Shift(td, maxDegree, l), Eval(Zeros(l - d) + w, td.beta)), diff)
            == Mul(Shift(td, maxDegree, d), Mul(diff, Eval(w, td.beta)))
  {
    var e := Eval(w, td.beta);
    var lo, hi := Pow(td.beta, maxDegree - l), Pow(td.beta, l - d);
    EvalShifted(w, l - d, td.beta);
    PowAdd(td.beta, maxDegree - l, l - d);
    RegroupShift(td.g, lo, hi, e, diff);
  }

  lemma RegroupShift(g: Fp, lo: Fp, hi: Fp, e: Fp, diff: Fp)
    ensures Mul(Mul(Mul(g, lo), Mul(hi, e)), diff) == Mul(Mul(g, Mul(lo, hi)), Mul(diff, e))
  {
    RingLaws();
  }

  /** One more term on both sides of a difference of sums. */
  lemma DifferenceStep(scale: Fp, e: Fp, diff: Fp, a: Fp, b: Fp, w: Fp, y: Fp, u: Fp, v: Fp)
    requires Mul(Mul(scale, e), diff) == Sub(a, b) && Mul(Mul(scale, w), diff) == Sub(u, v)
    ensures Mul(Mul(scale, Add(e, Mul(w, y))), diff) == Sub(Add(a, Mul(u, y)), Add(b, Mul(v, y)))
  {
    assert Mul(Mul(scale, Add(e, Mul(w, y))), diff) == Add(Mul(Mul(scale, e), diff),
                                                           Mul(y, Mul(Mul(scale, w), diff))) by {
      assert Mul(scale, Add(e, Mul(w, y))) == Add(Mul(scale, e), Mul(y, Mul(scale, w))) by { RingLaws(); }
      assert Mul(Add(Mul(scale, e), Mul(y, Mul(scale, w))), diff)
          == Add(Mul(Mul(scale, e), diff), Mul(y, Mul(Mul(scale, w), diff))) by { RingLaws(); }
    }
    SubSum(a, b, u, v, y);
  }

  lemma SubSum(a: Fp, b: Fp, u: Fp, v: Fp, y: Fp)
    ensures Add(Sub(a, b), Mul(y, Sub(u, v))) == Sub(Add(a, Mul(u, y)), Add(b, Mul(v, y)))
  {
    KzgVerifier.FactorOut(y, u, v);
    Commutes(y, u);
    Commutes(y, v);
    NegDistributes(b, Mul(v, y));
    assert Add(Add(a, Neg(b)), Add(Mul(u, y), Neg(Mul(v, y)))) == Add(Add(a, Mul(u, y)),
                                                                      Add(Neg(b), Neg(Mul(v, y)))) by {
      RingLaws();
    }
  }

  lemma AddBounded(ck: CommitterKey, vk: MarlinPC.VerifierKey, td: Trapdoor, p: LabeledPolynomial, st: Randomness,
                   c: LabeledCommitment, acc: Accumulated, z: Fp, x: Fp, y: Fp, a2: Fp, a0: Fp, s2: Fp, s0: Fp)
    requires HonestKeys(ck, vk, td) && OneOk(ck, td, p, c, st) && p.degreeBound.Some?
    requires AccumulatedOk(Some(acc), ck, td, z, a2, a0, s2, s0)
    ensures AccumulatedOk(AddPolynomial(ck, acc, p, st, z, x, y), ck, td, z,
                          Add(a2,
                              Mul(Mul(Shift(td, ck.maxDegree, p.degreeBound.value), Eval(p.polynomial, td.beta)), y)),
                          Add(a0, Mul(Mul(Shift(td, ck.maxDegree, p.degreeBound.value), Eval(p.polynomial, z)), y)),
                          Add(s2, Mul(Eval(st.shiftedRand.value, td.beta), y)),
                          Add(s0, Mul(Eval(st.shiftedRand.value, z), y)))
  {
    var d, s, diff := p.degreeBound.value, st.shiftedRand.value, Sub(td.beta, z);
    var shift := Shift(td, ck.maxDegree, d);
    ShiftedWitness(ck, vk, td, p.polynomial, d, z);
    var w := ShiftPolynomial(ck, StreamingKzg.Witness(p.polynomial, z), d).value;
    BelowPlus(acc.p, x, p.polynomial, |ck.powers|);
    BelowPlus(acc.r, x, st.rand, |ck.powersOfGammaG|);
    assert HonestShifts(ck, vk, td);
    EmptyBelow(|ck.shiftedPowers.value|);
    BelowPlus(acc.shiftedW, y, w, |ck.shiftedPowers.value|);
    EvalAdded(acc.shiftedW, y, w, td.beta);
    KzgVerifier.FactorOut(shift, Eval(p.polynomial, td.beta), Eval(p.polynomial, z));
    DifferenceStep(KeyScale(ck, td), Eval(acc.shiftedW, td.beta), diff, a2, a0, Eval(w, td.beta), y,
                   Mul(shift, Eval(p.polynomial, td.beta)), Mul(shift, Eval(p.polynomial, z)));
    BlindingStep(acc.shiftedRWitness, s, td, z, y, |ck.powersOfGammaG|, s2, s0);
  }

  lemma EmptyBelow(n: nat)
    ensures Below([], n)
  {
  }

  lemma BlindingStep(rw: seq<Fp>, s: seq<Fp>, td: Trapdoor, z: Fp, y: Fp, n: nat, s2: Fp, s0: Fp)
    requires n >= 1 && Below(rw, n) && Below(s, n) && Mul(Eval(rw, td.beta), Sub(td.beta, z)) == Sub(s2, s0)
    ensures var rw' := if IsZero(s) then rw else Plus(rw, Scale(y, StreamingKzg.Witness(s, z)));
            && Below(rw', n)
            && Mul(Eval(rw', td.beta), Sub(td.beta, z))
               == Sub(Add(s2, Mul(Eval(s, td.beta), y)), Add(s0, Mul(Eval(s, z), y)))
  {
    if IsZero(s) {
      ZeroEvaluates(s, td.beta);
      ZeroEvaluates(s, z);
      Units(y);
      Units(s2);
      Units(s0);
    } else {
      var w, d := StreamingKzg.Witness(s, z), Sub(td.beta, z);
      BelowWitness(s, z, n);
      BelowMore(w, if n == 1 then 1 else n - 1, n);
      BelowPlus(rw, y, w, n);
      EvalAdded(rw, y, w, td.beta);
      StreamingKzg.WitnessCorrect(s, z, td.beta);
      Units(Eval(rw, td.beta));
      Units(Eval(w, td.beta));
      Units(Add(Eval(rw, td.beta), Mul(Eval(w, td.beta), y)));
      Commutes(d, Eval(w, td.beta));
      DifferenceStep(1, Eval(rw, td.beta), d, s2, s0, Eval(w, td.beta), y, Eval(s, td.beta), Eval(s, z));
    }
  }

  /** What holds of the accumulation over n polynomials. */
  ghost predicate AccumulatedOk(acc: Option<Accumulated>, ck: CommitterKey, td: Trapdoor, z: Fp, a2: Fp, a0: Fp, s2: Fp,
                                s0: Fp) {
    acc.Some? && Fits(ck, acc.value) && WitnessesOk(acc.value, td, z, KeyScale(ck, td), a2, a0, s2, s0)
  }

  lemma AddUnbounded(ck: CommitterKey, td: Trapdoor, p: LabeledPolynomial, st: Randomness, c: LabeledCommitment,
                     acc: Accumulated, z: Fp, x: Fp, y: Fp, a2: Fp, a0: Fp, s2: Fp, s0: Fp)
    requires OneOk(ck, td, p, c, st) && p.degreeBound.None?
    requires AccumulatedOk(Some(acc), ck, td, z, a2, a0, s2, s0)
    ensures AccumulatedOk(AddPolynomial(ck, acc, p, st, z, x, y), ck, td, z, a2, a0, s2, s0)
  {
    BelowPlus(acc.p, x, p.polynomial, |ck.powers|);
    BelowPlus(acc.r, x, st.rand, |ck.powersOfGammaG|);
  }

  /** The shifted values and shifted blinding values of the first n polynomials. */
  function Shifted(ps: seq<LabeledPolynomial>, x: Fp, xi: Squeezes, td: Trapdoor, maxDegree: nat, n: nat): Fp
    requires n <= |ps|
  {
    if n == 0 then 0
    else if ps[n - 1].degreeBound.None? then Shifted(ps, x, xi, td, maxDegree, n - 1)
    else Add(Shifted(ps, x, xi, td, maxDegree, n - 1),
             Mul(Mul(Shift(td, maxDegree, ps[n - 1].degreeBound.value), Eval(ps[n - 1].polynomial, x)),
                 xi(Position(Bounded(ps), n - 1) + 1)))
  }

  lemma {:induction false} ShiftedIsShiftSum(ps: seq<LabeledPolynomial>, x: Fp, xi: Squeezes, td: Trapdoor,
                                             maxDegree: nat, n: nat)
    requires n <= |ps|
    ensures Shifted(ps, x, xi, td, maxDegree, n) == ShiftSum(ps, Values(ps, x), xi, td, maxDegree, n)
  {
    if n > 0 { ShiftedIsShiftSum(ps, x, xi, td, maxDegree, n - 1); }
  }

  /** What holds of the accumulation over the first n polynomials: the witnesses are differences
      of the shifted values and of the shifted blinding values. */
  ghost predicate AccumulatedTo(ck: CommitterKey, td: Trapdoor, ps: seq<LabeledPolynomial>, states: seq<Randomness>,
                                z: Fp, xi: Squeezes, n: nat)
    requires n <= |ps| == |states|
  {
    AccumulatedOk(Accumulate(ck, ps, states, z, xi, n), ck, td, z,
                  Shifted(ps, td.beta, xi, td, ck.maxDegree, n), Shifted(ps, z, xi, td, ck.maxDegree, n),
                  SecondSum(Bounded(ps), ShiftedRandValues(states, td.beta), xi, n),
                  SecondSum(Bounded(ps), ShiftedRandValues(states, z), xi, n))
  }

  /** For committed polynomials the accumulation never panics and keeps everything in range. */
  lemma {:induction false} AccumulateOk(ck: CommitterKey, vk: MarlinPC.VerifierKey, td: Trapdoor,
                                        ps: seq<LabeledPolynomial>, comms: seq<LabeledCommitment>,
                                        states: seq<Randomness>, z: Fp, xi: Squeezes, n: nat)
    requires HonestKeys(ck, vk, td) && AllOk(ck, td, ps, comms, states) && n <= |ps|
    ensures AccumulatedTo(ck, td, ps, states, z, xi, n)
  {
    if n == 0 {
      NothingAccumulated(ck, td, z);
    } else {
      AccumulateOk(ck, vk, td, ps, comms, states, z, xi, n - 1);
      assert OneOk(ck, td, ps[n - 1], comms[n - 1], states[n - 1]);
      AccumulateNext(ck, vk, td, ps, states, comms[n - 1], z, xi, n);
    }
  }

  lemma {:induction false} AccumulateNext(ck: CommitterKey, vk: MarlinPC.VerifierKey, td: Trapdoor,
                                          ps: seq<LabeledPolynomial>, states: seq<Randomness>, c: LabeledCommitment,
                                          z: Fp, xi: Squeezes, n: nat)
    requires HonestKeys(ck, vk, td) && 0 < n <= |ps| == |states| && OneOk(ck, td, ps[n - 1], c, states[n - 1])
    requires AccumulatedTo(ck, td, ps, states, z, xi, n - 1)
    ensures AccumulatedTo(ck, td, ps, states, z, xi, n)
  {
    if ps[n - 1].degreeBound.None? {
      NextUnbounded(ck, td, ps, states, c, z, xi, n, Accumulate(ck, ps, states, z, xi, n - 1).value);
    } else {
      NextBounded(ck, vk, td, ps, states, c, z, xi, n, Accumulate(ck, ps, states, z, xi, n - 1).value);
    }
  }

  lemma {:induction false} NextUnbounded(ck: CommitterKey, td: Trapdoor, ps: seq<LabeledPolynomial>,
                                         states: seq<Randomness>, c: LabeledCommitment, z: Fp, xi: Squeezes, n: nat,
                                         acc: Accumulated)
    requires 0 < n <= |ps| == |states| && OneOk(ck, td, ps[n - 1], c, states[n - 1]) && ps[n - 1].degreeBound.None?
    requires AccumulatedTo(ck, td, ps, states, z, xi, n - 1) && Accumulate(ck, ps, states, z, xi, n - 1) == Some(acc)
    ensures AccumulatedTo(ck, td, ps, states, z, xi, n)
  {
    var k := Position(Bounded(ps), n - 1);
    AddUnbounded(ck, td, ps[n - 1], states[n - 1], c, acc, z, xi(k), xi(k + 1),
                 Shifted(ps, td.beta, xi, td, ck.maxDegree, n - 1), Shifted(ps, z, xi, td, ck.maxDegree, n - 1),
                 SecondSum(Bounded(ps), ShiftedRandValues(states, td.beta), xi, n - 1),
                 SecondSum(Bounded(ps), ShiftedRandValues(states, z), xi, n - 1));
  }

  lemma {:induction false} NextBounded(ck: CommitterKey, vk: MarlinPC.VerifierKey, td: Trapdoor,
                                       ps: seq<LabeledPolynomial>, states: seq<Randomness>, c: LabeledCommitment, z: Fp,
                                       xi: Squeezes, n: nat, acc: Accumulated)
    requires HonestKeys(ck, vk, td) && 0 < n <= |ps| == |states| && OneOk(ck, td, ps[n - 1], c, states[n - 1])
    requires ps[n - 1].degreeBound.Some?
    requires AccumulatedTo(ck, td, ps, states, z, xi, n - 1) && Accumulate(ck, ps, states, z, xi, n - 1) == Some(acc)
    ensures AccumulatedTo(ck, td, ps, states, z, xi, n)
  {
    var k := Position(Bounded(ps), n - 1);
    AddBounded(ck, vk, td, ps[n - 1], states[n - 1], c, acc, z, xi(k), xi(k + 1),
               Shifted(ps, td.beta, xi, td, ck.maxDegree, n - 1), Shifted(ps, z, xi, td, ck.maxDegree, n - 1),
               SecondSum(Bounded(ps), ShiftedRandValues(states, td.beta), xi, n - 1),
               SecondSum(Bounded(ps), ShiftedRandValues(states, z), xi, n - 1));
    BoundedAdded(ck, td, ps, states, z, xi, n, acc, xi(k), xi(k + 1));
  }

  /** The sums over n polynomials when the last one has a bound. */
  lemma {:induction false} BoundedAdded(ck: CommitterKey, td: Trapdoor, ps: seq<LabeledPolynomial>,
                                        states: seq<Randomness>, z: Fp, xi: Squeezes, n: nat, acc: Accumulated, x: Fp,
                                        y: Fp)
    requires 0 < n <= |ps| == |states| && ps[n - 1].degreeBound.Some? && states[n - 1].shiftedRand.Some?
    requires Accumulate(ck, ps, states, z, xi, n - 1) == Some(acc)
    requires x == xi(Position(Bounded(ps), n - 1)) && y == xi(Position(Bounded(ps), n - 1) + 1)
    requires var p, s := ps[n - 1], states[n - 1].shiftedRand.value;
             var shift := Shift(td, ck.maxDegree, p.degreeBound.value);
             AccumulatedOk(AddPolynomial(ck, acc, p, states[n - 1], z, x, y), ck, td, z,
               Add(Shifted(ps, td.beta, xi, td, ck.maxDegree, n - 1), Mul(Mul(shift, Eval(p.polynomial, td.beta)), y)),
               Add(Shifted(ps, z, xi, td, ck.maxDegree, n - 1), Mul(Mul(shift, Eval(p.polynomial, z)), y)),
               Add(SecondSum(Bounded(ps), ShiftedRandValues(states, td.beta), xi, n - 1), Mul(Eval(s, td.beta), y)),
               Add(SecondSum(Bounded(ps), ShiftedRandValues(states, z), xi, n - 1), Mul(Eval(s, z), y)))
    ensures AccumulatedTo(ck, td, ps, states, z, xi, n)
  {
    OneMoreAdded(ck, ps, states, z, xi, n, acc, x, y);
    SumsOfBounded(ps, states, td.beta, xi, td, ck.maxDegree, n, y);
    SumsOfBounded(ps, states, z, xi, td, ck.maxDegree, n, y);
  }

  lemma {:induction false} OneMoreAdded(ck: CommitterKey, ps: seq<LabeledPolynomial>, states: seq<Randomness>, z: Fp,
                                        xi: Squeezes, n: nat, acc: Accumulated, x: Fp, y: Fp)
    requires 0 < n <= |ps| == |states| && Accumulate(ck, ps, states, z, xi, n - 1) == Some(acc)
    requires x == xi(Position(Bounded(ps), n - 1)) && y == xi(Position(Bounded(ps), n - 1) + 1)
    ensures Accumulate(ck, ps, states, z, xi, n) == AddPolynomial(ck, acc, ps[n - 1], states[n - 1], z, x, y)
  {
  }

  lemma {:induction false} SumsOfBounded(ps: seq<LabeledPolynomial>, states: seq<Randomness>, x: Fp, xi: Squeezes,
                                         td: Trapdoor, maxDegree: nat, n: nat, y: Fp)
    requires 0 < n <= |ps| == |states| && ps[n - 1].degreeBound.Some? && states[n - 1].shiftedRand.Some?
    requires y == xi(Position(Bounded(ps), n - 1) + 1)
    ensures Shifted(ps, x, xi, td, maxDegree, n)
            == Add(Shifted(ps, x, xi, td, maxDegree, n - 1),
                   Mul(Mul(Shift(td, maxDegree, ps[n - 1].degreeBound.value), Eval(ps[n - 1].polynomial, x)), y))
    ensures SecondSum(Bounded(ps), ShiftedRandValues(states, x), xi, n)
            == Add(SecondSum(Bounded(ps), ShiftedRandValues(states, x), xi, n - 1),
                   Mul(Eval(states[n - 1].shiftedRand.value, x), y))
  {
  }

  lemma NothingAccumulated(ck: CommitterKey, td: Trapdoor, z: Fp)
    ensures AccumulatedOk(Some(Accumulated([], [], [], [], [], false)), ck, td, z, 0, 0, 0, 0)
  {
    EmptyBelow(0);
    SubZero(0, 0);
    Units(KeyScale(ck, td));
    Units(Sub(td.beta, z));
  }

  /** The values at x of what has been accumulated. */
  ghost predicate EvaluatesTo(acc: Accumulated, x: Fp, p: Fp, r: Fp, s: Fp) {
    Eval(acc.p, x) == p && Eval(acc.r, x) == r && Eval(acc.shiftedR, x) == s
  }

  lemma AddEvaluates(ck: CommitterKey, acc: Accumulated, p: LabeledPolynomial, st: Randomness, z: Fp, x: Fp, y: Fp,
                     at: Fp)
    requires AddPolynomial(ck, acc, p, st, z, x, y).Some?
    ensures EvaluatesTo(AddPolynomial(ck, acc, p, st, z, x, y).value, at,
                        Add(Eval(acc.p, at), Mul(Eval(p.polynomial, at), x)),
                        Add(Eval(acc.r, at), Mul(Eval(st.rand, at), x)),
                        if p.degreeBound.None? then Eval(acc.shiftedR, at)
                        else Add(Eval(acc.shiftedR, at), Mul(Eval(st.shiftedRand.value, at), y)))
  {
    EvalAdded(acc.p, x, p.polynomial, at);
    EvalAdded(acc.r, x, st.rand, at);
    if p.degreeBound.Some? { EvalAdded(acc.shiftedR, y, st.shiftedRand.value, at); }
  }

  /** The accumulated polynomials evaluate to the combined values. */
  lemma {:induction false} AccumulateEvaluates(ck: CommitterKey, ps: seq<LabeledPolynomial>, states: seq<Randomness>,
                                               z: Fp, xi: Squeezes, n: nat, x: Fp)
    requires n <= |ps| == |states| && Accumulate(ck, ps, states, z, xi, n).Some?
    ensures EvaluatesTo(Accumulate(ck, ps, states, z, xi, n).value, x,
                        CombinedValue(Bounded(ps), Values(ps, x), xi, n),
                        CombinedValue(Bounded(ps), RandValues(states, x), xi, n),
                        SecondSum(Bounded(ps), ShiftedRandValues(states, x), xi, n))
  {
    if n > 0 {
      AccumulateEvaluates(ck, ps, states, z, xi, n - 1, x);
      EvaluatesNext(ck, ps, states, z, xi, n, x, Accumulate(ck, ps, states, z, xi, n - 1).value);
    }
  }

  lemma {:induction false} EvaluatesNext(ck: CommitterKey, ps: seq<LabeledPolynomial>, states: seq<Randomness>, z: Fp,
                                         xi: Squeezes, n: nat, x: Fp, acc: Accumulated)
    requires 0 < n <= |ps| == |states| && Accumulate(ck, ps, states, z, xi, n).Some?
    requires Accumulate(ck, ps, states, z, xi, n - 1) == Some(acc)
    requires EvaluatesTo(acc, x, CombinedValue(Bounded(ps), Values(ps, x), xi, n - 1),
                         CombinedValue(Bounded(ps), RandValues(states, x), xi, n - 1),
                         SecondSum(Bounded(ps), ShiftedRandValues(states, x), xi, n - 1))
    ensures EvaluatesTo(Accumulate(ck, ps, states, z, xi, n).value, x,
                        CombinedValue(Bounded(ps), Values(ps, x), xi, n),
                        CombinedValue(Bounded(ps), RandValues(states, x), xi, n),
                        SecondSum(Bounded(ps), ShiftedRandValues(states, x), xi, n))
  {
    var k := Position(Bounded(ps), n - 1);
    OneMoreAdded(ck, ps, states, z, xi, n, acc, xi(k), xi(k + 1));
    AddEvaluates(ck, acc, ps[n - 1], states[n - 1], z, xi(k), xi(k + 1), x);
  }

  // ----- the pairing equation

  lemma Chain(x: Fp, y: Fp, z: Fp)
    ensures Add(z, Add(Sub(x, y), Sub(y, z))) == x
  {
    SubIff(y, z, Sub(y, z));
    SubIff(x, y, Sub(x, y));
    assert Add(z, Add(Sub(x, y), Sub(y, z))) == Add(Add(z, Sub(y, z)), Sub(x, y)) by { RingLaws(); }
  }

  lemma ScaledChain(g: Fp, x: Fp, y: Fp, z: Fp)
    ensures Add(Mul(g, z), Add(Mul(g, Sub(x, y)), Mul(g, Sub(y, z)))) == Mul(g, x)
  {
    Distributes(g, Sub(x, y), Sub(y, z));
    Distributes(g, z, Add(Sub(x, y), Sub(y, z)));
    Chain(x, y, z);
  }

  lemma BlindingChain(gamma: Fp, rb: Fp, rz: Fp, s2: Fp, s0: Fp, rv: Fp)
    ensures Add(Mul(gamma, rv), Add(Add(Mul(gamma, Sub(rb, rz)), Mul(gamma, Sub(s2, s0))),
                                    Mul(gamma, Sub(Add(rz, s0), rv)))) == Mul(gamma, Add(rb, s2))
  {
    Distributes(gamma, Sub(rb, rz), Sub(s2, s0));
    assert Add(Sub(rb, rz), Sub(s2, s0)) == Sub(Add(rb, s2), Add(rz, s0)) by {
      NegDistributes(rz, s0);
      assert Add(Add(rb, Neg(rz)), Add(s2, Neg(s0))) == Add(Add(rb, s2), Add(Neg(rz), Neg(s0))) by { RingLaws(); }
    }
    ScaledChain(gamma, Add(rb, s2), Add(rz, s0), rv);
  }

  lemma SevenSum(g1: Fp, r1: Fp, a1: Fp, s1: Fp, g2: Fp, a2: Fp, r2: Fp)
    ensures Add(Add(Add(g1, r1), Add(a1, s1)), Add(Add(g2, a2), r2))
            == Add(Add(Add(g1, g2), Add(a1, a2)), Add(Add(r1, s1), r2))
  {
    FourSum(g1, r1, a1, s1);
    FourSum(Add(g1, a1), Add(r1, s1), Add(g2, a2), r2);
    FourSum(g1, a1, g2, a2);
  }

  lemma FiveSum(v: Fp, w: Fp, g: Fp, a: Fp, r: Fp, e: Fp)
    ensures Add(Add(v, Add(w, Add(Add(g, a), r))), e) == Add(Add(Add(v, g), Add(e, a)), Add(w, r))
  {
    assert Add(w, Add(Add(g, a), r)) == Add(Add(g, a), Add(w, r)) by { RingLaws(); }
    assert Add(Add(v, Add(Add(g, a), Add(w, r))), e) == Add(Add(Add(v, g), Add(e, a)), Add(w, r)) by { RingLaws(); }
  }

  /** The excess: what is left of the combined commitment when value, blinding value and
      witness are taken away. */
  lemma ExcessAlgebra(c: Fp, e: Fp, g: Fp, gamma: Fp, pb: Fp, pz: Fp, a2: Fp, a0: Fp, rb: Fp, rz: Fp, s2: Fp, s0: Fp,
                      v: Fp, rv: Fp)
    requires Add(c, e) == Add(Add(Mul(g, pb), a2), Mul(gamma, Add(rb, s2)))
    ensures Sub(Sub(Sub(c, Mul(g, v)), Mul(gamma, rv)),
                Add(Add(Mul(g, Sub(pb, pz)), Mul(gamma, Sub(rb, rz))), Add(Sub(a2, a0), Mul(gamma, Sub(s2, s0)))))
            == Add(Add(Mul(g, Sub(pz, v)), Sub(a0, e)), Mul(gamma, Sub(Add(rz, s0), rv)))
  {
    var g1, r1, a1, s1 := Mul(g, Sub(pb, pz)), Mul(gamma, Sub(rb, rz)), Sub(a2, a0), Mul(gamma, Sub(s2, s0));
    var g2, e2, r2 := Mul(g, Sub(pz, v)), Sub(a0, e), Mul(gamma, Sub(Add(rz, s0), rv));
    var a, x, gv, rr := Add(Add(g1, r1), Add(a1, s1)), Add(Add(g2, e2), r2), Mul(g, v), Mul(gamma, rv);
    SevenSum(g1, r1, a1, s1, g2, e2, r2);
    FiveSum(gv, rr, Add(g1, g2), Add(a1, e2), Add(Add(r1, s1), r2), e);
    ScaledChain(g, pb, pz, v);
    Chain(a2, a0, e);
    BlindingChain(gamma, rb, rz, s2, s0, rv);
    var total := Add(gv, Add(rr, Add(a, x)));
    assert Add(total, e) == Add(c, e);
    Division.AddCancels(total, c, e);
    SubIff(c, gv, Add(rr, Add(a, x)));
    SubIff(Sub(c, gv), rr, Add(a, x));
    SubIff(Sub(Sub(c, gv), rr), a, x);
  }

  // ----- the exact outcome

  /** The blinding value that a proof without blinding leaves out. */
  function LostBlinding(acc: Accumulated, z: Fp): Fp {
    if IsZero(acc.r) then Eval(acc.shiftedR, z) else 0
  }

  /** The proof of open, and what it is worth times beta - z. */
  lemma FinishedValue(ck: CommitterKey, vk: MarlinPC.VerifierKey, td: Trapdoor, acc: Accumulated, z: Fp, a2: Fp, a0: Fp,
                      s2: Fp, s0: Fp)
    requires HonestKeys(ck, vk, td) && AccumulatedOk(Some(acc), ck, td, z, a2, a0, s2, s0)
    requires acc.enforce ==> ck.bounds.Some? && ck.bounds.value != []
    ensures var proof := FinishOpening(ck, acc, z);
            && proof.Some?
            && proof.value.randomV == (if IsZero(acc.r) then None else Some(Add(Eval(acc.r, z), Eval(acc.shiftedR, z))))
            && Mul(proof.value.w, Sub(td.beta, z))
               == Add(Add(Mul(td.g, Sub(Eval(acc.p, td.beta), Eval(acc.p, z))),
                          Mul(td.gammaG, Sub(Eval(acc.r, td.beta), Eval(acc.r, z)))),
                      Add(Sub(a2, a0), Mul(td.gammaG, Sub(s2, s0))))
  {
    var powers, diff := Powers(ck.powers, ck.powersOfGammaG), Sub(td.beta, z);
    DegreeBelow(acc.p, |ck.powers|);
    DegreeBelow(acc.r, |ck.powersOfGammaG|);
    OpenedValue(powers, td.g, td.gammaG, td.beta, acc.p, z, acc.r);
    var w1 := Opened(powers, acc.p, z, acc.r).value.w;
    if acc.enforce {
      ShiftedOpened(ck, vk, td, acc, z, w1, a2, a0, s2, s0);
    } else {
      Units(KeyScale(ck, td));
      Units(diff);
      Units(td.gammaG);
      Units(Eval(acc.r, z));
      Units(0);
      Units(Mul(w1, diff));
    }
  }

  lemma ShiftedOpened(ck: CommitterKey, vk: MarlinPC.VerifierKey, td: Trapdoor, acc: Accumulated, z: Fp, w: Fp, a2: Fp,
                      a0: Fp, s2: Fp, s0: Fp)
    requires HonestKeys(ck, vk, td) && AccumulatedOk(Some(acc), ck, td, z, a2, a0, s2, s0)
    requires acc.enforce && ck.bounds.Some? && ck.bounds.value != []
    ensures ck.shiftedPowers.Some?
    ensures var shifted := OpenedWith(Powers(ck.shiftedPowers.value, ck.powersOfGammaG), z, acc.shiftedR, acc.shiftedW,
                                      Some(acc.shiftedRWitness));
            && shifted.Some? && shifted.value.randomV == Some(Eval(acc.shiftedR, z))
            && Mul(Add(w, shifted.value.w), Sub(td.beta, z))
               == Add(Mul(w, Sub(td.beta, z)), Add(Sub(a2, a0), Mul(td.gammaG, Sub(s2, s0))))
  {
    assert HonestShifts(ck, vk, td);
    DegreeBelow(acc.shiftedW, |ck.shiftedPowers.value|);
    DegreeBelow(acc.shiftedRWitness, |ck.powersOfGammaG|);
    PowersEvaluate(KeyScale(ck, td), td.beta, |ck.shiftedPowers.value|, acc.shiftedW);
    PowersEvaluate(td.gammaG, td.beta, |ck.powersOfGammaG|, acc.shiftedRWitness);
    ShiftedProof(w, KeyScale(ck, td), Eval(acc.shiftedW, td.beta), td.gammaG, Eval(acc.shiftedRWitness, td.beta),
                 Sub(td.beta, z), Sub(a2, a0), Sub(s2, s0));
  }

  lemma ShiftedProof(w: Fp, scale: Fp, e: Fp, gamma: Fp, r: Fp, diff: Fp, a: Fp, s: Fp)
    requires Mul(Mul(scale, e), diff) == a && Mul(r, diff) == s
    ensures Mul(Add(w, Add(Mul(scale, e), Mul(gamma, r))), diff) == Add(Mul(w, diff), Add(a, Mul(gamma, s)))
  {
    assert Mul(Mul(gamma, r), diff) == Mul(gamma, s) by { MulAssociates(gamma, r, diff); }
    assert Mul(Add(Mul(scale, e), Mul(gamma, r)), diff) == Add(a, Mul(gamma, s)) by { RingLaws(); }
    assert Mul(Add(w, Add(Mul(scale, e), Mul(gamma, r))), diff)
        == Add(Mul(w, diff), Mul(Add(Mul(scale, e), Mul(gamma, r)), diff)) by { RingLaws(); }
  }

  /** g times the error of the combined value, plus the shifted errors, plus gamma times the
      blinding value that is left out. */
  function Excess(ck: CommitterKey, td: Trapdoor, ps: seq<LabeledPolynomial>, values: seq<Fp>, z: Fp, xi: Squeezes,
                  acc: Accumulated): Fp
    requires |ps| == |values|
  {
    var n := |ps|;
    Add(Add(Mul(td.g, Sub(CombinedValue(Bounded(ps), Values(ps, z), xi, n), CombinedValue(Bounded(ps), values, xi, n))),
            Sub(ShiftSum(ps, Values(ps, z), xi, td, ck.maxDegree, n), ShiftSum(ps, values, xi, td, ck.maxDegree, n))),
        Mul(td.gammaG, LostBlinding(acc, z)))
  }

  /** For committed polynomials with any degree bounds and hiding, open succeeds, and check
      accepts its proof exactly when h times the excess is zero. */
  lemma Exactly(ck: CommitterKey, vk: MarlinPC.VerifierKey, td: Trapdoor, ps: seq<LabeledPolynomial>,
                comms: seq<LabeledCommitment>, states: seq<Randomness>, z: Fp, values: seq<Fp>, xi: Squeezes)
    requires HonestKeys(ck, vk, td) && AllOk(ck, td, ps, comms, states) && |values| == |ps|
    ensures var n, acc := |ps|, Accumulate(ck, ps, states, z, xi, |ps|);
            && acc.Some? && FinishOpening(ck, acc.value, z).Some? && CombinedComm(vk, comms, values, xi, n).Some?
            && (Check(vk.vk, CombinedComm(vk, comms, values, xi, n).value, z,
                      CombinedValue(BoundedComms(comms), values, xi, n),
                      FinishOpening(ck, acc.value, z).value)
                <==> Mul(td.h, Excess(ck, td, ps, values, z, xi, acc.value)) == 0)
  {
    var n, b := |ps|, Bounded(ps);
    SameBounds(ck, td, ps, comms, states);
    CombinedCommValue(ck, vk, td, ps, comms, states, values, xi, n);
    AccumulateOk(ck, vk, td, ps, comms, states, z, xi, n);
    ShiftedIsShiftSum(ps, td.beta, xi, td, ck.maxDegree, n);
    ShiftedIsShiftSum(ps, z, xi, td, ck.maxDegree, n);
    AccumulateEvaluates(ck, ps, states, z, xi, n, td.beta);
    AccumulateEvaluates(ck, ps, states, z, xi, n, z);
    EnforcedHasBounds(ck, td, ps, comms, states, z, xi, n);
    CompareSides(ck, vk, td, Accumulate(ck, ps, states, z, xi, n).value, z,
                 CombinedComm(vk, comms, values, xi, n).value,
                 ShiftSum(ps, values, xi, td, ck.maxDegree, n), CombinedValue(b, values, xi, n),
                 ShiftSum(ps, Values(ps, td.beta), xi, td, ck.maxDegree, n),
                 ShiftSum(ps, Values(ps, z), xi, td, ck.maxDegree, n),
                 SecondSum(b, ShiftedRandValues(states, td.beta), xi, n),
                 SecondSum(b, ShiftedRandValues(states, z), xi, n));
  }

  lemma {:induction false} EnforcedHasBounds(ck: CommitterKey, td: Trapdoor, ps: seq<LabeledPolynomial>,
                                             comms: seq<LabeledCommitment>, states: seq<Randomness>, z: Fp,
                                             xi: Squeezes, n: nat)
    requires AllOk(ck, td, ps, comms, states) && n <= |ps|
    ensures var acc := Accumulate(ck, ps, states, z, xi, n);
            acc.Some? && acc.value.enforce ==> ck.bounds.Some? && ck.bounds.value != []
  {
    if n > 0 {
      EnforcedHasBounds(ck, td, ps, comms, states, z, xi, n - 1);
      assert OneOk(ck, td, ps[n - 1], comms[n - 1], states[n - 1]);
    }
  }

  lemma CompareSides(ck: CommitterKey, vk: MarlinPC.VerifierKey, td: Trapdoor, acc: Accumulated, z: Fp, comm: Fp, e: Fp,
                     v: Fp, a2: Fp, a0: Fp, s2: Fp, s0: Fp)
    requires HonestKeys(ck, vk, td) && AccumulatedOk(Some(acc), ck, td, z, a2, a0, s2, s0)
    requires acc.enforce ==> ck.bounds.Some? && ck.bounds.value != []
    requires CommIs(Some(comm), e, td, Eval(acc.p, td.beta), a2, Eval(acc.r, td.beta), s2)
    requires Eval(acc.shiftedR, z) == s0
    ensures FinishOpening(ck, acc, z).Some?
    ensures Check(vk.vk, comm, z, v, FinishOpening(ck, acc, z).value)
            <==> Mul(td.h, Add(Add(Mul(td.g, Sub(Eval(acc.p, z), v)), Sub(a0, e)),
                               Mul(td.gammaG, LostBlinding(acc, z)))) == 0
  {
    FinishedValue(ck, vk, td, acc, z, a2, a0, s2, s0);
    var proof := FinishOpening(ck, acc, z).value;
    var rz := Eval(acc.r, z);
    var rv := if proof.randomV.Some? then proof.randomV.value else 0;
    ExcessAlgebra(comm, e, td.g, td.gammaG, Eval(acc.p, td.beta), Eval(acc.p, z), a2, a0, Eval(acc.r, td.beta), rz,
                  s2, s0,
                  v, rv);
    CheckIsExcess(vk.vk, td, comm, z, v, proof, Mul(proof.w, Sub(td.beta, z)));
    Units(td.gammaG);
    if IsZero(acc.r) {
      ZeroEvaluates(acc.r, z);
      Units(s0);
      SubIff(s0, 0, s0);
    } else {
      SubZero(Add(rz, s0), rv);
    }
  }

  /** For true values only the blinding that is left out is in excess. */
  lemma {:induction false} ExcessOfTrueValues(ck: CommitterKey, td: Trapdoor, ps: seq<LabeledPolynomial>, z: Fp,
                                              xi: Squeezes, acc: Accumulated)
    ensures Excess(ck, td, ps, Values(ps, z), z, xi, acc) == Mul(td.gammaG, LostBlinding(acc, z))
  {
    var n, values := |ps|, Values(ps, z);
    SubZero(CombinedValue(Bounded(ps), values, xi, n), CombinedValue(Bounded(ps), values, xi, n));
    SubZero(ShiftSum(ps, values, xi, td, ck.maxDegree, n), ShiftSum(ps, values, xi, td, ck.maxDegree, n));
    Units(td.g);
    Units(0);
    Units(Mul(td.gammaG, LostBlinding(acc, z)));
  }
}
