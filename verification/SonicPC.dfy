/** Sonic's scheme with degree bounds (sonic_pc/mod.rs): commitments to bounded polynomials
    are shifted, and the verifier shifts back with negative powers of h. */
module SonicPC {
  import opened PrimeField
  import opened Vectors
  import opened Polynomials
  import opened KZG10
  import BatchChecks
  import KzgVerifier

  datatype CommitterKey = CommitterKey(powersOfG: seq<Fp>, powersOfGammaG: seq<Fp>, shiftedPowersOfG: Option<seq<Fp>>,
                                       shiftedPowersOfGammaG: map<nat, seq<Fp>>, bounds: Option<seq<nat>>,
                                       maxDegree: nat)
  datatype VerifierKey = VerifierKey(g: Fp, gammaG: Fp, h: Fp, betaH: Fp, negPowers: Option<seq<(nat, Fp)>>)
  datatype LabeledCommitment = LabeledCommitment(comm: Fp, degreeBound: Option<nat>)

  type Squeezes = nat -> Fp

  // ----- trim

  /** The blinding powers for one bound: those that the parameters still have. */
  method BoundPowers(gammas: seq<Fp>, shiftDegree: nat, supportedHidingBound: nat, maxDegree: nat) returns (r: seq<Fp>)
    requires |gammas| == maxDegree + 2 && shiftDegree <= maxDegree
    ensures r == gammas[shiftDegree..if shiftDegree + supportedHidingBound + 2 < maxDegree + 2
                                     then shiftDegree + supportedHidingBound + 2 else maxDegree + 2]
  {
    r := [];
    for i := 0 to supportedHidingBound + 2
      invariant r == gammas[shiftDegree..if shiftDegree + i < maxDegree + 2 then shiftDegree + i else maxDegree + 2]
    {
      if shiftDegree + i < maxDegree + 2 {
        r := r + [gammas[shiftDegree + i]];
      }
    }
  }

  /** trim; bounds is the list of degree bounds after sorting and removing duplicates. */
  method Trim(pp: UniversalParams, maxDegree: nat, supportedDegree: nat, supportedHidingBound: nat,
              bounds: Option<seq<nat>>, ghost td: Trapdoor) returns (r: Outcome<(CommitterKey, VerifierKey)>)
    requires HonestParams(pp, maxDegree, td) && |pp.negPowersOfH| == maxDegree + 1
    requires bounds.Some? ==> forall i, j :: 0 <= i <= j < |bounds.value| ==> bounds.value[i] <= bounds.value[j]
    ensures r.Err? <==> supportedDegree > maxDegree
                        || (bounds.Some? && bounds.value != [] && bounds.value[|bounds.value| - 1] > supportedDegree)
    ensures r.Panic? <==> !r.Err? && supportedHidingBound > maxDegree
    ensures r.Ok? ==> HonestKeys(r.value.0, r.value.1, td)
    ensures r.Ok? ==> KeySizes(r.value.0, r.value.1, maxDegree, supportedDegree, supportedHidingBound, bounds)
  {
    if supportedDegree > maxDegree {
      return Err;
    }
    var enforced := bounds.Some? && bounds.value != [];
    if enforced && bounds.value[|bounds.value| - 1] > supportedDegree {
      return Err;
    }
    if supportedHidingBound > maxDegree {
      return Panic;
    }
    var shifted: Option<seq<Fp>>, gammas: map<nat, seq<Fp>>, negs: Option<seq<(nat, Fp)>> := None, map[], None;
    if enforced {
      var l := bounds.value[|bounds.value| - 1];
      shifted := Some(pp.powersOfG[maxDegree - l..]);
      gammas := GammaTable(pp, maxDegree, supportedHidingBound, bounds.value, td);
      negs := Some(NegTable(pp.negPowersOfH, maxDegree, bounds.value));
    }
    var ck := CommitterKey(pp.powersOfG[..supportedDegree + 1], pp.powersOfGammaG[..supportedHidingBound + 2], shifted,
                           gammas, bounds, maxDegree);
    var vk := VerifierKey.VerifierKey(pp.powersOfG[0], pp.powersOfGammaG[0], pp.h, pp.betaH, negs);
    assert KeySizes(ck, vk, maxDegree, supportedDegree, supportedHidingBound, bounds);
    assert HonestKeys(ck, vk, td) by {
      if enforced {
        TrimmedShifts(pp, maxDegree, bounds.value, ck, vk, td);
      }
      KzgVerifier.PowersPrefix(td.g, td.beta, maxDegree + 1, supportedDegree + 1);
      KzgVerifier.PowersPrefix(td.gammaG, td.beta, maxDegree + 2, supportedHidingBound + 2);
    }
    r := Ok((ck, vk));
  }

  /** As many powers as asked for; for every bound as many blinding powers as the parameters still have. */
  ghost predicate KeySizes(ck: CommitterKey, vk: VerifierKey, maxDegree: nat, supportedDegree: nat,
                           supportedHidingBound: nat, bounds: Option<seq<nat>>) {
    && |ck.powersOfG| == supportedDegree + 1 && |ck.powersOfGammaG| == supportedHidingBound + 2
    && ck.bounds == bounds && ck.maxDegree == maxDegree
    && var enforced := bounds.Some? && bounds.value != [];
    && ck.shiftedPowersOfG.Some? == vk.negPowers.Some? == enforced
    && (forall d :: d in ck.shiftedPowersOfGammaG <==> enforced && d in bounds.value)
    && forall d :: d in ck.shiftedPowersOfGammaG ==>
         |ck.shiftedPowersOfGammaG[d]| == 2 + if supportedHidingBound < d then supportedHidingBound else d
  }

  /** What trimming does for the enforced bounds. */
  lemma TrimmedShifts(pp: UniversalParams, maxDegree: nat, bounds: seq<nat>, ck: CommitterKey, vk: VerifierKey,
                      td: Trapdoor)
    requires HonestParams(pp, maxDegree, td) && |pp.negPowersOfH| == maxDegree + 1 && bounds != []
    requires forall i, j :: 0 <= i <= j < |bounds| ==> bounds[i] <= bounds[j]
    requires ck.bounds == Some(bounds) && ck.maxDegree == maxDegree
    requires bounds[|bounds| - 1] < |ck.powersOfG| <= maxDegree + 1
    requires ck.shiftedPowersOfG == Some(pp.powersOfG[maxDegree - bounds[|bounds| - 1]..])
    requires forall d :: d in ck.shiftedPowersOfGammaG <==> d in bounds
    requires forall d :: d in bounds ==> GammasOk(ck.shiftedPowersOfGammaG[d], d, maxDegree, td)
                                         && |ck.shiftedPowersOfGammaG[d]| <= |ck.powersOfGammaG|
    requires vk.negPowers == Some(NegTable(pp.negPowersOfH, maxDegree, bounds))
    ensures HonestShifts(ck, vk, td)
  {
    PowersSuffix(td.g, td.beta, maxDegree + 1, maxDegree - bounds[|bounds| - 1]);
    NegTableOk(pp, maxDegree, bounds, td);
  }

  lemma NegTableOk(pp: UniversalParams, maxDegree: nat, bounds: seq<nat>, td: Trapdoor)
    requires HonestParams(pp, maxDegree, td) && |pp.negPowersOfH| == maxDegree + 1
    requires forall i :: 0 <= i < |bounds| ==> bounds[i] <= maxDegree
    ensures forall d :: d in bounds ==> NegPowerOk(NegTable(pp.negPowersOfH, maxDegree, bounds), d, maxDegree, td)
  {
    forall d | d in bounds ensures NegPowerOk(NegTable(pp.negPowersOfH, maxDegree, bounds), d, maxDegree, td) {
      NegLookup(NegTable(pp.negPowersOfH, maxDegree, bounds), bounds, d, maxDegree, td);
    }
  }

  function NegTable(negPowers: seq<Fp>, maxDegree: nat, bounds: seq<nat>): (r: seq<(nat, Fp)>)
    requires |negPowers| == maxDegree + 1 && forall i :: 0 <= i < |bounds| ==> bounds[i] <= maxDegree
    ensures |r| == |bounds| && forall i :: 0 <= i < |r| ==> r[i] == (bounds[i], negPowers[maxDegree - bounds[i]])
  {
    seq(|bounds|, i requires 0 <= i < |bounds| => (bounds[i], negPowers[maxDegree - bounds[i]]))
  }

  /** The blinding powers of every bound. */
  method GammaTable(pp: UniversalParams, maxDegree: nat, supportedHidingBound: nat, bounds: seq<nat>,
                    ghost td: Trapdoor)
    returns (gammas: map<nat, seq<Fp>>)
    requires HonestParams(pp, maxDegree, td) && forall i :: 0 <= i < |bounds| ==> bounds[i] <= maxDegree
    ensures forall d :: d in gammas <==> d in bounds
    ensures forall d :: d in gammas ==> GammasOk(gammas[d], d, maxDegree, td)
    ensures forall d :: d in gammas ==>
              |gammas[d]| == 2 + if supportedHidingBound < d then supportedHidingBound else d
  {
    gammas := map[];
    for i := 0 to |bounds|
      invariant forall d :: d in gammas <==> d in bounds[..i]
      invariant forall d :: d in gammas ==> GammasOk(gammas[d], d, maxDegree, td)
      invariant forall d :: d in gammas ==>
                  |gammas[d]| == 2 + if supportedHidingBound < d then supportedHidingBound else d
    {
      var shiftDegree := maxDegree - bounds[i];
      var powers := BoundPowers(pp.powersOfGammaG, shiftDegree, supportedHidingBound, maxDegree);
      PowersSuffix(td.gammaG, td.beta, maxDegree + 2, shiftDegree);
      KzgVerifier.PowersPrefix(Mul(td.gammaG, Pow(td.beta, shiftDegree)), td.beta, maxDegree + 2 - shiftDegree,
                               |powers|);
      assert powers == pp.powersOfGammaG[shiftDegree..][..|powers|];
      gammas := gammas[bounds[i] := powers];
    }
  }

  // ----- honest keys

  ghost predicate GammasOk(powers: seq<Fp>, d: nat, maxDegree: nat, td: Trapdoor) {
    d <= maxDegree && |powers| >= 1
    && powers == PowersFrom(Mul(td.gammaG, Pow(td.beta, maxDegree - d)), td.beta, |powers|)
  }

  ghost predicate NegPowerOk(table: seq<(nat, Fp)>, d: nat, maxDegree: nat, td: Trapdoor) {
    d <= maxDegree && Lookup(table, d).Some? && Mul(Lookup(table, d).value, Pow(td.beta, maxDegree - d)) == td.h
  }

  ghost predicate HonestKeys(ck: CommitterKey, vk: VerifierKey, td: Trapdoor) {
    && HonestPowers(Powers(ck.powersOfG, ck.powersOfGammaG), td.g, td.gammaG, td.beta)
    && |ck.powersOfG| >= 1 && |ck.powersOfGammaG| >= 1
    && vk.g == td.g && vk.gammaG == td.gammaG && vk.h == td.h && vk.betaH == Mul(td.h, td.beta)
    && (ck.bounds.Some? && ck.bounds.value != [] ==> HonestShifts(ck, vk, td))
  }

  ghost predicate HonestShifts(ck: CommitterKey, vk: VerifierKey, td: Trapdoor)
    requires ck.bounds.Some? && ck.bounds.value != []
  {
    var l := ck.bounds.value[|ck.bounds.value| - 1];
    && l < |ck.powersOfG| && l <= ck.maxDegree && (forall d :: d in ck.bounds.value ==> d <= l)
    && ck.shiftedPowersOfG == Some(PowersFrom(Mul(td.g, Pow(td.beta, ck.maxDegree - l)), td.beta, l + 1))
    && (forall d :: d in ck.bounds.value ==> d in ck.shiftedPowersOfGammaG)
    && (forall d :: d in ck.bounds.value ==>
          GammasOk(ck.shiftedPowersOfGammaG[d], d, ck.maxDegree, td)
          && |ck.shiftedPowersOfGammaG[d]| <= |ck.powersOfGammaG|)
    && vk.negPowers.Some? && forall d :: d in ck.bounds.value ==> NegPowerOk(vk.negPowers.value, d, ck.maxDegree, td)
  }

  lemma {:induction false} NegLookup(table: seq<(nat, Fp)>, bounds: seq<nat>, d: nat, maxDegree: nat, td: Trapdoor)
    requires |table| == |bounds| && d in bounds
    requires forall i :: 0 <= i < |bounds| ==> table[i].0 == bounds[i] <= maxDegree
    requires forall i :: 0 <= i < |bounds| ==> Mul(table[i].1, Pow(td.beta, maxDegree - bounds[i])) == td.h
    ensures NegPowerOk(table, d, maxDegree, td)
  {
    if bounds[0] != d {
      assert forall i :: 0 <= i < |table| - 1 ==> table[1..][i] == table[i + 1] && bounds[1..][i] == bounds[i + 1];
      assert d in bounds[1..] by {
        var i :| 0 <= i < |bounds| && bounds[i] == d;
        assert bounds[1..][i - 1] == d;
      }
      NegLookup(table[1..], bounds[1..], d, maxDegree, td);
    }
  }

  // ----- commit

  /** shifted_powers for a bound; None where the key has none or an assertion fails. */
  function ShiftedPowers(ck: CommitterKey, bound: nat): Option<Powers> {
    if ck.shiftedPowersOfG.None? || ck.bounds.None? || bound !in ck.bounds.value || bound !in ck.shiftedPowersOfGammaG
    then None
    else
      var l := ck.bounds.value[|ck.bounds.value| - 1];
      if l < bound || l - bound > |ck.shiftedPowersOfG.value| then None
      else Some(Powers(ck.shiftedPowersOfG.value[l - bound..], ck.shiftedPowersOfGammaG[bound]))
  }

  /** commit for one polynomial: a bound or degree out of order is an error; a bound without
      shifted powers is a panic. */
  function CommitOne(ck: CommitterKey, p: LabeledPolynomial, coin: seq<Fp>): Outcome<(LabeledCommitment, seq<Fp>)> {
    if !BoundOk(ck.bounds, ck.maxDegree, p) then Err else
      var powers := if p.degreeBound.None? then Some(Powers(ck.powersOfG, ck.powersOfGammaG))
                    else ShiftedPowers(ck, p.degreeBound.value);
      if powers.None? then Panic else
        match Committed(powers.value, p.polynomial, p.hidingBound, coin)
        case None => Err
        case Some((comm, rand)) => Ok((LabeledCommitment(comm, p.degreeBound), rand))
  }

  /** Everything was committed, each polynomial with its own coins. */
  ghost predicate CommittedAll(ck: CommitterKey, ps: seq<LabeledPolynomial>, coins: seq<seq<Fp>>,
                               comms: seq<LabeledCommitment>, rands: seq<seq<Fp>>) {
    && |coins| == |ps| == |comms| == |rands|
    && forall i :: 0 <= i < |ps| ==> CommitOne(ck, ps[i], coins[i]) == Ok((comms[i], rands[i]))
  }

  /** The first polynomial that is rejected is rejected with this outcome. */
  ghost predicate RejectedFirst(ck: CommitterKey, ps: seq<LabeledPolynomial>, coins: seq<seq<Fp>>, i: nat)
    requires i < |ps| == |coins|
  {
    !CommitOne(ck, ps[i], coins[i]).Ok? && forall k :: 0 <= k < i ==> CommitOne(ck, ps[k], coins[k]).Ok?
  }

  /** commit: the first polynomial that is rejected decides between an error and a panic. */
  method Commit(ck: CommitterKey, ps: seq<LabeledPolynomial>, coins: seq<seq<Fp>>)
    returns (r: Outcome<(seq<LabeledCommitment>, seq<seq<Fp>>)>)
    requires |coins| == |ps|
    ensures r.Ok? ==> CommittedAll(ck, ps, coins, r.value.0, r.value.1)
    ensures !r.Ok? ==> exists i :: 0 <= i < |ps| && RejectedFirst(ck, ps, coins, i)
                                   && (r.Err? <==> CommitOne(ck, ps[i], coins[i]).Err?)
  {
    var comms, rands := [], [];
    for i := 0 to |ps|
      invariant |comms| == |rands| == i
      invariant forall k :: 0 <= k < i ==> CommitOne(ck, ps[k], coins[k]) == Ok((comms[k], rands[k]))
    {
      var one := CommitOne(ck, ps[i], coins[i]);
      if !one.Ok? {
        assert RejectedFirst(ck, ps, coins, i);
        return if one.Err? then Err else Panic;
      }
      comms := comms + [one.value.0];
      rands := rands + [one.value.1];
    }
    return Ok((comms, rands));
  }

  /** The power of beta that a commitment is shifted by. */
  function ShiftOf(td: Trapdoor, maxDegree: nat, bound: Option<nat>): Fp {
    if bound.Some? && bound.value <= maxDegree then Pow(td.beta, maxDegree - bound.value) else 1
  }

  /** What commit guarantees for one polynomial: blinding and all, the commitment is that of the
      polynomial shifted by the power for its bound. */
  ghost predicate OneOk(ck: CommitterKey, td: Trapdoor, p: LabeledPolynomial, c: LabeledCommitment, rand: seq<Fp>) {
    && c.degreeBound == p.degreeBound
    && (p.degreeBound.Some? ==> ck.bounds.Some? && p.degreeBound.value in ck.bounds.value)
    && Degree(p.polynomial) < |ck.powersOfG|
    && c.comm == Mul(ShiftOf(td, ck.maxDegree, p.degreeBound),
                     Add(Mul(td.g, Eval(p.polynomial, td.beta)), Mul(td.gammaG, Eval(rand, td.beta))))
  }

  /** The blinding fits the unshifted key, with which open commits to its witness. */
  ghost predicate RandFits(ck: CommitterKey, rand: seq<Fp>) {
    forall k: nat :: k >= |ck.powersOfGammaG| ==> Coef(rand, k) == 0
  }

  lemma BlindingFits(ck: CommitterKey, rand: seq<Fp>, n: nat)
    requires n <= |ck.powersOfGammaG| && (rand == [] || Degree(rand) < n)
    ensures RandFits(ck, rand)
  {
    forall k: nat | k >= |ck.powersOfGammaG| ensures Coef(rand, k) == 0 {
      if k < |rand| { AboveDegree(rand, k); }
    }
  }

  lemma CommitOneOk(ck: CommitterKey, vk: VerifierKey, td: Trapdoor, p: LabeledPolynomial, coin: seq<Fp>,
                    c: LabeledCommitment, rand: seq<Fp>)
    requires HonestKeys(ck, vk, td) && CommitOne(ck, p, coin) == Ok((c, rand))
    ensures OneOk(ck, td, p, c, rand) && RandFits(ck, rand)
  {
    if p.degreeBound.None? {
      CommittedValue(Powers(ck.powersOfG, ck.powersOfGammaG), td.g, td.gammaG, td.beta, p.polynomial, p.hidingBound,
                     coin);
      BlindingFits(ck, rand, |ck.powersOfGammaG|);
      Units(c.comm);
    } else {
      assert HonestShifts(ck, vk, td);
      ShiftedCommit(ck, vk, td, p, coin);
      BlindingFits(ck, rand, |ck.shiftedPowersOfGammaG[p.degreeBound.value]|);
    }
  }

  lemma ShiftedCommit(ck: CommitterKey, vk: VerifierKey, td: Trapdoor, p: LabeledPolynomial, coin: seq<Fp>)
    requires HonestKeys(ck, vk, td) && BoundOk(ck.bounds, ck.maxDegree, p) && p.degreeBound.Some?
    requires ShiftedPowers(ck, p.degreeBound.value).Some?
    requires Committed(ShiftedPowers(ck, p.degreeBound.value).value, p.polynomial, p.hidingBound, coin).Some?
    ensures var (c, rand) := Committed(ShiftedPowers(ck, p.degreeBound.value).value, p.polynomial, p.hidingBound,
                                       coin).value;
            && c == Mul(Pow(td.beta, ck.maxDegree - p.degreeBound.value),
                        Add(Mul(td.g, Eval(p.polynomial, td.beta)), Mul(td.gammaG, Eval(rand, td.beta))))
            && (rand == [] || Degree(rand) < |ck.shiftedPowersOfGammaG[p.degreeBound.value]|)
  {
    var d, l := p.degreeBound.value, ck.bounds.value[|ck.bounds.value| - 1];
    var shift, powers := Pow(td.beta, ck.maxDegree - d), ShiftedPowers(ck, d).value;
    assert HonestPowers(powers, Mul(td.g, shift), Mul(td.gammaG, shift), td.beta) by {
      assert HonestShifts(ck, vk, td);
      PowersSuffix(Mul(td.g, Pow(td.beta, ck.maxDegree - l)), td.beta, l + 1, l - d);
      MulAssociates(td.g, Pow(td.beta, ck.maxDegree - l), Pow(td.beta, l - d));
      PowAdd(td.beta, ck.maxDegree - l, l - d);
    }
    CommittedValue(powers, Mul(td.g, shift), Mul(td.gammaG, shift), td.beta, p.polynomial, p.hidingBound, coin);
    var rand := Committed(powers, p.polynomial, p.hidingBound, coin).value.1;
    PullShift(shift, td.g, td.gammaG, Eval(p.polynomial, td.beta), Eval(rand, td.beta));
  }

  lemma PullShift(s: Fp, g: Fp, gamma: Fp, p: Fp, r: Fp)
    ensures Add(Mul(Mul(g, s), p), Mul(Mul(gamma, s), r)) == Mul(s, Add(Mul(g, p), Mul(gamma, r)))
  {
    RingLaws();
  }

  // ----- open

  function CombinePolys(ps: seq<LabeledPolynomial>, xi: Squeezes, n: nat): seq<Fp>
    requires n <= |ps|
  {
    if n == 0 then [] else Plus(CombinePolys(ps, xi, n - 1), Scale(xi(n - 1), ps[n - 1].polynomial))
  }

  function CombineRands(rands: seq<seq<Fp>>, xi: Squeezes, n: nat): seq<Fp>
    requires n <= |rands|
  {
    if n == 0 then [] else Plus(CombineRands(rands, xi, n - 1), Scale(xi(n - 1), rands[n - 1]))
  }

  predicate AllBoundsOk(ck: CommitterKey, ps: seq<LabeledPolynomial>, n: nat)
    requires n <= |ps|
  {
    n == 0 || (AllBoundsOk(ck, ps, n - 1) && BoundOk(ck.bounds, ck.maxDegree, ps[n - 1]))
  }

  function OpenSpec(ck: CommitterKey, ps: seq<LabeledPolynomial>, rands: seq<seq<Fp>>, point: Fp, xi: Squeezes):
    Outcome<Proof>
    requires |ps| == |rands|
  {
    if !AllBoundsOk(ck, ps, |ps|) then Err else
      match Opened(Powers(ck.powersOfG, ck.powersOfGammaG), CombinePolys(ps, xi, |ps|), point,
                   CombineRands(rands, xi, |ps|))
      case None => Err
      case Some(proof) => Ok(proof)
  }

  /** open. */
  method Open(ck: CommitterKey, ps: seq<LabeledPolynomial>, rands: seq<seq<Fp>>, point: Fp, xi: Squeezes)
    returns (r: Outcome<Proof>)
    requires |ps| == |rands|
    ensures r == OpenSpec(ck, ps, rands, point, xi)
  {
    var p: seq<Fp>, rand: seq<Fp> := [], [];
    for i := 0 to |ps|
      invariant AllBoundsOk(ck, ps, i) && p == CombinePolys(ps, xi, i) && rand == CombineRands(rands, xi, i)
    {
      if !BoundOk(ck.bounds, ck.maxDegree, ps[i]) {
        RejectedOnce(ck, ps, i, |ps|);
        return Err;
      }
      p := Plus(p, Scale(xi(i), ps[i].polynomial));
      rand := Plus(rand, Scale(xi(i), rands[i]));
    }
    var proof := Opened(Powers(ck.powersOfG, ck.powersOfGammaG), p, point, rand);
    r := if proof.Some? then Ok(proof.value) else Err;
  }

  lemma {:induction false} RejectedOnce(ck: CommitterKey, ps: seq<LabeledPolynomial>, j: nat, n: nat)
    requires j < n <= |ps| && !BoundOk(ck.bounds, ck.maxDegree, ps[j])
    ensures !AllBoundsOk(ck, ps, n)
  {
    if j < n - 1 { RejectedOnce(ck, ps, j, n - 1); }
  }

  // ----- check

  /** The commitments added up per degree bound. */
  type Entries = seq<(Option<nat>, Fp)>

  /** *entry(bound).or_insert(zero) += x */
  function AddEntry(entries: Entries, bound: Option<nat>, x: Fp): Entries {
    if entries == [] then [(bound, Add(0, x))]
    else if entries[0].0 == bound then [(bound, Add(entries[0].1, x))] + entries[1..]
    else [entries[0]] + AddEntry(entries[1..], bound, x)
  }

  /** The running sums of the verifier. */
  datatype Sums = Sums(comms: Entries, w: Fp, adjusted: Fp)

  function Randomized(randomizer: Option<Fp>, x: Fp): Fp {
    if randomizer.Some? then Mul(x, randomizer.value) else x
  }

  /** The first n commitments with their challenges, added up. */
  function AddComms(entries: Entries, comms: seq<LabeledCommitment>, xi: Squeezes, randomizer: Option<Fp>,
                    n: nat): Entries
    requires n <= |comms|
  {
    if n == 0 then entries
    else AddEntry(AddComms(entries, comms, xi, randomizer, n - 1), comms[n - 1].degreeBound,
                  Randomized(randomizer, Mul(comms[n - 1].comm, xi(n - 1))))
  }

  function CombinedValue(values: seq<Fp>, xi: Squeezes, n: nat): Fp
    requires n <= |values|
  {
    if n == 0 then 0 else Add(CombinedValue(values, xi, n - 1), Mul(values[n - 1], xi(n - 1)))
  }

  function AdjustedWitness(vk: VerifierKey, value: Fp, point: Fp, proof: Proof): Fp {
    var adjusted := Sub(Mul(vk.g, value), Mul(proof.w, point));
    if proof.randomV.Some? then Add(adjusted, Mul(vk.gammaG, proof.randomV.value)) else adjusted
  }

  /** accumulate_elems: one query's commitments, values and proof go into the sums. */
  method AccumulateElems(sums: Sums, vk: VerifierKey, comms: seq<LabeledCommitment>, point: Fp, values: seq<Fp>,
                         proof: Proof, xi: Squeezes, randomizer: Option<Fp>) returns (r: Sums)
    requires |comms| == |values|
    ensures r == Accumulated(sums, vk, comms, point, values, proof, xi, randomizer)
  {
    var combinedValues: Fp := 0;
    var combinedComms := sums.comms;
    for i := 0 to |comms|
      invariant combinedValues == CombinedValue(values, xi, i)
      invariant combinedComms == AddComms(sums.comms, comms, xi, randomizer, i)
    {
      combinedValues := Add(combinedValues, Mul(values[i], xi(i)));
      var commWithChallenge := Mul(comms[i].comm, xi(i));
      if randomizer.Some? {
        commWithChallenge := Mul(commWithChallenge, randomizer.value);
      }
      combinedComms := AddEntry(combinedComms, comms[i].degreeBound, commWithChallenge);
    }
    var w := proof.w;
    var adjusted := AdjustedWitness(vk, combinedValues, point, proof);
    if randomizer.Some? {
      w := Mul(proof.w, randomizer.value);
      adjusted := Mul(adjusted, randomizer.value);
    }
    r := Sums(combinedComms, Add(sums.w, w), Add(sums.adjusted, adjusted));
  }

  function Accumulated(sums: Sums, vk: VerifierKey, comms: seq<LabeledCommitment>, point: Fp, values: seq<Fp>,
                       proof: Proof, xi: Squeezes, randomizer: Option<Fp>): Sums
    requires |comms| == |values|
  {
    Sums(AddComms(sums.comms, comms, xi, randomizer, |comms|), Add(sums.w, Randomized(randomizer, proof.w)),
         Add(sums.adjusted, Randomized(randomizer,
                                       AdjustedWitness(vk, CombinedValue(values, xi, |values|), point, proof))))
  }

  /** The second group's element that a sum is paired with; None where the bound is not
      supported. */
  function PairedWith(vk: VerifierKey, bound: Option<nat>): Option<Fp> {
    if bound.None? then Some(vk.h)
    else if vk.negPowers.None? then None
    else Lookup(vk.negPowers.value, bound.value)
  }

  function PairSum(vk: VerifierKey, entries: Entries): Option<Fp> {
    if entries == [] then Some(0) else
      match PairedWith(vk, entries[0].0)
      case None => None
      case Some(e) =>
        match PairSum(vk, entries[1..])
        case None => None
        case Some(rest) => Some(Add(Mul(entries[0].1, e), rest))
  }

  /** check_elems; None where the source returns an error. */
  function CheckElems(vk: VerifierKey, sums: Sums): Option<bool> {
    match PairSum(vk, sums.comms)
    case None => None
    case Some(total) => Some(Add(total, Add(Mul(Neg(sums.adjusted), vk.h), Mul(Neg(sums.w), vk.betaH))) == 0)
  }

  /** What is claimed of some commitments at one point; the challenges are those squeezed for it. */
  datatype Query = Query(comms: seq<LabeledCommitment>, point: Fp, values: seq<Fp>, proof: Proof, xi: Squeezes)

  predicate Aligned(q: Query) {
    |q.comms| == |q.values|
  }

  function Added(sums: Sums, vk: VerifierKey, q: Query, randomizer: Option<Fp>): Sums
    requires Aligned(q)
  {
    Accumulated(sums, vk, q.comms, q.point, q.values, q.proof, q.xi, randomizer)
  }

  function CheckSpec(vk: VerifierKey, q: Query): Option<bool>
    requires Aligned(q)
  {
    CheckElems(vk, Added(Sums([], 0, 0), vk, q, None))
  }

  /** check. */
  method Check(vk: VerifierKey, q: Query) returns (r: Option<bool>)
    requires Aligned(q)
    ensures r == CheckSpec(vk, q)
  {
    var sums := AccumulateElems(Sums([], 0, 0), vk, q.comms, q.point, q.values, q.proof, q.xi, None);
    r := CheckElems(vk, sums);
  }

  /** The sums of the first n claims, the first weighted with one and the others with what is
      drawn. */
  function BatchSums(vk: VerifierKey, qs: seq<Query>, draws: BatchChecks.Draws, n: nat): Sums
    requires n <= |qs| && forall i :: 0 <= i < |qs| ==> Aligned(qs[i])
  {
    if n == 0 then Sums([], 0, 0)
    else Added(BatchSums(vk, qs, draws, n - 1), vk, qs[n - 1], Some(BatchChecks.Randomizer(draws, n - 1)))
  }

  /** batch_check, after the queries have been grouped by point. */
  method BatchCheck(vk: VerifierKey, qs: seq<Query>, draws: BatchChecks.Draws) returns (r: Option<bool>)
    requires forall i :: 0 <= i < |qs| ==> Aligned(qs[i])
    ensures r == CheckElems(vk, BatchSums(vk, qs, draws, |qs|))
  {
    var randomizer: Fp := 1;
    var sums := Sums([], 0, 0);
    for i := 0 to |qs|
      invariant randomizer == BatchChecks.Randomizer(draws, i) && sums == BatchSums(vk, qs, draws, i)
    {
      var q := qs[i];
      sums := AccumulateElems(sums, vk, q.comms, q.point, q.values, q.proof, q.xi, Some(randomizer));
      randomizer := draws(i);
    }
    r := CheckElems(vk, sums);
  }
}
