/** Marlin's scheme with degree bounds (marlin/marlin_pc/mod.rs, marlin/mod.rs): trimming,
    committing, opening and checking. */
module MarlinPC {
  import opened PrimeField
  import opened Vectors
  import opened KZG10
  import StreamingKzg

  datatype CommitterKey = CommitterKey(powers: seq<Fp>, shiftedPowers: Option<seq<Fp>>, powersOfGammaG: seq<Fp>,
                                       bounds: Option<seq<nat>>, maxDegree: nat)
  datatype VerifierKey = VerifierKey(vk: KZG10.VerifierKey, shiftPowers: Option<seq<(nat, Fp)>>)
  datatype Commitment = Commitment(comm: Fp, shiftedComm: Option<Fp>)
  datatype LabeledCommitment = LabeledCommitment(commitment: Commitment, degreeBound: Option<nat>)
  datatype Randomness = Randomness(rand: seq<Fp>, shiftedRand: Option<seq<Fp>>)

  /** The field elements squeezed from the sponge, in order. */
  type Squeezes = nat -> Fp

  // ----- trim

  /** The table of a bound with the power that shifts by maxDegree minus the bound. */
  function ShiftTable(powersOfG: seq<Fp>, maxDegree: nat, bounds: seq<nat>): (r: seq<(nat, Fp)>)
    requires |powersOfG| == maxDegree + 1 && forall i :: 0 <= i < |bounds| ==> bounds[i] <= maxDegree
    ensures |r| == |bounds| && forall i :: 0 <= i < |r| ==> r[i] == (bounds[i], powersOfG[maxDegree - bounds[i]])
  {
    seq(|bounds|, i requires 0 <= i < |bounds| => (bounds[i], powersOfG[maxDegree - bounds[i]]))
  }

  /** trim; bounds is the list of degree bounds after sorting and removing duplicates. */
  function Trim(pp: UniversalParams, maxDegree: nat, supportedDegree: nat, supportedHidingBound: nat,
                bounds: Option<seq<nat>>): Outcome<(CommitterKey, VerifierKey)>
    requires |pp.powersOfG| == maxDegree + 1 && |pp.powersOfGammaG| == maxDegree + 2
  {
    if supportedDegree > maxDegree then Err
    else if supportedHidingBound + 1 > maxDegree + 1 then Panic
    else if bounds.Some? && exists i :: 0 <= i < |bounds.value| && bounds.value[i] > maxDegree then Panic
    else
      var enforced := bounds.Some? && bounds.value != [];
      var shifted :=
        if enforced then Some(pp.powersOfG[maxDegree - bounds.value[|bounds.value| - 1]..]) else None;
      var table := if enforced then Some(ShiftTable(pp.powersOfG, maxDegree, bounds.value)) else None;
      Ok((CommitterKey(pp.powersOfG[..supportedDegree + 1], shifted, pp.powersOfGammaG[..supportedHidingBound + 2],
                       bounds, maxDegree),
          VerifierKey.VerifierKey(KZG10.VerifierKey(pp.powersOfG[0], pp.powersOfGammaG[0], pp.h, pp.betaH), table)))
  }

  // ----- the keys' accessors

  /** The largest bound that the key enforces. */
  function Largest(bounds: seq<nat>): nat
    requires bounds != []
  {
    bounds[|bounds| - 1]
  }

  /** shifted_powers for a bound; None where the key has none or an assertion fails. */
  function ShiftedPowers(ck: CommitterKey, bound: nat): Option<Powers> {
    if ck.shiftedPowers.None? || ck.bounds.None? || bound !in ck.bounds.value then None
    else if Largest(ck.bounds.value) < bound || Largest(ck.bounds.value) - bound > |ck.shiftedPowers.value| then None
    else Some(Powers(ck.shiftedPowers.value[Largest(ck.bounds.value) - bound..], ck.powersOfGammaG))
  }

  // ----- commit

  /** commit for one polynomial; None where the source returns an error. */
  function CommitOne(ck: CommitterKey, p: LabeledPolynomial, coin: seq<Fp>, shiftedCoin: seq<Fp>):
    Option<(LabeledCommitment, Randomness)>
  {
    if !BoundOk(ck.bounds, ck.maxDegree, p) then None else
      match Committed(Powers(ck.powers, ck.powersOfGammaG), p.polynomial, p.hidingBound, coin)
      case None => None
      case Some((comm, rand)) =>
        if p.degreeBound.None? then
          Some((LabeledCommitment(Commitment(comm, None), None), Randomness(rand, None)))
        else
          match ShiftedPowers(ck, p.degreeBound.value)
          case None => None
          case Some(powers) =>
            match Committed(powers, p.polynomial, p.hidingBound, shiftedCoin)
            case None => None
            case Some((shiftedComm, shiftedRand)) =>
              Some((LabeledCommitment(Commitment(comm, Some(shiftedComm)), p.degreeBound),
                    Randomness(rand, Some(shiftedRand))))
  }

  /** Everything was committed, each polynomial with its own coins. */
  ghost predicate CommittedAll(ck: CommitterKey, ps: seq<LabeledPolynomial>, coins: seq<(seq<Fp>, seq<Fp>)>,
                               comms: seq<LabeledCommitment>, states: seq<Randomness>) {
    && |coins| == |ps| == |comms| == |states|
    && forall i :: 0 <= i < |ps| ==> CommitOne(ck, ps[i], coins[i].0, coins[i].1) == Some((comms[i], states[i]))
  }

  /** commit; None where the source returns an error for the first polynomial that it rejects. */
  method Commit(ck: CommitterKey, ps: seq<LabeledPolynomial>, coins: seq<(seq<Fp>, seq<Fp>)>)
    returns (r: Option<(seq<LabeledCommitment>, seq<Randomness>)>)
    requires |coins| == |ps|
    ensures r.None? <==> exists i :: 0 <= i < |ps| && CommitOne(ck, ps[i], coins[i].0, coins[i].1).None?
    ensures r.Some? ==> CommittedAll(ck, ps, coins, r.value.0, r.value.1)
  {
    var comms, states := [], [];
    for i := 0 to |ps|
      invariant |comms| == |states| == i
      invariant forall k :: 0 <= k < i ==> CommitOne(ck, ps[k], coins[k].0, coins[k].1) == Some((comms[k], states[k]))
    {
      var one := CommitOne(ck, ps[i], coins[i].0, coins[i].1);
      if one.None? { return None; }
      comms := comms + [one.value.0];
      states := states + [one.value.1];
    }
    return Some((comms, states));
  }

  // ----- open

  /** How many elements have been squeezed before the n-th polynomial: one for each, and one
      more for each with a degree bound. */
  function Position(bounded: seq<bool>, n: nat): nat
    requires n <= |bounded|
  {
    if n == 0 then 0 else Position(bounded, n - 1) + if bounded[n - 1] then 2 else 1
  }

  function Bounded(ps: seq<LabeledPolynomial>): (r: seq<bool>)
    ensures |r| == |ps| && forall i :: 0 <= i < |r| ==> r[i] == ps[i].degreeBound.Some?
  {
    seq(|ps|, i requires 0 <= i < |ps| => ps[i].degreeBound.Some?)
  }

  /** shift_polynomial; None where the source's expect fails. */
  function ShiftPolynomial(ck: CommitterKey, p: seq<Fp>, bound: nat): Option<seq<Fp>> {
    if IsZero(p) then Some([])
    else if ck.bounds.None? || ck.bounds.value == [] || Largest(ck.bounds.value) < bound then None
    else Some(Zeros(Largest(ck.bounds.value) - bound) + p)
  }

  /** What open accumulates: the combined polynomial and blinding, the shifted witness, the
      shifted blinding and its witness, and whether any polynomial has a degree bound. */
  datatype Accumulated = Accumulated(p: seq<Fp>, r: seq<Fp>, shiftedW: seq<Fp>, shiftedR: seq<Fp>,
                                     shiftedRWitness: seq<Fp>, enforce: bool)

  /** One turn of open's loop; None where the source panics. */
  function AddPolynomial(ck: CommitterKey, acc: Accumulated, p: LabeledPolynomial, state: Randomness, point: Fp, x: Fp,
                         y: Fp): Option<Accumulated> {
    if p.degreeBound.Some? != state.shiftedRand.Some? then None else
      var acc' := acc.(p := Plus(acc.p, Scale(x, p.polynomial)), r := Plus(acc.r, Scale(x, state.rand)));
      if p.degreeBound.None? then Some(acc') else
        var s := state.shiftedRand.value;
        match ShiftPolynomial(ck, StreamingKzg.Witness(p.polynomial, point), p.degreeBound.value)
        case None => None
        case Some(shiftedWitness) =>
          Some(acc'.(
            shiftedW := Plus(acc.shiftedW, Scale(y, shiftedWitness)),
            shiftedR := Plus(acc.shiftedR, Scale(y, s)),
            shiftedRWitness :=
              if IsZero(s) then acc.shiftedRWitness
              else Plus(acc.shiftedRWitness, Scale(y, StreamingKzg.Witness(s, point))),
            enforce := true))
  }

  /** The accumulation over the first n polynomials. */
  function Accumulate(ck: CommitterKey, ps: seq<LabeledPolynomial>, states: seq<Randomness>, point: Fp, xi: Squeezes,
                      n: nat):
    Option<Accumulated>
    requires n <= |ps| == |states|
  {
    if n == 0 then Some(Accumulated([], [], [], [], [], false)) else
      match Accumulate(ck, ps, states, point, xi, n - 1)
      case None => None
      case Some(acc) =>
        var k := Position(Bounded(ps), n - 1);
        AddPolynomial(ck, acc, ps[n - 1], states[n - 1], point, xi(k), xi(k + 1))
  }

  /** The proofs for the unshifted and the shifted polynomials put together. */
  function FinishOpening(ck: CommitterKey, acc: Accumulated, point: Fp): Option<Proof> {
    match Opened(Powers(ck.powers, ck.powersOfGammaG), acc.p, point, acc.r)
    case None => None
    case Some(proof) =>
      if !acc.enforce then Some(proof)
      else if ck.shiftedPowers.None? then None
      else
        match OpenedWith(Powers(ck.shiftedPowers.value, ck.powersOfGammaG), point, acc.shiftedR, acc.shiftedW,
                         Some(acc.shiftedRWitness))
        case None => None
        case Some(shiftedProof) =>
          Some(Proof(Add(proof.w, shiftedProof.w),
                     if proof.randomV.None? then None else Some(Add(proof.randomV.value, shiftedProof.randomV.value))))
  }

  predicate AllBoundsOk(ck: CommitterKey, ps: seq<LabeledPolynomial>, n: nat)
    requires n <= |ps|
  {
    n == 0 || (AllBoundsOk(ck, ps, n - 1) && BoundOk(ck.bounds, ck.maxDegree, ps[n - 1]))
  }

  /** One turn of open's loop: the blinding must fit the degree bound, or an assertion fails;
      then the bound is checked, which is an error. */
  function Turn(ck: CommitterKey, acc: Accumulated, p: LabeledPolynomial, state: Randomness, point: Fp, x: Fp, y: Fp):
    Outcome<Accumulated>
  {
    if p.degreeBound.Some? != state.shiftedRand.Some? then Panic
    else if !BoundOk(ck.bounds, ck.maxDegree, p) then Err
    else
      match AddPolynomial(ck, acc, p, state, point, x, y)
      case None => Panic
      case Some(next) => Ok(next)
  }

  /** The first n turns. */
  function Turns(ck: CommitterKey, ps: seq<LabeledPolynomial>, states: seq<Randomness>, point: Fp, xi: Squeezes,
                 n: nat):
    Outcome<Accumulated>
    requires n <= |ps| == |states|
  {
    if n == 0 then Ok(Accumulated([], [], [], [], [], false)) else
      match Turns(ck, ps, states, point, xi, n - 1)
      case Err => Err
      case Panic => Panic
      case Ok(acc) =>
        var k := Position(Bounded(ps), n - 1);
        Turn(ck, acc, ps[n - 1], states[n - 1], point, xi(k), xi(k + 1))
  }

  /** After the loop: a degree beyond the key is an error, a missing shifted key a panic. */
  function Finish(ck: CommitterKey, acc: Accumulated, point: Fp): Outcome<Proof> {
    match FinishOpening(ck, acc, point)
    case Some(proof) => Ok(proof)
    case None =>
      if Opened(Powers(ck.powers, ck.powersOfGammaG), acc.p, point, acc.r).Some? && ck.shiftedPowers.None?
      then Panic else Err
  }

  function OpenSpec(ck: CommitterKey, ps: seq<LabeledPolynomial>, states: seq<Randomness>, point: Fp, xi: Squeezes):
    Outcome<Proof>
    requires |ps| == |states|
  {
    match Turns(ck, ps, states, point, xi, |ps|)
    case Err => Err
    case Panic => Panic
    case Ok(acc) => Finish(ck, acc, point)
  }

  /** The first n turns have this outcome; Peek opens it. */
  ghost predicate HasTurned(ck: CommitterKey, ps: seq<LabeledPolynomial>, states: seq<Randomness>, point: Fp,
                            xi: Squeezes, n: nat, acc: Outcome<Accumulated>)
    requires n <= |ps| == |states|
  {
    forall u :: Peek(u) ==> Turns(ck, ps, states, point, xi, n) == acc
  }

  method NextTurn(ck: CommitterKey, ps: seq<LabeledPolynomial>, states: seq<Randomness>, point: Fp, xi: Squeezes,
                  j: nat, k: nat, acc: Accumulated) returns (next: Outcome<Accumulated>)
    requires j < |ps| == |states| && k == Position(Bounded(ps), j)
    requires HasTurned(ck, ps, states, point, xi, j, Ok(acc))
    ensures HasTurned(ck, ps, states, point, xi, j + 1, next)
  {
    assert Peek(0);
    next := Turn(ck, acc, ps[j], states[j], point, xi(k), xi(k + 1));
  }

  lemma {:induction false} FailureStays(ck: CommitterKey, ps: seq<LabeledPolynomial>, states: seq<Randomness>,
                                        point: Fp, xi: Squeezes, j: nat, n: nat, acc: Outcome<Accumulated>)
    requires j <= n <= |ps| == |states| && HasTurned(ck, ps, states, point, xi, j, acc) && !acc.Ok?
    ensures HasTurned(ck, ps, states, point, xi, n, acc)
  {
    if j < n {
      FailureStays(ck, ps, states, point, xi, j, n - 1, acc);
      assert Peek(0);
    }
  }

  /** open: the first turn that fails decides between an error and a panic. */
  method Open(ck: CommitterKey, ps: seq<LabeledPolynomial>, states: seq<Randomness>, point: Fp, xi: Squeezes)
    returns (r: Outcome<Proof>)
    requires |ps| == |states|
    ensures r == OpenSpec(ck, ps, states, point, xi)
  {
    var sums := Accumulated([], [], [], [], [], false);
    var k := 0;
    for j := 0 to |ps|
      invariant k == Position(Bounded(ps), j) && HasTurned(ck, ps, states, point, xi, j, Ok(sums))
    {
      var next := NextTurn(ck, ps, states, point, xi, j, k, sums);
      if !next.Ok? {
        FailureStays(ck, ps, states, point, xi, j + 1, |ps|, next);
        assert Peek(0);
        return if next.Err? then Err else Panic;
      }
      k := k + if ps[j].degreeBound.Some? then 2 else 1;
      sums := next.value;
    }
    assert Peek(0);
    r := Finish(ck, sums, point);
  }

  /** Where all bounds are in order and nothing panics, the turns are the accumulation. */
  lemma {:induction false} TurnsAccumulate(ck: CommitterKey, ps: seq<LabeledPolynomial>, states: seq<Randomness>,
                                           point: Fp, xi: Squeezes, n: nat)
    requires n <= |ps| == |states| && AllBoundsOk(ck, ps, n) && Accumulate(ck, ps, states, point, xi, n).Some?
    ensures Turns(ck, ps, states, point, xi, n) == Ok(Accumulate(ck, ps, states, point, xi, n).value)
  {
    if n > 0 { TurnsAccumulate(ck, ps, states, point, xi, n - 1); }
  }

  // ----- check

  /** The combined commitment: a shifted one is adjusted by the value before it is added. */
  function CombinedComm(vk: VerifierKey, comms: seq<LabeledCommitment>, values: seq<Fp>, xi: Squeezes,
                        n: nat): Option<Fp>
    requires n <= |comms| == |values|
  {
    if n == 0 then Some(0) else
      match CombinedComm(vk, comms, values, xi, n - 1)
      case None => None
      case Some(sum) =>
        var k := Position(BoundedComms(comms), n - 1);
        AddCommitment(vk, sum, comms[n - 1], values[n - 1], xi(k), xi(k + 1))
  }

  function BoundedComms(comms: seq<LabeledCommitment>): (r: seq<bool>)
    ensures |r| == |comms| && forall i :: 0 <= i < |r| ==> r[i] == comms[i].degreeBound.Some?
  {
    seq(|comms|, i requires 0 <= i < |comms| => comms[i].degreeBound.Some?)
  }

  /** One turn of accumulate_commitments_and_values; None where it errs or panics. */
  function AddCommitment(vk: VerifierKey, sum: Fp, c: LabeledCommitment, value: Fp, x: Fp, y: Fp): Option<Fp> {
    if c.degreeBound.Some? != c.commitment.shiftedComm.Some? then None else
      var sum' := Add(sum, Mul(c.commitment.comm, x));
      if c.degreeBound.None? then Some(sum')
      else if vk.shiftPowers.None? then None
      else match Lookup(vk.shiftPowers.value, c.degreeBound.value)
        case None => None
        case Some(power) => Some(Add(sum', Mul(Sub(c.commitment.shiftedComm.value, Mul(power, value)), y)))
  }

  function CombinedValue(bounded: seq<bool>, values: seq<Fp>, xi: Squeezes, n: nat): Fp
    requires n <= |bounded| == |values|
  {
    if n == 0 then 0
    else Add(CombinedValue(bounded, values, xi, n - 1), Mul(values[n - 1], xi(Position(bounded, n - 1))))
  }

  /** One turn of the verifier's loop: a shifted commitment without a bound, or a bound without
      one, fails an assertion; an unsupported bound is an error. */
  function AddOutcome(vk: VerifierKey, sum: Fp, c: LabeledCommitment, value: Fp, x: Fp, y: Fp): Outcome<Fp> {
    if c.degreeBound.Some? != c.commitment.shiftedComm.Some? then Panic else
      match AddCommitment(vk, sum, c, value, x, y)
      case None => Err
      case Some(next) => Ok(next)
  }

  function CommOutcome(vk: VerifierKey, comms: seq<LabeledCommitment>, values: seq<Fp>, xi: Squeezes, n: nat):
    Outcome<Fp>
    requires n <= |comms| == |values|
  {
    if n == 0 then Ok(0) else
      match CommOutcome(vk, comms, values, xi, n - 1)
      case Err => Err
      case Panic => Panic
      case Ok(sum) =>
        var k := Position(BoundedComms(comms), n - 1);
        AddOutcome(vk, sum, comms[n - 1], values[n - 1], xi(k), xi(k + 1))
  }

  function CheckSpec(vk: VerifierKey, comms: seq<LabeledCommitment>, point: Fp, values: seq<Fp>, proof: Proof,
                     xi: Squeezes): Outcome<bool>
    requires |comms| == |values|
  {
    match CommOutcome(vk, comms, values, xi, |comms|)
    case Err => Err
    case Panic => Panic
    case Ok(c) => Ok(Check(vk.vk, c, point, CombinedValue(BoundedComms(comms), values, xi, |comms|), proof))
  }

  /** check. */
  method CheckAll(vk: VerifierKey, comms: seq<LabeledCommitment>, point: Fp, values: seq<Fp>, proof: Proof,
                  xi: Squeezes) returns (r: Outcome<bool>)
    requires |comms| == |values|
    ensures r == CheckSpec(vk, comms, point, values, proof, xi)
  {
    var combinedComm: Fp, combinedValue: Fp := 0, 0;
    var k := 0;
    ghost var bounded := BoundedComms(comms);
    for i := 0 to |comms|
      invariant k == Position(bounded, i)
      invariant CommOutcome(vk, comms, values, xi, i) == Ok(combinedComm)
      invariant combinedValue == CombinedValue(bounded, values, xi, i)
    {
      var next := AddOutcome(vk, combinedComm, comms[i], values[i], xi(k), xi(k + 1));
      if !next.Ok? {
        FailedOnce(vk, comms, values, xi, i + 1, |comms|);
        return if next.Err? then Err else Panic;
      }
      combinedComm := next.value;
      combinedValue := Add(combinedValue, Mul(values[i], xi(k)));
      k := k + if comms[i].degreeBound.Some? then 2 else 1;
    }
    r := Ok(Check(vk.vk, combinedComm, point, combinedValue, proof));
  }

  lemma {:induction false} FailedOnce(vk: VerifierKey, comms: seq<LabeledCommitment>, values: seq<Fp>, xi: Squeezes,
                                      j: nat, n: nat)
    requires j <= n <= |comms| == |values| && !CommOutcome(vk, comms, values, xi, j).Ok?
    ensures CommOutcome(vk, comms, values, xi, n) == CommOutcome(vk, comms, values, xi, j)
  {
    if j < n { FailedOnce(vk, comms, values, xi, j, n - 1); }
  }

  lemma {:induction false} CommIsOutcome(vk: VerifierKey, comms: seq<LabeledCommitment>, values: seq<Fp>, xi: Squeezes,
                                         n: nat)
    requires n <= |comms| == |values| && CombinedComm(vk, comms, values, xi, n).Some?
    ensures CommOutcome(vk, comms, values, xi, n) == Ok(CombinedComm(vk, comms, values, xi, n).value)
  {
    if n > 0 { CommIsOutcome(vk, comms, values, xi, n - 1); }
  }
}
