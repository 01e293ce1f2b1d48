/** When Marlin opens completely (marlin/marlin_pc/mod.rs, marlin/mod.rs): commit, open and check
    put together, and the blinding value that a proof can leave out. */
module MarlinBlinding {
  import opened PrimeField
  import opened Vectors
  import opened Polynomials
  import opened KZG10
  import opened MarlinPC
  import opened MarlinCompleteness
  import Lagrange

  // ----- from commit to check

  /** commit has checked every bound that open checks again. */
  lemma {:induction false} BoundsAreOk(ck: CommitterKey, ps: seq<LabeledPolynomial>, coins: seq<(seq<Fp>, seq<Fp>)>,
                                       comms: seq<LabeledCommitment>, states: seq<Randomness>, n: nat)
    requires CommittedAll(ck, ps, coins, comms, states) && n <= |ps|
    ensures AllBoundsOk(ck, ps, n)
  {
    if n > 0 {
      BoundsAreOk(ck, ps, coins, comms, states, n - 1);
      assert CommitOne(ck, ps[n - 1], coins[n - 1].0, coins[n - 1].1).Some?;
    }
  }

  /** Whatever was committed can be opened, and check of that proof says whether h times the
      excess of the claimed values is zero. */
  lemma {:induction false} OpenThenCheck(ck: CommitterKey, vk: MarlinPC.VerifierKey, td: Trapdoor,
                                         ps: seq<LabeledPolynomial>, coins: seq<(seq<Fp>, seq<Fp>)>,
                                         comms: seq<LabeledCommitment>, states: seq<Randomness>, z: Fp,
                                         values: seq<Fp>, xi: Squeezes)
    requires HonestKeys(ck, vk, td) && CommittedAll(ck, ps, coins, comms, states) && |values| == |ps|
    ensures var opening, acc := OpenSpec(ck, ps, states, z, xi), Accumulate(ck, ps, states, z, xi, |ps|);
            && opening.Ok? && acc.Some?
            && CheckSpec(vk, comms, z, values, opening.value, xi)
               == Ok(Mul(td.h, Excess(ck, td, ps, values, z, xi, acc.value)) == 0)
  {
    CommitAllOk(ck, vk, td, ps, coins, comms, states);
    Exactly(ck, vk, td, ps, comms, states, z, values, xi);
    BoundsAreOk(ck, ps, coins, comms, states, |ps|);
    TurnsAccumulate(ck, ps, states, z, xi, |ps|);
    CommIsOutcome(vk, comms, values, xi, |ps|);
  }

  /** open succeeds and check accepts the true values. */
  ghost predicate AcceptsTrueValues(ck: CommitterKey, vk: MarlinPC.VerifierKey, ps: seq<LabeledPolynomial>,
                                    comms: seq<LabeledCommitment>, states: seq<Randomness>, z: Fp, xi: Squeezes)
    requires |ps| == |comms| == |states|
  {
    var opening := OpenSpec(ck, ps, states, z, xi);
    opening.Ok? && CheckSpec(vk, comms, z, Values(ps, z), opening.value, xi) == Ok(true)
  }

  lemma {:induction false} AcceptedUnlessLost(ck: CommitterKey, vk: MarlinPC.VerifierKey, td: Trapdoor,
                                              ps: seq<LabeledPolynomial>, coins: seq<(seq<Fp>, seq<Fp>)>,
                                              comms: seq<LabeledCommitment>, states: seq<Randomness>, z: Fp,
                                              xi: Squeezes)
    requires HonestKeys(ck, vk, td) && CommittedAll(ck, ps, coins, comms, states)
    ensures var acc := Accumulate(ck, ps, states, z, xi, |ps|);
            && acc.Some?
            && (AcceptsTrueValues(ck, vk, ps, comms, states, z, xi)
                <==> Mul(td.h, Mul(td.gammaG, LostBlinding(acc.value, z))) == 0)
            && (!IsZero(acc.value.r) || IsZero(acc.value.shiftedR) ==> LostBlinding(acc.value, z) == 0)
  {
    OpenThenCheck(ck, vk, td, ps, coins, comms, states, z, Values(ps, z), xi);
    CommitAllOk(ck, vk, td, ps, coins, comms, states);
    var acc := Accumulate(ck, ps, states, z, xi, |ps|).value;
    ExcessOfTrueValues(ck, td, ps, z, xi, acc);
    if IsZero(acc.shiftedR) { ZeroEvaluates(acc.shiftedR, z); }
  }

  // ----- one squeezed element is one, all others are zero

  ghost predicate IsOnly(xi: Squeezes, k: nat) {
    forall i: nat :: xi(i) == if i == k then 1 else 0
  }

  lemma OnlyExists(k: nat) returns (xi: Squeezes)
    ensures IsOnly(xi, k)
  {
    xi := (i: nat) => if i == k then 1 else 0;
  }

  lemma {:induction false} PositionsRise(b: seq<bool>, m: nat, n: nat)
    requires m < n <= |b|
    ensures Position(b, m) + (if b[m] then 2 else 1) <= Position(b, n)
  {
    if m < n - 1 { PositionsRise(b, m, n - 1); }
  }

  lemma PositionsDiffer(b: seq<bool>, i: nat, m: nat)
    requires i < |b| && m < |b| && b[i]
    ensures Position(b, m) != Position(b, i) + 1
    ensures b[m] && m != i ==> Position(b, m) != Position(b, i)
  {
    if i < m { PositionsRise(b, i, m); }
    if m < i { PositionsRise(b, m, i); }
  }

  /** The second challenge of polynomial i alone keeps just its value. */
  lemma {:induction false} SecondOnly(b: seq<bool>, values: seq<Fp>, xi: Squeezes, i: nat, n: nat)
    requires n <= |b| == |values| && i < |b| && b[i] && IsOnly(xi, Position(b, i) + 1)
    ensures SecondSum(b, values, xi, n) == if i < n then values[i] else 0
  {
    if n > 0 {
      SecondOnly(b, values, xi, i, n - 1);
      PositionsDiffer(b, i, n - 1);
      Units(values[n - 1]);
      Units(if i < n - 1 then values[i] else 0);
    }
  }

  lemma {:induction false} PlusOfZeros(f: seq<Fp>, g: seq<Fp>)
    requires IsZero(f)
    ensures IsZero(Plus(f, Scale(0, g)))
  {
    var s := Plus(f, Scale(0, g));
    forall k | 0 <= k < |s| ensures s[k] == 0 {
      CoefPlus(f, Scale(0, g), k);
      CoefScale(0, g, k);
      assert Coef(s, k) == s[k];
      Units(Coef(g, k));
      Units(0);
    }
  }

  /** Where all first challenges are zero, so is the combined blinding. */
  lemma {:induction false} BlindingVanishes(ck: CommitterKey, ps: seq<LabeledPolynomial>, states: seq<Randomness>,
                                            z: Fp, xi: Squeezes, n: nat)
    requires n <= |ps| == |states| && Accumulate(ck, ps, states, z, xi, n).Some?
    requires forall m :: 0 <= m < n ==> xi(Position(Bounded(ps), m)) == 0
    ensures IsZero(Accumulate(ck, ps, states, z, xi, n).value.r)
  {
    if n > 0 {
      BlindingVanishes(ck, ps, states, z, xi, n - 1);
      PlusOfZeros(Accumulate(ck, ps, states, z, xi, n - 1).value.r, states[n - 1].rand);
    }
  }

  // ----- the blinding that is lost

  /** The value at z of the shifted blinding of polynomial i. */
  function ShiftedValue(states: seq<Randomness>, i: nat, z: Fp): Fp
    requires i < |states|
  {
    if states[i].shiftedRand.Some? then Eval(states[i].shiftedRand.value, z) else 0
  }

  /** With only the second challenge of a bounded polynomial i, the combined blinding is zero and
      the shifted blinding of i is lost. */
  lemma {:induction false} OnlyOneIsLost(ck: CommitterKey, ps: seq<LabeledPolynomial>, states: seq<Randomness>, z: Fp,
                                         xi: Squeezes, i: nat, acc: Accumulated)
    requires i < |ps| == |states| && ps[i].degreeBound.Some? && IsOnly(xi, Position(Bounded(ps), i) + 1)
    requires Accumulate(ck, ps, states, z, xi, |ps|) == Some(acc)
    ensures IsZero(acc.r) && LostBlinding(acc, z) == ShiftedValue(states, i, z)
  {
    var b := Bounded(ps);
    assert IsZero(acc.r) by {
      forall m | 0 <= m < |ps| ensures xi(Position(b, m)) == 0 { PositionsDiffer(b, i, m); }
      BlindingVanishes(ck, ps, states, z, xi, |ps|);
    }
    AccumulateEvaluates(ck, ps, states, z, xi, |ps|, z);
    SecondOnly(b, ShiftedRandValues(states, z), xi, i, |ps|);
  }

  /** The true values are then accepted exactly if h gamma times that shifted blinding is zero. */
  lemma {:induction false} LostByOne(ck: CommitterKey, vk: MarlinPC.VerifierKey, td: Trapdoor,
                                     ps: seq<LabeledPolynomial>, coins: seq<(seq<Fp>, seq<Fp>)>,
                                     comms: seq<LabeledCommitment>, states: seq<Randomness>, z: Fp, xi: Squeezes,
                                     i: nat)
    requires HonestKeys(ck, vk, td) && CommittedAll(ck, ps, coins, comms, states)
    requires i < |ps| && ps[i].degreeBound.Some? && IsOnly(xi, Position(Bounded(ps), i) + 1)
    ensures AcceptsTrueValues(ck, vk, ps, comms, states, z, xi)
            <==> Mul(td.h, Mul(td.gammaG, ShiftedValue(states, i, z))) == 0
  {
    AcceptedUnlessLost(ck, vk, td, ps, coins, comms, states, z, xi);
    OnlyOneIsLost(ck, ps, states, z, xi, i, Accumulate(ck, ps, states, z, xi, |ps|).value);
  }

  /** The zero polynomial with a degree bound, hidden with bound 1. */
  function HiddenZero(bound: nat): LabeledPolynomial {
    LabeledPolynomial([], Some(bound), Some(1))
  }

  /** commit accepts it with the blindings X and c + X. */
  lemma {:induction false} CommitsHiddenZero(ck: CommitterKey, vk: MarlinPC.VerifierKey, td: Trapdoor, bound: nat,
                                             c: Fp)
    requires HonestKeys(ck, vk, td) && ck.bounds.Some? && bound in ck.bounds.value && |ck.powersOfGammaG| >= 2
    ensures var one := CommitOne(ck, HiddenZero(bound), [0, 1], [c, 1]);
            one.Some? && one.value.1 == Randomness([0, 1], Some([c, 1]))
  {
    assert HonestShifts(ck, vk, td);
  }

  /** An input whose true value is rejected: the second challenge is 1 and the first is 0.  check
      accepts exactly if h gamma (c + z) is zero. */
  lemma {:induction false} LostBlindingRejects(ck: CommitterKey, vk: MarlinPC.VerifierKey, td: Trapdoor, bound: nat,
                                               c: Fp, z: Fp, xi: Squeezes, one: (LabeledCommitment, Randomness))
    requires HonestKeys(ck, vk, td) && ck.bounds.Some? && bound in ck.bounds.value && |ck.powersOfGammaG| >= 2
    requires IsOnly(xi, 1)
    requires CommitOne(ck, HiddenZero(bound), [0, 1], [c, 1]) == Some(one)
    ensures AcceptsTrueValues(ck, vk, [HiddenZero(bound)], [one.0], [one.1], z, xi)
            <==> Mul(td.h, Mul(td.gammaG, Add(c, z))) == 0
  {
    CommitsHiddenZero(ck, vk, td, bound, c);
    var ps, coins, comms, states := [HiddenZero(bound)], [([0, 1], [c, 1])], [one.0], [one.1];
    assert CommittedAll(ck, ps, coins, comms, states);
    assert Position(Bounded(ps), 0) == 0;
    LostByOne(ck, vk, td, ps, coins, comms, states, z, xi, 0);
    LinearValue(c, z);
  }

  lemma LinearValue(c: Fp, z: Fp)
    ensures Eval([c, 1], z) == Add(c, z)
  {
    assert [c, 1][1..] == [1] && [1][1..] == [];
    assert Eval([1], z) == 1 by { Units(z); Units(1); }
    Units(z);
  }

  /** With whatever challenges and at whatever point, the true values are accepted. */
  ghost predicate AlwaysComplete(ck: CommitterKey, vk: MarlinPC.VerifierKey, ps: seq<LabeledPolynomial>,
                                 comms: seq<LabeledCommitment>, states: seq<Randomness>)
    requires |ps| == |comms| == |states|
  {
    forall z, xi :: AcceptsTrueValues(ck, vk, ps, comms, states, z, xi)
  }

  /** No bounded polynomial has a shifted blinding with a value other than zero. */
  ghost predicate NothingToLose(states: seq<Randomness>) {
    forall i, z :: 0 <= i < |states| ==> ShiftedValue(states, i, z) == 0
  }

  /** Committed polynomials are always opened completely exactly if all shifted blindings vanish
      at every point. */
  lemma {:induction false} CompleteIff(ck: CommitterKey, vk: MarlinPC.VerifierKey, td: Trapdoor,
                                       ps: seq<LabeledPolynomial>, coins: seq<(seq<Fp>, seq<Fp>)>,
                                       comms: seq<LabeledCommitment>, states: seq<Randomness>)
    requires HonestKeys(ck, vk, td) && CommittedAll(ck, ps, coins, comms, states) && td.h != 0 && td.gammaG != 0
    ensures AlwaysComplete(ck, vk, ps, comms, states) <==> NothingToLose(states)
  {
    if NothingToLose(states) {
      forall z, xi ensures AcceptsTrueValues(ck, vk, ps, comms, states, z, xi) {
        NothingLost(ck, vk, td, ps, coins, comms, states, z, xi);
      }
    } else {
      var i, z :| 0 <= i < |states| && ShiftedValue(states, i, z) != 0;
      assert CommitOne(ck, ps[i], coins[i].0, coins[i].1) == Some((comms[i], states[i]));
      var xi := OnlyExists(Position(Bounded(ps), i) + 1);
      LostByOne(ck, vk, td, ps, coins, comms, states, z, xi, i);
      NonZeroProducts(td.h, td.gammaG, ShiftedValue(states, i, z));
      assert !AcceptsTrueValues(ck, vk, ps, comms, states, z, xi);
    }
  }

  lemma {:induction false} NothingLost(ck: CommitterKey, vk: MarlinPC.VerifierKey, td: Trapdoor,
                                       ps: seq<LabeledPolynomial>, coins: seq<(seq<Fp>, seq<Fp>)>,
                                       comms: seq<LabeledCommitment>, states: seq<Randomness>, z: Fp, xi: Squeezes)
    requires HonestKeys(ck, vk, td) && CommittedAll(ck, ps, coins, comms, states) && NothingToLose(states)
    ensures AcceptsTrueValues(ck, vk, ps, comms, states, z, xi)
  {
    AcceptedUnlessLost(ck, vk, td, ps, coins, comms, states, z, xi);
    AccumulateEvaluates(ck, ps, states, z, xi, |ps|, z);
    forall i | 0 <= i < |states| ensures ShiftedRandValues(states, z)[i] == 0 {
      assert ShiftedValue(states, i, z) == 0;
    }
    SecondOfZeros(Bounded(ps), ShiftedRandValues(states, z), xi, |ps|);
    Units(td.gammaG);
    Units(td.h);
  }

  lemma {:induction false} SecondOfZeros(b: seq<bool>, values: seq<Fp>, xi: Squeezes, n: nat)
    requires n <= |b| == |values| && forall i :: 0 <= i < |values| ==> values[i] == 0
    ensures SecondSum(b, values, xi, n) == 0
  {
    if n > 0 {
      SecondOfZeros(b, values, xi, n - 1);
      Units(xi(Position(b, n - 1) + 1));
      Units(0);
    }
  }

  // ----- the condition on the labels

  predicate BoundedAreUnhidden(ps: seq<LabeledPolynomial>) {
    forall i :: 0 <= i < |ps| ==> ps[i].degreeBound.None? || ps[i].hidingBound.None?
  }

  /** All elements of the field. */
  function Everything(): (r: seq<Fp>)
    ensures |r| == P && Lagrange.Distinct(r)
  {
    seq(P, i requires 0 <= i < P => i)
  }

  /** A polynomial whose degree is positive and below the order of the field has a value other
      than zero. */
  lemma {:induction false} NonZeroSomewhere(f: seq<Fp>) returns (z: Fp)
    requires 0 < Degree(f) < P
    ensures Eval(f, z) != 0
  {
    LeadingNotZero(f);
    if forall x: Fp :: Eval(f, x) == 0 {
      var d := f[..Degree(f) + 1];
      forall k: nat ensures Coef(f, k) == Coef(d, k) {
        if Degree(f) < k < |f| { AboveDegree(f, k); }
      }
      forall x | x in Everything() ensures Eval(d, x) == 0 { EvalPolyEq(f, d, x); }
      Lagrange.RootsBound(d, Everything());
      assert Coef(d, Degree(f)) != Coef([], Degree(f));
      assert false;
    }
    z :| Eval(f, z) != 0;
  }

  lemma {:induction false} LeadingNotZero(f: seq<Fp>)
    requires Degree(f) > 0
    ensures Degree(f) < |f| && f[Degree(f)] != 0
  {
    if f[|f| - 1] == 0 { LeadingNotZero(f[..|f| - 1]); }
  }

  lemma {:induction false} VanishesIffUnhidden(ck: CommitterKey, p: LabeledPolynomial, coin: seq<Fp>,
                                               shiftedCoin: seq<Fp>, c: LabeledCommitment, st: Randomness)
    requires CommitOne(ck, p, coin, shiftedCoin) == Some((c, st)) && |ck.powersOfGammaG| <= P
    ensures (forall z :: ShiftedValue([st], 0, z) == 0) <==> p.degreeBound.None? || p.hidingBound.None?
  {
    if p.degreeBound.Some? && p.hidingBound.Some? {
      var z := NonZeroSomewhere(shiftedCoin);
      assert ShiftedValue([st], 0, z) != 0;
    }
  }

  /** Committed polynomials are always opened completely exactly if none of them is both bounded
      and hidden, in a field with at least as many elements as the key has blinding powers. */
  lemma {:induction false} CompleteIffUnhidden(ck: CommitterKey, vk: MarlinPC.VerifierKey, td: Trapdoor,
                                               ps: seq<LabeledPolynomial>, coins: seq<(seq<Fp>, seq<Fp>)>,
                                               comms: seq<LabeledCommitment>, states: seq<Randomness>)
    requires HonestKeys(ck, vk, td) && CommittedAll(ck, ps, coins, comms, states) && td.h != 0 && td.gammaG != 0
    requires |ck.powersOfGammaG| <= P
    ensures AlwaysComplete(ck, vk, ps, comms, states) <==> BoundedAreUnhidden(ps)
  {
    CompleteIff(ck, vk, td, ps, coins, comms, states);
    forall i | 0 <= i < |ps|
      ensures (forall z :: ShiftedValue(states, i, z) == 0) <==> ps[i].degreeBound.None? || ps[i].hidingBound.None?
    {
      VanishesIffUnhidden(ck, ps[i], coins[i].0, coins[i].1, comms[i], states[i]);
      forall z ensures ShiftedValue(states, i, z) == ShiftedValue([states[i]], 0, z) {
      }
    }
  }
}
