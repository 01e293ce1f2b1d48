/** batch_check of Marlin against its check, for arbitrary commitments, values and proofs: the
    commitments of each point are combined first, then KZG10 checks all points at once
    (marlin/mod.rs, marlin/marlin_pc/mod.rs). */
module MarlinBatchCheck {
  import opened PrimeField
  import opened KZG10
  import opened MarlinPC
  import opened Vectors
  import BatchChecks
  import D = MarlinDecisions
  import MarlinBlinding
  import MarlinCompleteness

  /** What is asked at one point; the challenges are those squeezed for it. */
  datatype Query = Query(comms: seq<LabeledCommitment>, point: Fp, values: seq<Fp>, xi: Squeezes)

  predicate Aligned(q: Query) {
    |q.comms| == |q.values|
  }

  predicate AllAligned(qs: seq<Query>) {
    forall i :: 0 <= i < |qs| ==> Aligned(qs[i])
  }

  /** A shifted commitment is there exactly if there is a bound. */
  predicate Matched(c: LabeledCommitment) {
    c.degreeBound.Some? == c.commitment.shiftedComm.Some?
  }

  function CheckOne(vk: MarlinPC.VerifierKey, q: Query, proof: Proof): Outcome<bool>
    requires Aligned(q)
  {
    CheckSpec(vk, q.comms, q.point, q.values, proof, q.xi)
  }

  // ----- combine_and_normalize

  /** The combined commitment and value of one point; an assertion looks at all commitments before
      any bound is looked up. */
  function CombineOne(vk: MarlinPC.VerifierKey, q: Query): Outcome<(Fp, Fp)>
    requires Aligned(q)
  {
    if exists i :: 0 <= i < |q.comms| && !Matched(q.comms[i]) then Panic else
      match CommOutcome(vk, q.comms, q.values, q.xi, |q.comms|)
      case Err => Err
      case Panic => Panic
      case Ok(c) => Ok((c, CombinedValue(BoundedComms(q.comms), q.values, q.xi, |q.comms|)))
  }

  /** The combined commitments, the points and the combined values of the first n queries. */
  datatype Lists = Lists(comms: seq<Fp>, points: seq<Fp>, values: seq<Fp>)

  function CombineAll(vk: MarlinPC.VerifierKey, qs: seq<Query>, n: nat): (r: Outcome<Lists>)
    requires n <= |qs| && AllAligned(qs)
    ensures r.Ok? ==> |r.value.comms| == |r.value.points| == |r.value.values| == n
  {
    if n == 0 then Ok(Lists([], [], [])) else
      match CombineAll(vk, qs, n - 1)
      case Err => Err
      case Panic => Panic
      case Ok(ls) => Pushed(ls, CombineOne(vk, qs[n - 1]), qs[n - 1].point)
  }

  function Pushed(ls: Lists, one: Outcome<(Fp, Fp)>, point: Fp): Outcome<Lists> {
    match one
    case Err => Err
    case Panic => Panic
    case Ok((c, v)) => Ok(Lists(ls.comms + [c], ls.points + [point], ls.values + [v]))
  }

  lemma {:induction false} CombineFails(vk: MarlinPC.VerifierKey, qs: seq<Query>, m: nat, n: nat)
    requires m <= n <= |qs| && AllAligned(qs) && !CombineAll(vk, qs, m).Ok?
    ensures CombineAll(vk, qs, n) == CombineAll(vk, qs, m)
  {
    if m < n { CombineFails(vk, qs, m, n - 1); }
  }

  method CombineAndNormalize(vk: MarlinPC.VerifierKey, qs: seq<Query>) returns (r: Outcome<Lists>)
    requires AllAligned(qs)
    ensures r == CombineAll(vk, qs, |qs|)
  {
    var ls := Lists([], [], []);
    for i := 0 to |qs|
      invariant CombineAll(vk, qs, i) == Ok(ls)
    {
      var next := Pushed(ls, CombineOne(vk, qs[i]), qs[i].point);
      if !next.Ok? {
        CombineFails(vk, qs, i + 1, |qs|);
        return next;
      }
      ls := next.value;
    }
    r := Ok(ls);
  }

  // ----- batch_check

  function Claims(ls: Lists, proofs: seq<Proof>): seq<BatchChecks.Claim> {
    BatchChecks.Zip(ls.comms, ls.points, ls.values, proofs)
  }

  /** The batched equation of KZG10 on these lists. */
  predicate Balanced(vk: KZG10.VerifierKey, cs: seq<BatchChecks.Claim>, draws: BatchChecks.Draws) {
    BatchChecks.WeightedDeficits(vk.g, vk.gammaG, vk.h, BatchChecks.Singles(vk, cs), draws, |cs|) == 0
  }

  function BatchSpec(vk: MarlinPC.VerifierKey, qs: seq<Query>, proofs: seq<Proof>, draws: BatchChecks.Draws):
    Outcome<bool>
    requires AllAligned(qs)
  {
    match CombineAll(vk, qs, |qs|)
    case Err => Err
    case Panic => Panic
    case Ok(ls) => if |proofs| != |qs| then Panic else Ok(Balanced(vk.vk, Claims(ls, proofs), draws))
  }

  /** batch_check, after the queries have been grouped by point; a different number of proofs fails
      an assertion. */
  method BatchCheck(vk: MarlinPC.VerifierKey, qs: seq<Query>, proofs: seq<Proof>, draws: BatchChecks.Draws)
    returns (r: Outcome<bool>)
    requires AllAligned(qs)
    ensures r == BatchSpec(vk, qs, proofs, draws)
  {
    var combined := CombineAndNormalize(vk, qs);
    if !combined.Ok? { return if combined.Err? then Err else Panic; }
    if |proofs| != |combined.value.points| { return Panic; }
    var ls := combined.value;
    var result := BatchChecks.BatchCheck(vk.vk, ls.comms, ls.points, ls.values, proofs, draws);
    r := Ok(result);
  }

  // ----- against the separate checks

  lemma {:induction false} MatchedIfOk(vk: MarlinPC.VerifierKey, comms: seq<LabeledCommitment>, values: seq<Fp>,
                                       xi: Squeezes, n: nat)
    requires n <= |comms| == |values| && CommOutcome(vk, comms, values, xi, n).Ok?
    ensures forall i :: 0 <= i < n ==> Matched(comms[i])
  {
    if n > 0 { MatchedIfOk(vk, comms, values, xi, n - 1); }
  }

  /** check and the combination fail for the same queries; otherwise check is that of KZG10 on what
      is combined. */
  lemma {:induction false} CheckIsCombined(vk: MarlinPC.VerifierKey, q: Query, proof: Proof)
    requires Aligned(q)
    ensures CheckOne(vk, q, proof).Ok? <==> CombineOne(vk, q).Ok?
    ensures CombineOne(vk, q).Ok? ==>
              var (c, v) := CombineOne(vk, q).value; CheckOne(vk, q, proof) == Ok(Check(vk.vk, c, q.point, v, proof))
  {
    if CommOutcome(vk, q.comms, q.values, q.xi, |q.comms|).Ok? {
      MatchedIfOk(vk, q.comms, q.values, q.xi, |q.comms|);
    }
  }

  lemma {:induction false} FirstOutOfOrder(vk: MarlinPC.VerifierKey, comms: seq<LabeledCommitment>, from: nat)
    returns (k: nat)
    requires from <= |comms| && !D.AllInOrder(vk, comms) && forall i :: 0 <= i < from ==> D.InOrder(vk, comms[i])
    ensures k < |comms| && !D.InOrder(vk, comms[k]) && forall i :: 0 <= i < k ==> D.InOrder(vk, comms[i])
    decreases |comms| - from
  {
    k := from;
    if D.InOrder(vk, comms[from]) { k := FirstOutOfOrder(vk, comms, from + 1); }
  }

  /** A commitment without its bound or a bound without its commitment is a panic, wherever it stands;
      otherwise a bound without a shift power is an error. */
  lemma {:induction false} CombineDecides(vk: MarlinPC.VerifierKey, q: Query)
    requires Aligned(q)
    ensures CombineOne(vk, q) == Panic <==> exists i :: 0 <= i < |q.comms| && !Matched(q.comms[i])
    ensures CombineOne(vk, q).Ok? <==> D.AllInOrder(vk, q.comms)
  {
    if D.AllInOrder(vk, q.comms) {
      D.SomeOutcome(vk, q.comms, q.values, q.xi, |q.comms|);
    } else {
      var k := FirstOutOfOrder(vk, q.comms, 0);
      D.CheckFails(vk, q.comms, q.point, q.values, Proof(0, None), q.xi, k);
    }
  }

  /** The first query that cannot be combined decides. */
  lemma {:induction false} FirstFails(vk: MarlinPC.VerifierKey, qs: seq<Query>, proofs: seq<Proof>,
                                      draws: BatchChecks.Draws, k: nat)
    requires AllAligned(qs) && k < |qs| && !CombineOne(vk, qs[k]).Ok?
    requires forall i :: 0 <= i < k ==> CombineOne(vk, qs[i]).Ok?
    ensures BatchSpec(vk, qs, proofs, draws) == if CombineOne(vk, qs[k]).Err? then Err else Panic
  {
    CombinesFirst(vk, qs, k);
    CombineFails(vk, qs, k + 1, |qs|);
  }

  lemma {:induction false} CombinesFirst(vk: MarlinPC.VerifierKey, qs: seq<Query>, n: nat)
    requires n <= |qs| && AllAligned(qs) && forall i :: 0 <= i < n ==> CombineOne(vk, qs[i]).Ok?
    ensures CombineAll(vk, qs, n).Ok?
  {
    if n > 0 { CombinesFirst(vk, qs, n - 1); }
  }

  /** What stands at place i of the lists. */
  lemma {:induction false} CombinedAt(vk: MarlinPC.VerifierKey, qs: seq<Query>, n: nat, i: nat)
    requires i < n <= |qs| && AllAligned(qs) && CombineAll(vk, qs, n).Ok?
    ensures var ls := CombineAll(vk, qs, n).value;
            CombineOne(vk, qs[i]) == Ok((ls.comms[i], ls.values[i])) && ls.points[i] == qs[i].point
  {
    if i < n - 1 { CombinedAt(vk, qs, n - 1, i); }
  }

  /** With one proof for each query, batch_check fails exactly if check fails for one of them. */
  lemma {:induction false} FailsTogether(vk: MarlinPC.VerifierKey, qs: seq<Query>, proofs: seq<Proof>,
                                         draws: BatchChecks.Draws)
    requires AllAligned(qs) && |proofs| == |qs|
    ensures !BatchSpec(vk, qs, proofs, draws).Ok? <==> exists i :: 0 <= i < |qs| && !CheckOne(vk, qs[i], proofs[i]).Ok?
  {
    forall i | 0 <= i < |qs| ensures CheckOne(vk, qs[i], proofs[i]).Ok? <==> CombineOne(vk, qs[i]).Ok? {
      CheckIsCombined(vk, qs[i], proofs[i]);
    }
    if CombineAll(vk, qs, |qs|).Ok? {
      forall i | 0 <= i < |qs| ensures CombineOne(vk, qs[i]).Ok? { CombinedAt(vk, qs, |qs|, i); }
    } else if forall i :: 0 <= i < |qs| ==> CombineOne(vk, qs[i]).Ok? {
      CombinesFirst(vk, qs, |qs|);
    }
  }

  /** Where check does not fail, it accepts exactly the claims of KZG10 on the lists. */
  lemma {:induction false} ClaimsAre(vk: MarlinPC.VerifierKey, qs: seq<Query>, proofs: seq<Proof>)
    requires AllAligned(qs) && |proofs| == |qs|
    requires forall i :: 0 <= i < |qs| ==> CheckOne(vk, qs[i], proofs[i]).Ok?
    ensures CombineAll(vk, qs, |qs|).Ok?
    ensures var cs := Claims(CombineAll(vk, qs, |qs|).value, proofs);
            && |cs| == |qs|
            && forall i :: 0 <= i < |qs| ==> CheckOne(vk, qs[i], proofs[i]) == Ok(BatchChecks.Accepted(vk.vk, cs[i]))
  {
    forall i | 0 <= i < |qs| ensures CombineOne(vk, qs[i]).Ok? { CheckIsCombined(vk, qs[i], proofs[i]); }
    CombinesFirst(vk, qs, |qs|);
    var cs := Claims(CombineAll(vk, qs, |qs|).value, proofs);
    forall i | 0 <= i < |qs| ensures CheckOne(vk, qs[i], proofs[i]) == Ok(BatchChecks.Accepted(vk.vk, cs[i])) {
      CombinedAt(vk, qs, |qs|, i);
      CheckIsCombined(vk, qs[i], proofs[i]);
    }
  }

  /** Queries that check accepts one by one, batch_check accepts together. */
  lemma {:induction false} AcceptedTogether(vk: MarlinPC.VerifierKey, qs: seq<Query>, proofs: seq<Proof>,
                                            draws: BatchChecks.Draws)
    requires AllAligned(qs) && |proofs| == |qs|
    requires forall i :: 0 <= i < |qs| ==> CheckOne(vk, qs[i], proofs[i]) == Ok(true)
    ensures BatchSpec(vk, qs, proofs, draws) == Ok(true)
  {
    ClaimsAre(vk, qs, proofs);
    BatchChecks.AcceptedTogether(vk.vk, Claims(CombineAll(vk, qs, |qs|).value, proofs), draws);
  }

  /** If check accepts all queries but one and does not fail for that one, batch_check accepts
      exactly if check accepts that one too, or it is not the first and zero was drawn for it. */
  lemma {:induction false} BatchRefinesSingle(vk: MarlinPC.VerifierKey, qs: seq<Query>, proofs: seq<Proof>,
                                              draws: BatchChecks.Draws, j: nat)
    requires AllAligned(qs) && |proofs| == |qs| && j < |qs| && CheckOne(vk, qs[j], proofs[j]).Ok?
    requires forall i :: 0 <= i < |qs| && i != j ==> CheckOne(vk, qs[i], proofs[i]) == Ok(true)
    ensures BatchSpec(vk, qs, proofs, draws)
            == Ok(CheckOne(vk, qs[j], proofs[j]) == Ok(true) || (j > 0 && draws(j - 1) == 0))
  {
    ClaimsAre(vk, qs, proofs);
    BatchChecks.BatchRefinesSingle(vk.vk, Claims(CombineAll(vk, qs, |qs|).value, proofs), draws, j);
  }

  /** By how much the two sides of the equation of check differ for what is combined for a query. */
  function Imbalance(vk: MarlinPC.VerifierKey, q: Query, proof: Proof): Fp
    requires Aligned(q) && CombineOne(vk, q).Ok?
  {
    var (c, v) := CombineOne(vk, q).value;
    BatchChecks.Imbalance(vk.vk, BatchChecks.Claim(c, q.point, v, proof))
  }

  /** Where check fails for no query, batch_check compares with zero the imbalance of the first plus
      those of the others, each times what was drawn before it. */
  lemma {:induction false} BatchIs(vk: MarlinPC.VerifierKey, qs: seq<Query>, proofs: seq<Proof>,
                                   draws: BatchChecks.Draws, es: seq<Fp>)
    requires AllAligned(qs) && |proofs| == |qs| == |es|
    requires forall i :: 0 <= i < |qs| ==> CheckOne(vk, qs[i], proofs[i]).Ok?
    requires forall i :: 0 <= i < |qs| ==>
               CombineOne(vk, qs[i]).Ok? && es[i] == Imbalance(vk, qs[i], proofs[i])
    ensures BatchSpec(vk, qs, proofs, draws) == Ok(Sum(BatchChecks.Terms(es, draws)) == 0)
  {
    ClaimsAre(vk, qs, proofs);
    var cs := Claims(CombineAll(vk, qs, |qs|).value, proofs);
    forall i | 0 <= i < |qs| ensures es[i] == BatchChecks.Imbalances(vk.vk, cs)[i] { CombinedAt(vk, qs, |qs|, i); }
    assert es == BatchChecks.Imbalances(vk.vk, cs);
    BatchChecks.BatchIs(vk.vk, cs, draws);
  }

  /** A wrong number of proofs is never accepted: batch_check panics, if nothing failed before. */
  lemma {:induction false} NumberOfProofs(vk: MarlinPC.VerifierKey, qs: seq<Query>, proofs: seq<Proof>,
                                          draws: BatchChecks.Draws)
    requires AllAligned(qs) && |proofs| != |qs|
    ensures !BatchSpec(vk, qs, proofs, draws).Ok?
    ensures (forall i :: 0 <= i < |qs| ==> CombineOne(vk, qs[i]).Ok?) ==> BatchSpec(vk, qs, proofs, draws) == Panic
  {
    if forall i :: 0 <= i < |qs| ==> CombineOne(vk, qs[i]).Ok? { CombinesFirst(vk, qs, |qs|); }
  }

  /** If check accepts all queries but two and does not fail for those, batch_check accepts exactly if
      their imbalances cancel, that of the first query as it is and others times what was drawn before
      them. */
  lemma {:induction false} TwoMustCancel(vk: MarlinPC.VerifierKey, qs: seq<Query>, proofs: seq<Proof>,
                                         draws: BatchChecks.Draws, i: nat, j: nat)
    requires AllAligned(qs) && |proofs| == |qs| && i < j < |qs|
    requires CheckOne(vk, qs[i], proofs[i]).Ok? && CheckOne(vk, qs[j], proofs[j]).Ok?
    requires forall k :: 0 <= k < |qs| && k != i && k != j ==> CheckOne(vk, qs[k], proofs[k]) == Ok(true)
    ensures CombineOne(vk, qs[i]).Ok? && CombineOne(vk, qs[j]).Ok?
    ensures BatchSpec(vk, qs, proofs, draws)
            == Ok(Add(if i == 0 then Imbalance(vk, qs[i], proofs[i])
                      else Mul(draws(i - 1), Imbalance(vk, qs[i], proofs[i])),
                      Mul(draws(j - 1), Imbalance(vk, qs[j], proofs[j]))) == 0)
  {
    ClaimsAre(vk, qs, proofs);
    CombinedAt(vk, qs, |qs|, i);
    CombinedAt(vk, qs, |qs|, j);
    BatchChecks.TwoMustCancel(vk.vk, Claims(CombineAll(vk, qs, |qs|).value, proofs), draws, i, j);
  }

  // ----- honest openings

  /** What was committed and opened for a query: true values, and no blinding to lose. */
  ghost predicate IsHonest(ck: CommitterKey, ps: seq<LabeledPolynomial>, coins: seq<(seq<Fp>, seq<Fp>)>,
                           states: seq<Randomness>, q: Query, proof: Proof) {
    && CommittedAll(ck, ps, coins, q.comms, states) && q.values == Values(ps, q.point)
    && MarlinBlinding.NothingToLose(states) && OpenSpec(ck, ps, states, q.point, q.xi) == Ok(proof)
  }

  datatype Source = Source(ps: seq<LabeledPolynomial>, coins: seq<(seq<Fp>, seq<Fp>)>, states: seq<Randomness>)

  ghost predicate AllHonest(ck: CommitterKey, sources: seq<Source>, qs: seq<Query>, proofs: seq<Proof>) {
    && |sources| == |qs| == |proofs|
    && forall i :: 0 <= i < |qs| ==> IsHonest(ck, sources[i].ps, sources[i].coins, sources[i].states, qs[i], proofs[i])
  }

  /** batch_check accepts them, whatever is drawn. */
  lemma {:induction false} BatchComplete(ck: CommitterKey, vk: MarlinPC.VerifierKey, td: Trapdoor,
                                         sources: seq<Source>, qs: seq<Query>, proofs: seq<Proof>,
                                         draws: BatchChecks.Draws)
    requires MarlinCompleteness.HonestKeys(ck, vk, td) && AllHonest(ck, sources, qs, proofs)
    ensures AllAligned(qs) && BatchSpec(vk, qs, proofs, draws) == Ok(true)
  {
    forall i | 0 <= i < |qs| ensures Aligned(qs[i]) && CheckOne(vk, qs[i], proofs[i]) == Ok(true) {
      var o := sources[i];
      assert IsHonest(ck, o.ps, o.coins, o.states, qs[i], proofs[i]);
      MarlinBlinding.NothingLost(ck, vk, td, o.ps, o.coins, qs[i].comms, o.states, qs[i].point, qs[i].xi);
    }
    AcceptedTogether(vk, qs, proofs, draws);
  }
}
