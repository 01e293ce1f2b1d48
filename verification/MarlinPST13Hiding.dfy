/** Which lists of polynomials PST13 opens completely (marlin/marlin_pst13_pc/mod.rs): exactly
    those where nothing is hidden or one polynomial has all variables of the key. */
module MarlinPST13Hiding {
  import opened PrimeField
  import opened SparsePolynomials
  import opened PointDivision
  import opened MarlinPST13Keys
  import opened MarlinPST13
  import opened MarlinPST13Completeness

  // ----- a blinding in the last variable

  /** The blinding polynomial X_{n-1}. */
  function LastVariable(n: nat): MVPolynomial
    requires n >= 1
  {
    MVPolynomial(n, [(1, [(n - 1, 1)])])
  }

  lemma LastVariableValue(n: nat, x: seq<Fp>)
    requires n >= 1
    ensures EvalPoly(LastVariable(n).terms, x) == At(x, n - 1)
  {
    EvalOne(1, [(n - 1, 1)], x);
    assert [(n - 1, 1)][1..] == [];
    assert Pow(At(x, n - 1), 1) == At(x, n - 1) by {
      assert Pow(At(x, n - 1), 0) == 1;
      Units(At(x, n - 1));
    }
    Units(At(x, n - 1));
  }

  lemma LastVariableFits(n: nat, degree: nat)
    requires n >= 1 && degree >= 1
    ensures WellFormed(LastVariable(n), degree, 1)
  {
    var p := LastVariable(n).terms;
    var t := p[0].1;
    assert t[1..] == [] && p[1..] == [];
    assert Valid(t, 0, n) && TermDegree(t) == 1;
    assert TermFits(t, 0, Shape(n, degree, 1));
  }

  lemma {:induction false} TelescopedAgreeing(ws: seq<Poly>, i: nat, point: seq<Fp>, x: seq<Fp>)
    requires forall k :: i <= k < i + |ws| ==> At(x, k) == At(point, k)
    ensures Telescoped(ws, i, point, x) == 0
    decreases |ws|
  {
    if ws != [] {
      TelescopedAgreeing(ws[1..], i + 1, point, x);
      SubZero(At(x, i), At(point, i));
      Units(EvalPoly(ws[0], x));
      Units(0);
    }
  }

  /** What is dropped when the betas and the point agree in the variables that are kept: the
      whole difference of the values of the blinding. */
  lemma {:induction false} DroppedIsDifference(k: nat, r: Poly, point: seq<Fp>, t: Shape, betas: seq<Fp>)
    requires Fits(r, 0, t) && k <= t.vars && forall i :: 0 <= i < k ==> At(betas, i) == At(point, i)
    ensures Dropped(k, r, point, t, betas) == Sub(EvalPoly(r, betas), EvalPoly(r, point))
  {
    if IsZero(r) {
      EvalZero(r, betas);
      EvalZero(r, point);
      SubZero(0, 0);
    } else {
      var hs := DividedAtPoint(r, point, t);
      DivisionIdentity(r, point, t, betas);
      TelescopedSplit(hs, k, 0, point, betas);
      TelescopedAgreeing(hs[..k], 0, point, betas);
      Units(Telescoped(hs[k..], k, point, betas));
    }
  }

  // ----- committing with that blinding

  /** Every hidden polynomial is blinded with X_{n-1}. */
  function Coins(n: nat, ps: seq<LabeledPolynomial>): (r: seq<MVPolynomial>)
    requires n >= 1
    ensures |r| == |ps| && forall i :: 0 <= i < |r| ==> r[i] == LastVariable(n)
  {
    seq(|ps|, i requires 0 <= i < |ps| => LastVariable(n))
  }

  /** The inputs that commit accepts. */
  ghost predicate Acceptable(ck: CommitterKey, ps: seq<LabeledPolynomial>) {
    forall i :: 0 <= i < |ps| ==> AcceptableOne(ck, ps[i])
  }

  ghost predicate AcceptableOne(ck: CommitterKey, p: LabeledPolynomial) {
    && IsInput(ck, p) && PolyDegree(p.polynomial.terms) <= ck.supportedDegree
    && (p.hidingBound.Some? ==> 1 <= p.hidingBound.value <= ck.supportedDegree)
  }

  function CommOf(ck: CommitterKey, p: LabeledPolynomial): Fp
    requires ck.numVars >= 1
  {
    var r := CommitOne(ck, p, LastVariable(ck.numVars));
    if r.Ok? then r.value.0 else 0
  }

  function StateOf(n: nat, p: LabeledPolynomial): MVPolynomial
    requires n >= 1
  {
    if p.hidingBound.Some? then LastVariable(n) else MVPolynomial(0, [])
  }

  function Comms(ck: CommitterKey, ps: seq<LabeledPolynomial>): (r: seq<Fp>)
    requires ck.numVars >= 1
    ensures |r| == |ps| && forall i :: 0 <= i < |r| ==> r[i] == CommOf(ck, ps[i])
  {
    seq(|ps|, i requires 0 <= i < |ps| => CommOf(ck, ps[i]))
  }

  function States(n: nat, ps: seq<LabeledPolynomial>): (r: seq<MVPolynomial>)
    requires n >= 1
    ensures |r| == |ps| && forall i :: 0 <= i < |r| ==> r[i] == StateOf(n, ps[i])
  {
    seq(|ps|, i requires 0 <= i < |ps| => StateOf(n, ps[i]))
  }

  lemma CommitsOne(ck: CommitterKey, vk: VerifierKey, td: Trapdoor, p: LabeledPolynomial)
    requires HonestKeys(ck, vk, td) && ck.numVars >= 1 && AcceptableOne(ck, p)
    ensures CommittedOne(ck, p, LastVariable(ck.numVars), CommOf(ck, p), StateOf(ck.numVars, p))
  {
    if p.hidingBound.Some? { LastVariableFits(ck.numVars, p.hidingBound.value + 1); }
    CommitOneIsValue(ck, vk, p, LastVariable(ck.numVars), td);
  }

  lemma {:induction false} CommitsAll(ck: CommitterKey, vk: VerifierKey, td: Trapdoor, ps: seq<LabeledPolynomial>)
    requires HonestKeys(ck, vk, td) && ck.numVars >= 1 && Acceptable(ck, ps)
    ensures Committed(ck, ps, Coins(ck.numVars, ps), Comms(ck, ps), States(ck.numVars, ps))
  {
    forall i | 0 <= i < |ps|
      ensures CommittedOne(ck, ps[i], Coins(ck.numVars, ps)[i], Comms(ck, ps)[i], States(ck.numVars, ps)[i])
    {
      assert AcceptableOne(ck, ps[i]);
      CommitsOne(ck, vk, td, ps[i]);
    }
  }

  /** The challenge of polynomial j is one, all others are zero. */
  function Only(j: nat): Squeezes {
    (i: nat) => if i == j then 1 else 0
  }

  lemma {:induction false} WeightedOnly(values: seq<Fp>, j: nat, n: nat)
    requires n <= |values|
    ensures Weighted(values, Only(j), n) == if j < n then values[j] else 0
  {
    if n > 0 {
      WeightedOnly(values, j, n - 1);
      Units(values[n - 1]);
      Units(if j < n - 1 then values[j] else 0);
    }
  }

  /** With that challenge the combined blinding has the value of state j. */
  lemma {:induction false} BlindingOnly(states: seq<MVPolynomial>, j: nat, x: seq<Fp>)
    requires j < |states|
    ensures EvalPoly(CombinePolys(states, Only(j), |states|).terms, x) == EvalPoly(states[j].terms, x)
  {
    EvalCombined(states, Only(j), |states|, x, Values(states, x));
    WeightedOnly(Values(states, x), j, |states|);
  }

  /** What open ends in for committed polynomials. */
  lemma {:induction false} Opens(ck: CommitterKey, vk: VerifierKey, td: Trapdoor, ps: seq<LabeledPolynomial>,
                                 coins: seq<MVPolynomial>, comms: seq<Fp>, states: seq<MVPolynomial>, point: seq<Fp>,
                                 xi: Squeezes) returns (proof: Proof)
    requires HonestKeys(ck, vk, td) && Committed(ck, ps, coins, comms, states)
    ensures IsOpening(ck, Polynomials(ps), states, point, xi, ck.supportedDegree, ck.numVars, ck.supportedDegree + 1,
                      Some(proof))
  {
    var fs := Polynomials(ps);
    CommittedInputs(ck, vk, td, ps, coins, comms, states);
    CombinedFits(fs, xi, |fs|, ck.numVars, ck.supportedDegree, ck.numVars);
    CombinedFits(states, xi, |states|, ck.numVars, ck.supportedDegree + 1, 1);
    var p, r := CombinePolys(fs, xi, |fs|), CombinePolys(states, xi, |states|);
    var opening := OpenCombined(ck, p, r, point, Shape(p.numVars, ck.supportedDegree, ck.numVars),
                                Shape(r.numVars, ck.supportedDegree + 1, 1));
    Exactly(ck, vk, td, ps, coins, comms, states, point, Values(fs, point), xi, opening);
    proof := opening.value;
  }

  /** The true values are accepted. */
  ghost predicate AcceptsTrueValues(vk: VerifierKey, ps: seq<LabeledPolynomial>, comms: seq<Fp>, point: seq<Fp>,
                                    xi: Squeezes, proof: Proof)
    requires |comms| == |ps|
  {
    CheckCombined(vk, Weighted(comms, xi, |comms|), point, Weighted(Values(Polynomials(ps), point), xi, |ps|), proof)
  }

  /** The excess when polynomial j is hidden behind X_{n-1}, alone in the combination, and the
      point agrees with the betas in all variables that some polynomial has. */
  lemma {:induction false} HiddenExcess(ck: CommitterKey, td: Trapdoor, ps: seq<LabeledPolynomial>, j: nat,
                                        point: seq<Fp>, excess: Fp)
    requires ck.numVars >= 1 && j < |ps| && ps[j].hidingBound.Some?
    requires OpenInputs(Polynomials(ps), ck.numVars, ck.supportedDegree, ck.numVars)
    requires OpenInputs(States(ck.numVars, ps), ck.numVars, ck.supportedDegree + 1, 1)
    requires WellFormed(CombinePolys(States(ck.numVars, ps), Only(j), |ps|), ck.supportedDegree + 1, 1)
    requires forall i :: 0 <= i < CombinePolys(Polynomials(ps), Only(j), |ps|).numVars ==>
               At(td.betas, i) == At(point, i)
    requires excess == Excess(Polynomials(ps), States(ck.numVars, ps), point, Values(Polynomials(ps), point), Only(j),
                              ck.supportedDegree + 1, td)
    ensures excess == Mul(td.gammaG, Sub(At(td.betas, ck.numVars - 1), At(point, ck.numVars - 1)))
  {
    var n, fs, states := ck.numVars, Polynomials(ps), States(ck.numVars, ps);
    CombinedFits(fs, Only(j), |fs|, n, ck.supportedDegree, n);
    CombinedFits(states, Only(j), |states|, n, ck.supportedDegree + 1, 1);
    var p, r := CombinePolys(fs, Only(j), |fs|), CombinePolys(states, Only(j), |states|);
    assert states[j].numVars == n;
    DroppedIsDifference(p.numVars, r.terms, point, Shape(r.numVars, ck.supportedDegree + 1, 1), td.betas);
    BlindingOnly(states, j, td.betas);
    BlindingOnly(states, j, point);
    LastVariableValue(n, td.betas);
    LastVariableValue(n, point);
    ExcessOfTrueValues(ps, states, point, Only(j), ck.supportedDegree + 1, td);
  }

  /** The true values are then accepted exactly if h * gamma * (beta_{n-1} - z_{n-1}) is zero. */
  lemma {:induction false} HiddenBehindLast(ck: CommitterKey, vk: VerifierKey, td: Trapdoor,
                                            ps: seq<LabeledPolynomial>, j: nat,
                                            point: seq<Fp>, proof: Proof)
    requires HonestKeys(ck, vk, td) && ck.numVars >= 1 && Acceptable(ck, ps)
    requires j < |ps| && ps[j].hidingBound.Some?
    requires IsOpening(ck, Polynomials(ps), States(ck.numVars, ps), point, Only(j), ck.supportedDegree, ck.numVars,
                       ck.supportedDegree + 1, Some(proof))
    requires forall i :: 0 <= i < CombinePolys(Polynomials(ps), Only(j), |ps|).numVars ==>
               At(td.betas, i) == At(point, i)
    ensures AcceptsTrueValues(vk, ps, Comms(ck, ps), point, Only(j), proof)
            <==> Mul(td.h, Mul(td.gammaG, Sub(At(td.betas, ck.numVars - 1), At(point, ck.numVars - 1)))) == 0
  {
    var n, states := ck.numVars, States(ck.numVars, ps);
    CommitsAll(ck, vk, td, ps);
    CommittedInputs(ck, vk, td, ps, Coins(n, ps), Comms(ck, ps), states);
    var excess := TrueExcess(ck, vk, td, ps, Coins(n, ps), Comms(ck, ps), states, point, Only(j), proof);
    HiddenExcess(ck, td, ps, j, point, excess);
  }

  /** The true values are accepted exactly if h times their excess is zero. */
  lemma {:induction false} TrueExcess(ck: CommitterKey, vk: VerifierKey, td: Trapdoor, ps: seq<LabeledPolynomial>,
                                      coins: seq<MVPolynomial>, comms: seq<Fp>, states: seq<MVPolynomial>,
                                      point: seq<Fp>, xi: Squeezes, proof: Proof) returns (excess: Fp)
    requires HonestKeys(ck, vk, td) && Committed(ck, ps, coins, comms, states)
    requires IsOpening(ck, Polynomials(ps), states, point, xi, ck.supportedDegree, ck.numVars, ck.supportedDegree + 1,
                       Some(proof))
    ensures WellFormed(CombinePolys(states, xi, |states|), ck.supportedDegree + 1, 1)
    ensures excess == Excess(Polynomials(ps), states, point, Values(Polynomials(ps), point), xi,
                             ck.supportedDegree + 1, td)
    ensures AcceptsTrueValues(vk, ps, comms, point, xi, proof) <==> Mul(td.h, excess) == 0
  {
    excess := Excess(Polynomials(ps), states, point, Values(Polynomials(ps), point), xi, ck.supportedDegree + 1, td);
    Exactly(ck, vk, td, ps, coins, comms, states, point, Values(Polynomials(ps), point), xi, Some(proof));
  }

  /** For true values only the dropped witnesses are in excess. */
  lemma {:induction false} ExcessOfTrueValues(ps: seq<LabeledPolynomial>, states: seq<MVPolynomial>, point: seq<Fp>,
                                              xi: Squeezes, blinding: nat, td: Trapdoor)
    requires |ps| == |states| && WellFormed(CombinePolys(states, xi, |states|), blinding, 1)
    ensures var p, r := CombinePolys(Polynomials(ps), xi, |ps|), CombinePolys(states, xi, |states|);
            Excess(Polynomials(ps), states, point, Values(Polynomials(ps), point), xi, blinding, td)
            == Mul(td.gammaG, Dropped(p.numVars, r.terms, point, Shape(r.numVars, blinding, 1), td.betas))
  {
    var fs := Polynomials(ps);
    EvalCombined(fs, xi, |fs|, point, Values(fs, point));
    SubZero(EvalPoly(CombinePolys(fs, xi, |fs|).terms, point), Weighted(Values(fs, point), xi, |fs|));
    Units(td.g);
    var p, r := CombinePolys(fs, xi, |fs|), CombinePolys(states, xi, |states|);
    Units(Mul(td.gammaG, Dropped(p.numVars, r.terms, point, Shape(r.numVars, blinding, 1), td.betas)));
  }

  // ----- the failing input and the exact condition

  /** An input for which the true value is rejected: the zero polynomial in no variables, hidden
      with bound 1 behind X_{n-1}.  It is accepted only if the last coordinate of the point is
      the secret one, or a generator is zero. */
  lemma {:induction false} DroppedWitnessRejects(ck: CommitterKey, vk: VerifierKey, td: Trapdoor, point: seq<Fp>)
    requires HonestKeys(ck, vk, td) && ck.numVars >= 1 && ck.supportedDegree >= 1
    ensures var ps, coins := [LabeledPolynomial(MVPolynomial(0, []), Some(1))], [LastVariable(ck.numVars)];
            var comms, xi := [CommOf(ck, ps[0])], Only(0);
            && Committed(ck, ps, coins, comms, coins)
            && exists proof :: IsOpening(ck, Polynomials(ps), coins, point, xi, ck.supportedDegree, ck.numVars,
                                         ck.supportedDegree + 1, Some(proof))
                               && (AcceptsTrueValues(vk, ps, comms, point, xi, proof)
                                   <==> Mul(td.h, Mul(td.gammaG, Sub(At(td.betas, ck.numVars - 1),
                                                                     At(point, ck.numVars - 1)))) == 0)
  {
    var ps, n := [LabeledPolynomial(MVPolynomial(0, []), Some(1))], ck.numVars;
    assert AcceptableOne(ck, ps[0]);
    CommitsAll(ck, vk, td, ps);
    assert Coins(n, ps) == [LastVariable(n)] == States(n, ps) && Comms(ck, ps) == [CommOf(ck, ps[0])];
    var proof := Opens(ck, vk, td, ps, Coins(n, ps), Comms(ck, ps), States(n, ps), point, Only(0));
    HiddenBehindLast(ck, vk, td, ps, 0, point, proof);
  }

  ghost predicate CompleteAt(ck: CommitterKey, vk: VerifierKey, ps: seq<LabeledPolynomial>, coins: seq<MVPolynomial>,
                             comms: seq<Fp>, states: seq<MVPolynomial>, point: seq<Fp>, xi: Squeezes, proof: Proof) {
    Committed(ck, ps, coins, comms, states)
    && IsOpening(ck, Polynomials(ps), states, point, xi, ck.supportedDegree, ck.numVars, ck.supportedDegree + 1,
                 Some(proof))
    ==> AcceptsTrueValues(vk, ps, comms, point, xi, proof)
  }

  /** Whatever is committed and opened, with whatever coins, challenges and point, the true
      values are accepted. */
  ghost predicate AlwaysComplete(ck: CommitterKey, vk: VerifierKey, ps: seq<LabeledPolynomial>) {
    forall coins, comms, states, point, xi, proof :: CompleteAt(ck, vk, ps, coins, comms, states, point, xi, proof)
  }

  predicate NothingHidden(ps: seq<LabeledPolynomial>) {
    forall i :: 0 <= i < |ps| ==> ps[i].hidingBound.None?
  }

  predicate SomeFull(numVars: nat, ps: seq<LabeledPolynomial>) {
    exists i :: 0 <= i < |ps| && ps[i].polynomial.numVars == numVars
  }

  /** The scheme is complete for a list of polynomials exactly if nothing is hidden or one of
      them has all variables of the key. */
  lemma {:induction false} CompleteIff(ck: CommitterKey, vk: VerifierKey, td: Trapdoor, ps: seq<LabeledPolynomial>)
    requires HonestKeys(ck, vk, td) && Acceptable(ck, ps) && td.h != 0 && td.gammaG != 0
    requires ck.numVars <= |td.betas|
    ensures AlwaysComplete(ck, vk, ps) <==> NothingHidden(ps) || SomeFull(ck.numVars, ps)
  {
    if NothingHidden(ps) || SomeFull(ck.numVars, ps) {
      forall coins, comms, states, point, xi, proof
        ensures CompleteAt(ck, vk, ps, coins, comms, states, point, xi, proof)
      {
        KeepsAll(ck, vk, td, ps, coins, comms, states, point, xi, proof);
      }
    } else {
      var j :| 0 <= j < |ps| && ps[j].hidingBound.Some?;
      Incomplete(ck, vk, td, ps, j);
    }
  }

  lemma {:induction false} KeepsAll(ck: CommitterKey, vk: VerifierKey, td: Trapdoor, ps: seq<LabeledPolynomial>,
                                    coins: seq<MVPolynomial>, comms: seq<Fp>, states: seq<MVPolynomial>,
                                    point: seq<Fp>, xi: Squeezes, proof: Proof)
    requires HonestKeys(ck, vk, td) && (NothingHidden(ps) || SomeFull(ck.numVars, ps))
    ensures CompleteAt(ck, vk, ps, coins, comms, states, point, xi, proof)
  {
    if Committed(ck, ps, coins, comms, states)
       && IsOpening(ck, Polynomials(ps), states, point, xi, ck.supportedDegree, ck.numVars, ck.supportedDegree + 1,
                    Some(proof))
    {
      KeepsWitnesses(ck, ps, coins, comms, states);
      Completeness(ck, vk, td, ps, coins, comms, states, point, xi, proof);
    }
  }

  lemma {:induction false} KeepsWitnesses(ck: CommitterKey, ps: seq<LabeledPolynomial>, coins: seq<MVPolynomial>,
                                          comms: seq<Fp>, states: seq<MVPolynomial>)
    requires Committed(ck, ps, coins, comms, states) && (NothingHidden(ps) || SomeFull(ck.numVars, ps))
    ensures NothingDropped(ck, Polynomials(ps), states)
  {
    if NothingHidden(ps) {
      forall i | 0 <= i < |ps| ensures states[i] == MVPolynomial(0, []) {
        assert CommittedOne(ck, ps[i], coins[i], comms[i], states[i]);
      }
    } else {
      var i :| 0 <= i < |ps| && ps[i].polynomial.numVars == ck.numVars;
      assert Polynomials(ps)[i].numVars == ck.numVars;
    }
  }

  lemma {:induction false} Incomplete(ck: CommitterKey, vk: VerifierKey, td: Trapdoor, ps: seq<LabeledPolynomial>,
                                      j: nat)
    requires HonestKeys(ck, vk, td) && Acceptable(ck, ps) && td.h != 0 && td.gammaG != 0
    requires ck.numVars <= |td.betas|
    requires j < |ps| && ps[j].hidingBound.Some? && !SomeFull(ck.numVars, ps)
    ensures !AlwaysComplete(ck, vk, ps)
  {
    assert AcceptableOne(ck, ps[j]);
    var n := ck.numVars;
    CommitsAll(ck, vk, td, ps);
    var point := td.betas[n - 1 := Add(td.betas[n - 1], 1)];
    var proof := Opens(ck, vk, td, ps, Coins(n, ps), Comms(ck, ps), States(n, ps), point, Only(j));
    LacksLast(ps, Only(j), n, |ps|);
    HiddenBehindLast(ck, vk, td, ps, j, point, proof);
    var d := Sub(td.betas[n - 1], Add(td.betas[n - 1], 1));
    NotItself(td.betas[n - 1]);
    NonZeroProducts(td.h, td.gammaG, d);
    RejectedOnce(ck, vk, ps, Coins(n, ps), Comms(ck, ps), States(n, ps), point, Only(j), proof);
  }

  lemma {:induction false} RejectedOnce(ck: CommitterKey, vk: VerifierKey, ps: seq<LabeledPolynomial>,
                                        coins: seq<MVPolynomial>, comms: seq<Fp>, states: seq<MVPolynomial>,
                                        point: seq<Fp>, xi: Squeezes, proof: Proof)
    requires Committed(ck, ps, coins, comms, states) && !AcceptsTrueValues(vk, ps, comms, point, xi, proof)
    requires IsOpening(ck, Polynomials(ps), states, point, xi, ck.supportedDegree, ck.numVars, ck.supportedDegree + 1,
                       Some(proof))
    ensures !AlwaysComplete(ck, vk, ps)
  {
    assert !CompleteAt(ck, vk, ps, coins, comms, states, point, xi, proof);
  }

  lemma NotItself(b: Fp)
    ensures Sub(b, Add(b, 1)) != 0
  {
    SubZero(b, Add(b, 1));
    assert Add(b, 1) == b ==> 1 == Sub(b, b) by { SubIff(b, b, 1); }
    SubZero(b, b);
  }

  /** A combination of polynomials in fewer variables has fewer variables. */
  lemma {:induction false} LacksLast(ps: seq<LabeledPolynomial>, xi: Squeezes, n: nat, k: nat)
    requires n >= 1 && k <= |ps| && forall i :: 0 <= i < |ps| ==> ps[i].polynomial.numVars < n
    ensures CombinePolys(Polynomials(ps), xi, k).numVars < n
  {
    if k > 0 { LacksLast(ps, xi, n, k - 1); }
  }
}
