/** What check accepts of the openings that the multivariate scheme produces
    (marlin_pst13_pc/mod.rs). */
module MarlinPST13Completeness {
  import opened PrimeField
  import opened SparsePolynomials
  import opened PointDivision
  import opened MarlinPST13Keys
  import opened MarlinPST13

  // ----- the witness commitments

  lemma {:induction false} WitnessValues(ck: CommitterKey, ws: seq<Poly>, s: Shape, td: Trapdoor)
    requires HonestTable(ck.powersOfG, ck.numVars, ck.supportedDegree, td)
    requires s.vars <= ck.numVars && s.degree <= ck.supportedDegree
    requires forall i :: 0 <= i < |ws| ==> Fits(ws[i], 0, s)
    ensures var w := WitnessCommitments(ck.powersOfG, ws);
            w.Some? && forall i :: 0 <= i < |ws| ==> w.value[i] == Mul(td.g, EvalPoly(ws[i], td.betas))
  {
    if ws != [] {
      CommitIsValue(ck, ws[0], s, td);
      WitnessValues(ck, ws[1..], s, td);
    }
  }

  lemma {:induction false} HidingValues(ck: CommitterKey, w: seq<Fp>, hs: seq<Poly>, t: Shape, td: Trapdoor)
    requires HonestBlinding(ck.powersOfGammaG, ck.numVars, ck.supportedDegree, td) && ck.gammaG == td.gammaG
    requires t.vars <= ck.numVars && t.degree <= ck.supportedDegree + 1 && t.width <= 1
    requires forall i :: 0 <= i < |hs| ==> Fits(hs[i], 0, t)
    ensures AddHiding(ck, w, hs).Some? <==> |w| <= |hs|
    ensures |w| <= |hs| ==> forall i :: 0 <= i < |w| ==>
              AddHiding(ck, w, hs).value[i] == Add(w[i], Mul(td.gammaG, EvalPoly(hs[i], td.betas)))
  {
    if w != [] && hs != [] {
      BlindingIsValue(ck, hs[0], t, td);
      HidingValues(ck, w[1..], hs[1..], t, td);
    }
  }

  lemma QuotientsFitAll(p: Poly, point: seq<Fp>, s: Shape)
    requires Fits(p, 0, s)
    ensures forall j :: 0 <= j < s.vars ==> Fits(DividedAtPoint(p, point, s)[j], 0, s)
  {
    forall j | 0 <= j < s.vars ensures Fits(DividedAtPoint(p, point, s)[j], 0, s) {
      var w, s' := DividedAtPoint(p, point, s)[j], s.(degree := s.degree - 1);
      DivisionFits(p, point, s, j);
      FitsLower(w, j, 0, s');
      FitsWidens(w, 0, s', s);
    }
  }

  // ----- the right-hand side

  lemma {:induction false} PairingValue(w: seq<Fp>, ws: seq<Poly>, hs: seq<Poly>, betaH: seq<Fp>, point: seq<Fp>,
                                        j: nat, td: Trapdoor)
    requires |w| == |ws| == |hs|
    requires forall i :: 0 <= i < |w| ==>
               w[i] == Add(Mul(td.g, EvalPoly(ws[i], td.betas)), Mul(td.gammaG, EvalPoly(hs[i], td.betas)))
    requires forall i :: j <= i < j + |w| ==> At(betaH, i) == Mul(td.h, At(td.betas, i))
    ensures PairingProduct(w, betaH, td.h, point, j)
            == Mul(td.h, Add(Mul(td.g, Telescoped(ws, j, point, td.betas)),
                             Mul(td.gammaG, Telescoped(hs, j, point, td.betas))))
  {
    if w == [] {
      Units(td.g);
      Units(td.gammaG);
      Units(td.h);
      Units(0);
    } else {
      PairingValue(w[1..], ws[1..], hs[1..], betaH, point, j + 1, td);
      PairingStep(td.g, td.gammaG, td.h, At(td.betas, j), At(point, j), EvalPoly(ws[0], td.betas),
                  EvalPoly(hs[0], td.betas), Telescoped(ws[1..], j + 1, point, td.betas),
                  Telescoped(hs[1..], j + 1, point, td.betas));
    }
  }

  lemma PairingStep(g: Fp, gamma: Fp, h: Fp, beta: Fp, z: Fp, a: Fp, b: Fp, t: Fp, u: Fp)
    ensures Add(Mul(Add(Mul(g, a), Mul(gamma, b)), Sub(Mul(h, beta), Mul(h, z))), Mul(h, Add(Mul(g, t), Mul(gamma, u))))
            == Mul(h, Add(Mul(g, Add(Mul(Sub(beta, z), a), t)), Mul(gamma, Add(Mul(Sub(beta, z), b), u))))
  {
    var d, w := Sub(beta, z), Add(Mul(g, a), Mul(gamma, b));
    assert Sub(Mul(h, beta), Mul(h, z)) == Mul(h, d) by { RingLaws(); }
    assert Mul(w, Mul(h, d)) == Mul(h, Add(Mul(g, Mul(d, a)), Mul(gamma, Mul(d, b)))) by {
      assert Mul(w, d) == Add(Mul(g, Mul(d, a)), Mul(gamma, Mul(d, b))) by { RingLaws(); }
      assert Mul(w, Mul(h, d)) == Mul(h, Mul(w, d)) by { RingLaws(); }
    }
    PairRegroup(g, gamma, Mul(d, a), Mul(d, b), t, u);
    Distributes(h, Add(Mul(g, Mul(d, a)), Mul(gamma, Mul(d, b))), Add(Mul(g, t), Mul(gamma, u)));
  }

  lemma PairRegroup(g: Fp, gamma: Fp, a: Fp, b: Fp, t: Fp, u: Fp)
    ensures Add(Add(Mul(g, a), Mul(gamma, b)), Add(Mul(g, t), Mul(gamma, u)))
            == Add(Mul(g, Add(a, t)), Mul(gamma, Add(b, u)))
  {
    Distributes(g, a, t);
    Distributes(gamma, b, u);
    FourSum(Mul(g, a), Mul(gamma, b), Mul(g, t), Mul(gamma, u));
  }

  lemma {:induction false} TelescopedSplit(ws: seq<Poly>, k: nat, j: nat, point: seq<Fp>, x: seq<Fp>)
    requires k <= |ws|
    ensures Telescoped(ws, j, point, x)
            == Add(Telescoped(ws[..k], j, point, x), Telescoped(ws[k..], j + k, point, x))
  {
    if k == 0 {
      assert ws[k..] == ws;
      Units(Telescoped(ws, j, point, x));
    } else {
      TelescopedSplit(ws[1..], k - 1, j + 1, point, x);
      assert ws[..k][1..] == ws[1..][..k - 1] && ws[k..] == ws[1..][k - 1..];
      AddAssociates(Mul(Sub(At(x, j), At(point, j)), EvalPoly(ws[0], x)), Telescoped(ws[..k][1..], j + 1, point, x),
                    Telescoped(ws[k..], j + k, point, x));
    }
  }

  // ----- the exact outcome

  /** The hiding witnesses that find no witness of their own: those of the variables that the
      combined polynomial does not have. */
  function Dropped(k: nat, r: Poly, point: seq<Fp>, t: Shape, betas: seq<Fp>): Fp
    requires Fits(r, 0, t)
  {
    if IsZero(r) || k > t.vars then 0 else Telescoped(DividedAtPoint(r, point, t)[k..], k, point, betas)
  }

  lemma Balance(a: Fp, b: Fp)
    ensures a == Add(b, Sub(a, b))
  {
    SubIff(a, b, Sub(a, b));
  }

  /** The two sides of the pairing equation differ by h times the excess. */
  lemma SidesDiffer(g: Fp, gamma: Fp, h: Fp, pb: Fp, pz: Fp, v: Fp, rb: Fp, rz: Fp, t: Fp, u: Fp, e: Fp)
    requires Sub(pb, pz) == t && Sub(rb, rz) == Add(u, e)
    ensures Mul(Sub(Sub(Add(Mul(g, pb), Mul(gamma, rb)), Mul(g, v)), Mul(gamma, rz)), h)
            == Add(Mul(h, Add(Mul(g, t), Mul(gamma, u))), Mul(h, Add(Mul(g, Sub(pz, v)), Mul(gamma, e))))
  {
    assert Sub(pb, v) == Add(t, Sub(pz, v)) by {
      Balance(pb, pz);
      assert Add(Add(pz, t), Neg(v)) == Add(t, Add(pz, Neg(v))) by { RingLaws(); }
    }
    assert Sub(Sub(Add(Mul(g, pb), Mul(gamma, rb)), Mul(g, v)), Mul(gamma, rz))
        == Add(Mul(g, Sub(pb, v)), Mul(gamma, Sub(rb, rz))) by {
      InnerTerms(g, gamma, pb, rb, v, rz);
    }
    PairRegroup(g, gamma, t, u, Sub(pz, v), e);
    Distributes(h, Add(Mul(g, t), Mul(gamma, u)), Add(Mul(g, Sub(pz, v)), Mul(gamma, e)));
    Commutes(h, Add(Mul(g, Sub(pb, v)), Mul(gamma, Sub(rb, rz))));
  }

  lemma InnerTerms(g: Fp, gamma: Fp, a: Fp, b: Fp, v: Fp, w: Fp)
    ensures Sub(Sub(Add(Mul(g, a), Mul(gamma, b)), Mul(g, v)), Mul(gamma, w))
            == Add(Mul(g, Sub(a, v)), Mul(gamma, Sub(b, w)))
  {
    Distributes(g, a, Neg(v));
    Distributes(gamma, b, Neg(w));
    NegDistributes(g, v);
    NegDistributes(gamma, w);
    var ga, gb, gv, gw := Mul(g, a), Mul(gamma, b), Neg(Mul(g, v)), Neg(Mul(gamma, w));
    assert Add(Add(Add(ga, gb), gv), gw) == Add(Add(ga, gv), Add(gb, gw)) by { RingLaws(); }
  }

  lemma SumIsFirst(a: Fp, b: Fp)
    ensures Add(b, a) == b <==> a == 0
  {
    Units(b);
    SubIff(b, b, a);
    SubZero(b, b);
  }

  /** What an opening without hiding consists of, and whether check accepts it. */
  lemma PlainOpening(ck: CommitterKey, vk: VerifierKey, td: Trapdoor, p: MVPolynomial, r: MVPolynomial, point: seq<Fp>,
                     s: Shape, t: Shape, v: Fp)
    requires HonestKeys(ck, vk, td) && Fits(p.terms, 0, s) && Fits(r.terms, 0, t)
    requires s.vars == p.numVars <= ck.numVars && s.degree <= ck.supportedDegree
    requires IsZero(r.terms)
    ensures var proof := OpenCombined(ck, p, r, point, s, t);
            && proof.Some? && |proof.value.w| == p.numVars
            && (CheckCombined(vk,
                              Add(Mul(td.g, EvalPoly(p.terms, td.betas)), Mul(td.gammaG, EvalPoly(r.terms, td.betas))),
                              point, v, proof.value)
                <==> Mul(td.h, Mul(td.g, Sub(EvalPoly(p.terms, point), v))) == 0)
  {
    var ws := DividedAtPoint(p.terms, point, s);
    QuotientsFitAll(p.terms, point, s);
    WitnessValues(ck, ws, s, td);
    var w := WitnessCommitments(ck.powersOfG, ws).value;
    var none: seq<Poly> := seq(|w|, i => []);
    forall i | 0 <= i < |w|
      ensures w[i] == Add(Mul(td.g, EvalPoly(ws[i], td.betas)), Mul(td.gammaG, EvalPoly(none[i], td.betas)))
    {
      Units(td.gammaG);
      Units(w[i]);
    }
    PairingValue(w, ws, none, vk.betaH, point, 0, td);
    TelescopedZeros(none, 0, point, td.betas);
    DivisionIdentity(p.terms, point, s, td.betas);
    EvalZero(r.terms, td.betas);
    PlainSides(td, EvalPoly(p.terms, td.betas), EvalPoly(p.terms, point), v, Telescoped(ws, 0, point, td.betas));
  }

  lemma PlainSides(td: Trapdoor, pb: Fp, pz: Fp, v: Fp, t: Fp)
    requires Sub(pb, pz) == t
    ensures Mul(Sub(Add(Mul(td.g, pb), Mul(td.gammaG, 0)), Mul(td.g, v)), td.h)
            == Mul(td.h, Add(Mul(td.g, t), Mul(td.gammaG, 0)))
            <==> Mul(td.h, Mul(td.g, Sub(pz, v))) == 0
  {
    var inner := Sub(Add(Mul(td.g, pb), Mul(td.gammaG, 0)), Mul(td.g, v));
    SubZero(0, 0);
    SidesDiffer(td.g, td.gammaG, td.h, pb, pz, v, 0, 0, t, 0, 0) by { Units(0); }
    assert Sub(inner, Mul(td.gammaG, 0)) == inner by {
      Units(td.gammaG);
      Units(inner);
    }
    assert Add(Mul(td.g, Sub(pz, v)), Mul(td.gammaG, 0)) == Mul(td.g, Sub(pz, v)) by {
      Units(td.gammaG);
      Units(Mul(td.g, Sub(pz, v)));
    }
    SumIsFirst(Mul(td.h, Mul(td.g, Sub(pz, v))), Mul(td.h, Add(Mul(td.g, t), Mul(td.gammaG, 0))));
  }

  /** The same with hiding: the opening exists exactly when the blinding has all variables of
      the polynomial, and the dropped hiding witnesses upset the equation. */
  lemma HidingOpening(ck: CommitterKey, vk: VerifierKey, td: Trapdoor, p: MVPolynomial, r: MVPolynomial, point: seq<Fp>,
                      s: Shape, t: Shape, v: Fp)
    requires HonestKeys(ck, vk, td) && Fits(p.terms, 0, s) && Fits(r.terms, 0, t)
    requires s.vars == p.numVars <= ck.numVars && s.degree <= ck.supportedDegree
    requires t.vars == r.numVars <= ck.numVars && t.degree <= ck.supportedDegree + 1 && t.width <= 1
    requires !IsZero(r.terms)
    ensures OpenCombined(ck, p, r, point, s, t).Some? <==> p.numVars <= r.numVars
    ensures p.numVars <= r.numVars ==>
              var proof := OpenCombined(ck, p, r, point, s, t).value;
              && |proof.w| == p.numVars
              && (CheckCombined(vk,
                                Add(Mul(td.g, EvalPoly(p.terms, td.betas)),
                                    Mul(td.gammaG, EvalPoly(r.terms, td.betas))),
                                point, v, proof)
                  <==> Mul(td.h, Add(Mul(td.g, Sub(EvalPoly(p.terms, point), v)),
                                     Mul(td.gammaG, Dropped(p.numVars, r.terms, point, t, td.betas)))) == 0)
  {
    var k := p.numVars;
    var ws, hs := DividedAtPoint(p.terms, point, s), DividedAtPoint(r.terms, point, t);
    QuotientsFitAll(p.terms, point, s);
    QuotientsFitAll(r.terms, point, t);
    WitnessValues(ck, ws, s, td);
    HidingValues(ck, WitnessCommitments(ck.powersOfG, ws).value, hs, t, td);
    if k <= r.numVars {
      var w := AddHiding(ck, WitnessCommitments(ck.powersOfG, ws).value, hs).value;
      PairingValue(w, ws, hs[..k], vk.betaH, point, 0, td);
      DivisionIdentity(p.terms, point, s, td.betas);
      DivisionIdentity(r.terms, point, t, td.betas);
      TelescopedSplit(hs, k, 0, point, td.betas);
      var tp, tr := Telescoped(ws, 0, point, td.betas), Telescoped(hs[..k], 0, point, td.betas);
      var e, pz := Dropped(k, r.terms, point, t, td.betas), EvalPoly(p.terms, point);
      SidesDiffer(td.g, td.gammaG, td.h, EvalPoly(p.terms, td.betas), pz, v, EvalPoly(r.terms, td.betas),
                  EvalPoly(r.terms, point), tp, tr, e);
      SumIsFirst(Mul(td.h, Add(Mul(td.g, Sub(pz, v)), Mul(td.gammaG, e))),
                 Mul(td.h, Add(Mul(td.g, tp), Mul(td.gammaG, tr))));
    }
  }

  // ----- commit, open, check

  /** The commitments and states that commit returned for the polynomials. */
  ghost predicate Committed(ck: CommitterKey, ps: seq<LabeledPolynomial>, coins: seq<MVPolynomial>, comms: seq<Fp>,
                            states: seq<MVPolynomial>) {
    && |ps| == |coins| == |comms| == |states|
    && forall i :: 0 <= i < |ps| ==> CommittedOne(ck, ps[i], coins[i], comms[i], states[i])
  }

  ghost predicate CommittedOne(ck: CommitterKey, p: LabeledPolynomial, coin: MVPolynomial, comm: Fp,
                               state: MVPolynomial) {
    IsInput(ck, p) && IsCoin(ck, p, coin) && CommitOne(ck, p, coin) == Ok((comm, state))
  }

  lemma CommittedValue(ck: CommitterKey, vk: VerifierKey, td: Trapdoor, p: LabeledPolynomial, coin: MVPolynomial,
                       comm: Fp, state: MVPolynomial)
    requires HonestKeys(ck, vk, td) && CommittedOne(ck, p, coin, comm, state)
    ensures comm == Add(Mul(td.g, EvalPoly(p.polynomial.terms, td.betas)),
                        Mul(td.gammaG, EvalPoly(state.terms, td.betas)))
    ensures WellFormed(p.polynomial, ck.supportedDegree, ck.numVars) && p.polynomial.numVars <= ck.numVars
    ensures WellFormed(state, ck.supportedDegree + 1, 1) && state.numVars <= ck.numVars
    ensures state.numVars == ck.numVars || state == MVPolynomial(0, [])
  {
    var f := p.polynomial;
    CommitOneIsValue(ck, vk, p, coin, td);
    FitsWidens(f.terms, 0, Shape(f.numVars, PolyDegree(f.terms), f.numVars),
               Shape(f.numVars, ck.supportedDegree, ck.numVars));
    if p.hidingBound.Some? {
      FitsWidens(coin.terms, 0, Shape(ck.numVars, p.hidingBound.value + 1, 1),
                 Shape(ck.numVars, ck.supportedDegree + 1, 1));
    }
  }

  lemma CommittedInputs(ck: CommitterKey, vk: VerifierKey, td: Trapdoor, ps: seq<LabeledPolynomial>,
                        coins: seq<MVPolynomial>, comms: seq<Fp>, states: seq<MVPolynomial>)
    requires HonestKeys(ck, vk, td) && Committed(ck, ps, coins, comms, states)
    ensures OpenInputs(Polynomials(ps), ck.numVars, ck.supportedDegree, ck.numVars)
    ensures OpenInputs(states, ck.numVars, ck.supportedDegree + 1, 1)
    ensures forall i :: 0 <= i < |ps| ==> states[i].numVars == ck.numVars || states[i] == MVPolynomial(0, [])
  {
    forall i | 0 <= i < |ps|
      ensures WellFormed(ps[i].polynomial, ck.supportedDegree, ck.numVars) && ps[i].polynomial.numVars <= ck.numVars
      ensures WellFormed(states[i], ck.supportedDegree + 1, 1) && states[i].numVars <= ck.numVars
      ensures states[i].numVars == ck.numVars || states[i] == MVPolynomial(0, [])
    {
      CommittedValue(ck, vk, td, ps[i], coins[i], comms[i], states[i]);
    }
  }

  /** The values of a list of polynomials at a point. */
  function Values(ps: seq<MVPolynomial>, x: seq<Fp>): (r: seq<Fp>)
    ensures |r| == |ps| && forall i :: 0 <= i < |ps| ==> r[i] == EvalPoly(ps[i].terms, x)
  {
    seq(|ps|, i requires 0 <= i < |ps| => EvalPoly(ps[i].terms, x))
  }

  /** The combined commitment is that of the combined polynomial and blinding. */
  lemma CombinedCommitment(ck: CommitterKey, vk: VerifierKey, td: Trapdoor, ps: seq<LabeledPolynomial>,
                           coins: seq<MVPolynomial>, comms: seq<Fp>, states: seq<MVPolynomial>, xi: Squeezes)
    requires HonestKeys(ck, vk, td) && Committed(ck, ps, coins, comms, states)
    ensures Weighted(comms, xi, |comms|)
            == Add(Mul(td.g, EvalPoly(CombinePolys(Polynomials(ps), xi, |ps|).terms, td.betas)),
                   Mul(td.gammaG, EvalPoly(CombinePolys(states, xi, |ps|).terms, td.betas)))
  {
    var vs, rs := Values(Polynomials(ps), td.betas), Values(states, td.betas);
    forall i | 0 <= i < |comms| ensures comms[i] == Add(Mul(td.g, vs[i]), Mul(td.gammaG, rs[i])) {
      CommittedValue(ck, vk, td, ps[i], coins[i], comms[i], states[i]);
    }
    WeightedOpens(comms, vs, rs, xi, |ps|, td.g, td.gammaG);
    EvalCombined(Polynomials(ps), xi, |ps|, td.betas, vs);
    EvalCombined(states, xi, |ps|, td.betas, rs);
  }

  /** Without any hiding the combined blinding is zero; with some it has all variables. */
  lemma {:induction false} CombinedBlinding(states: seq<MVPolynomial>, xi: Squeezes, n: nat, vars: nat)
    requires n <= |states|
    requires forall i :: 0 <= i < |states| ==> states[i].numVars == vars || states[i] == MVPolynomial(0, [])
    ensures CombinePolys(states, xi, n) == MVPolynomial(0, []) || CombinePolys(states, xi, n).numVars == vars
  {
    if n > 0 {
      CombinedBlinding(states, xi, n - 1, vars);
      assert [] + ScaleTerms(xi(n - 1), []) == [];
    }
  }

  /** The excess by which the two sides of the pairing equation differ. */
  function Excess(ps: seq<MVPolynomial>, states: seq<MVPolynomial>, point: seq<Fp>, values: seq<Fp>, xi: Squeezes,
                  blinding: nat, td: Trapdoor): Fp
    requires |ps| == |states| == |values| && WellFormed(CombinePolys(states, xi, |states|), blinding, 1)
  {
    var p, r := CombinePolys(ps, xi, |ps|), CombinePolys(states, xi, |states|);
    Add(Mul(td.g, Sub(EvalPoly(p.terms, point), Weighted(values, xi, |values|))),
        Mul(td.gammaG, Dropped(p.numVars, r.terms, point, Shape(r.numVars, blinding, 1), td.betas)))
  }

  /** For committed polynomials open never panics, and check accepts its proof exactly when h
      times the excess is zero. */
  lemma Exactly(ck: CommitterKey, vk: VerifierKey, td: Trapdoor, ps: seq<LabeledPolynomial>, coins: seq<MVPolynomial>,
                comms: seq<Fp>, states: seq<MVPolynomial>, point: seq<Fp>, values: seq<Fp>, xi: Squeezes,
                proof: Option<Proof>)
    requires HonestKeys(ck, vk, td) && Committed(ck, ps, coins, comms, states) && |values| == |ps|
    requires IsOpening(ck, Polynomials(ps), states, point, xi, ck.supportedDegree, ck.numVars, ck.supportedDegree + 1,
                       proof)
    ensures proof.Some? && |proof.value.w| <= ck.numVars
    ensures CheckCombined(vk, Weighted(comms, xi, |comms|), point, Weighted(values, xi, |values|), proof.value)
            <==> Mul(td.h, Excess(Polynomials(ps), states, point, values, xi, ck.supportedDegree + 1, td)) == 0
  {
    var fs, v := Polynomials(ps), Weighted(values, xi, |values|);
    var p, r := CombinePolys(fs, xi, |fs|), CombinePolys(states, xi, |states|);
    CommittedInputs(ck, vk, td, ps, coins, comms, states);
    CombinedFits(fs, xi, |fs|, ck.numVars, ck.supportedDegree, ck.numVars);
    CombinedFits(states, xi, |ps|, ck.numVars, ck.supportedDegree + 1, 1);
    CombinedCommitment(ck, vk, td, ps, coins, comms, states, xi);
    CombinedBlinding(states, xi, |ps|, ck.numVars);
    var s, t := Shape(p.numVars, ck.supportedDegree, ck.numVars), Shape(r.numVars, ck.supportedDegree + 1, 1);
    if IsZero(r.terms) {
      PlainOpening(ck, vk, td, p, r, point, s, t, v);
      assert Add(Mul(td.g, Sub(EvalPoly(p.terms, point), v)), Mul(td.gammaG, 0))
          == Mul(td.g, Sub(EvalPoly(p.terms, point), v)) by {
        Units(td.gammaG);
        Units(Mul(td.g, Sub(EvalPoly(p.terms, point), v)));
      }
    } else {
      HidingOpening(ck, vk, td, p, r, point, s, t, v);
    }
  }

  /** Nothing is hidden, or a polynomial has all variables of the key. */
  predicate NothingDropped(ck: CommitterKey, ps: seq<MVPolynomial>, states: seq<MVPolynomial>) {
    || (forall i :: 0 <= i < |states| ==> states[i] == MVPolynomial(0, []))
    || (exists i :: 0 <= i < |ps| && ps[i].numVars == ck.numVars)
  }

  lemma DroppedIsZero(ck: CommitterKey, ps: seq<MVPolynomial>, states: seq<MVPolynomial>, point: seq<Fp>, xi: Squeezes,
                      degree: nat, blinding: nat, td: Trapdoor)
    requires |ps| == |states| && NothingDropped(ck, ps, states)
    requires OpenInputs(ps, ck.numVars, degree, ck.numVars) && OpenInputs(states, ck.numVars, blinding, 1)
    requires WellFormed(CombinePolys(states, xi, |states|), blinding, 1)
    ensures var p, r := CombinePolys(ps, xi, |ps|), CombinePolys(states, xi, |states|);
            Dropped(p.numVars, r.terms, point, Shape(r.numVars, blinding, 1), td.betas) == 0
  {
    var p, r := CombinePolys(ps, xi, |ps|), CombinePolys(states, xi, |states|);
    CombinedFits(ps, xi, |ps|, ck.numVars, degree, ck.numVars);
    CombinedFits(states, xi, |states|, ck.numVars, blinding, 1);
    if forall i :: 0 <= i < |states| ==> states[i] == MVPolynomial(0, []) {
      CombinedBlinding(states, xi, |states|, 0);
      NoBlinding(states, xi, |states|);
    } else {
      assert p.numVars == ck.numVars >= r.numVars;
      if !IsZero(r.terms) && p.numVars <= r.numVars {
        assert DividedAtPoint(r.terms, point, Shape(r.numVars, blinding, 1))[p.numVars..] == [];
      }
    }
  }

  lemma {:induction false} NoBlinding(states: seq<MVPolynomial>, xi: Squeezes, n: nat)
    requires n <= |states| && forall i :: 0 <= i < |states| ==> states[i] == MVPolynomial(0, [])
    ensures CombinePolys(states, xi, n) == MVPolynomial(0, [])
  {
    if n > 0 {
      NoBlinding(states, xi, n - 1);
      assert [] + ScaleTerms(xi(n - 1), []) == [];
    }
  }

  /** Where no hiding witness is dropped and the generators are not zero, check accepts exactly
      the true combined value. */
  lemma AcceptsExactlyTheValue(ck: CommitterKey, vk: VerifierKey, td: Trapdoor, ps: seq<LabeledPolynomial>,
                               coins: seq<MVPolynomial>, comms: seq<Fp>, states: seq<MVPolynomial>, point: seq<Fp>,
                               values: seq<Fp>, xi: Squeezes, proof: Proof)
    requires HonestKeys(ck, vk, td) && Committed(ck, ps, coins, comms, states) && |values| == |ps|
    requires IsOpening(ck, Polynomials(ps), states, point, xi, ck.supportedDegree, ck.numVars, ck.supportedDegree + 1,
                       Some(proof))
    requires NothingDropped(ck, Polynomials(ps), states) && td.g != 0 && td.h != 0
    ensures CheckCombined(vk, Weighted(comms, xi, |comms|), point, Weighted(values, xi, |values|), proof)
            <==> Weighted(values, xi, |values|) == Weighted(Values(Polynomials(ps), point), xi, |ps|)
  {
    var fs, v := Polynomials(ps), Weighted(values, xi, |values|);
    var p := CombinePolys(fs, xi, |fs|);
    Exactly(ck, vk, td, ps, coins, comms, states, point, values, xi, Some(proof));
    CommittedInputs(ck, vk, td, ps, coins, comms, states);
    DroppedIsZero(ck, fs, states, point, xi, ck.supportedDegree, ck.supportedDegree + 1, td);
    EvalCombined(fs, xi, |ps|, point, Values(fs, point));
    var d := Sub(EvalPoly(p.terms, point), v);
    Units(td.gammaG);
    Units(Mul(td.g, d));
    Units(td.g);
    Units(td.h);
    if Mul(td.h, Mul(td.g, d)) == 0 {
      NoZeroDivisors(td.h, Mul(td.g, d));
      NoZeroDivisors(td.g, d);
    }
    SubZero(EvalPoly(p.terms, point), v);
  }

  /** Completeness: the true values are accepted. */
  lemma Completeness(ck: CommitterKey, vk: VerifierKey, td: Trapdoor, ps: seq<LabeledPolynomial>,
                     coins: seq<MVPolynomial>, comms: seq<Fp>, states: seq<MVPolynomial>, point: seq<Fp>,
                     xi: Squeezes, proof: Proof)
    requires HonestKeys(ck, vk, td) && Committed(ck, ps, coins, comms, states)
    requires IsOpening(ck, Polynomials(ps), states, point, xi, ck.supportedDegree, ck.numVars, ck.supportedDegree + 1,
                       Some(proof))
    requires NothingDropped(ck, Polynomials(ps), states)
    ensures CheckCombined(vk, Weighted(comms, xi, |comms|), point,
                          Weighted(Values(Polynomials(ps), point), xi, |ps|), proof)
  {
    var fs := Polynomials(ps);
    var values := Values(fs, point);
    Exactly(ck, vk, td, ps, coins, comms, states, point, values, xi, Some(proof));
    CommittedInputs(ck, vk, td, ps, coins, comms, states);
    DroppedIsZero(ck, fs, states, point, xi, ck.supportedDegree, ck.supportedDegree + 1, td);
    EvalCombined(fs, xi, |ps|, point, values);
    SubZero(EvalPoly(CombinePolys(fs, xi, |fs|).terms, point), Weighted(values, xi, |ps|));
    Units(td.g);
    Units(td.gammaG);
    Units(td.h);
    Units(0);
  }
}
