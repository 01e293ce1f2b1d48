/** What the verifier of the streaming KZG scheme decides (streaming_kzg/mod.rs), for whatever
    commitments, values and proof it is given. */
module KzgDecisions {
  import opened PrimeField
  import opened Vectors
  import opened Polynomials
  import opened Division
  import opened Lagrange
  import opened StreamingKzg
  import opened KzgVerifier
  import opened StreamingFolding
  import opened FoldingOpening

  /** One polynomial at one point: the commitment less g times the value against the proof times
      tau - alpha. */
  lemma VerifyDecides(ck: CommitterKey, vk: VerifierKey, g: Fp, h: Fp, tau: Fp, commitment: Fp, alpha: Fp, v: Fp,
                      proof: Fp)
    requires HonestKeys(ck, vk, g, h, tau) && h != 0 && |vk.powersOfG| >= 1
    ensures Verify(vk, commitment, alpha, v, proof) <==> Sub(commitment, Mul(g, v)) == Mul(proof, Sub(tau, alpha))
  {
    InnerPowers(h, tau, |vk.powersOfG2|, [Neg(alpha), 1]);
    EvalLinear(alpha, tau);
    SameFactor(h, Sub(commitment, Mul(g, v)), proof, Sub(tau, alpha));
  }

  lemma SameFactor(h: Fp, a: Fp, p: Fp, z: Fp)
    requires h != 0
    ensures Mul(a, h) == Mul(p, Mul(h, z)) <==> a == Mul(p, z)
  {
    Commutes(a, h);
    MulSwaps(p, h, z);
    if Mul(h, a) == Mul(h, Mul(p, z)) { CancelFactor(h, a, Mul(p, z)); }
  }

  // ----- several polynomials at several points

  /** A polynomial with at most as many coefficients as there are points, through the values of the
      row; a missing value counts as zero. */
  ghost predicate Interpolates(p: seq<Fp>, points: seq<Fp>, row: seq<Fp>) {
    |p| <= |points| && forall k :: 0 <= k < |points| ==> Eval(p, points[k]) == Coef(row, k)
  }

  ghost predicate InterpolatesAll(ps: seq<seq<Fp>>, points: seq<Fp>, evaluations: seq<seq<Fp>>) {
    |ps| == |evaluations| && forall i :: 0 <= i < |ps| ==> Interpolates(ps[i], points, evaluations[i])
  }

  lemma {:induction false} InterpolantIs(points: seq<Fp>, row: seq<Fp>, scaInverse: seq<Fp>, lang: seq<seq<Fp>>,
                                         p: seq<Fp>)
    requires LagrangeBasis(points, scaInverse, lang) && Distinct(points) && |points| >= 1
    requires Interpolates(p, points, row)
    ensures var q := Interpolant(row, scaInverse, lang, Paired(|points|, |row|)); |q| <= |points| && PolyEq(q, p)
  {
    var n := Paired(|points|, |row|);
    var q := Interpolant(row, scaInverse, lang, n);
    InterpolantLength(points, row, scaInverse, lang, n);
    forall x | x in points ensures Eval(q, x) == Eval(p, x) {
      var k :| 0 <= k < |points| && points[k] == x;
      InterpolantEval(points, row, scaInverse, lang, n, k);
    }
    InterpolantUnique(q, p, points);
  }

  /** The commitments, each less g times the value of its interpolant at tau. */
  function Residuals(g: Fp, tau: Fp, commitments: seq<Fp>, ps: seq<seq<Fp>>): (r: seq<Fp>)
    ensures |r| == |ps|
    ensures forall i :: 0 <= i < |r| ==> r[i] == Sub(Coef(commitments, i), Mul(g, Eval(ps[i], tau)))
  {
    seq(|ps|, i requires 0 <= i < |ps| => Sub(Coef(commitments, i), Mul(g, Eval(ps[i], tau))))
  }

  /** The first n elements, with zeros where there are fewer. */
  function Cut(s: seq<Fp>, n: nat): (r: seq<Fp>)
    ensures |r| == n && forall i :: 0 <= i < n ==> r[i] == Coef(s, i)
  {
    seq(n, i requires 0 <= i < n => Coef(s, i))
  }

  lemma InnerOfCut(a: seq<Fp>, s: seq<Fp>)
    ensures Inner(s, a) == Inner(a, Cut(s, |a|))
  {
    InnerCommutes(s, a);
    if |s| <= |a| {
      forall k: nat ensures Coef(s, k) == Coef(Cut(s, |a|), k) {
      }
      InnerPolyEq(a, s, Cut(s, |a|));
    } else {
      InnerCommutes(a, s);
      InnerCut(s, a, |a|);
      InnerCommutes(s[..|a|], a);
      assert s[..|a|] == Cut(s, |a|);
    }
  }

  /** The combination of the residuals. */
  lemma {:induction false} CombinedResiduals(g: Fp, tau: Fp, commitments: seq<Fp>, ps: seq<seq<Fp>>, etas: seq<Fp>)
    requires |etas| == |ps|
    ensures Inner(etas, Residuals(g, tau, commitments, ps))
            == Sub(Inner(commitments, etas), Mul(g, Inner(etas, Evaluations(ps, tau))))
  {
    var c, e, r := Cut(commitments, |ps|), Evaluations(ps, tau), Residuals(g, tau, commitments, ps);
    forall i | 0 <= i < |r| ensures r[i] == Plus(c, Scale(Neg(g), e))[i] {
      CoefPlus(c, Scale(Neg(g), e), i);
      ScaleIndex(Neg(g), e, i);
      NegTimes(g, e[i]);
    }
    assert r == Plus(c, Scale(Neg(g), e));
    InnerPlusRight(c, Scale(Neg(g), e), etas);
    InnerScale(Neg(g), e, etas);
    NegTimes(g, Inner(etas, e));
    InnerOfCut(etas, commitments);
  }

  lemma {:induction false} SameEvaluations(ps: seq<seq<Fp>>, qs: seq<seq<Fp>>, x: Fp)
    requires |ps| == |qs| && forall i :: 0 <= i < |ps| ==> PolyEq(ps[i], qs[i])
    ensures Evaluations(ps, x) == Evaluations(qs, x)
  {
    forall i | 0 <= i < |ps| ensures Evaluations(ps, x)[i] == Evaluations(qs, x)[i] { EvalPolyEq(ps[i], qs[i], x); }
  }

  /** For whatever commitments, rows of values and proof the equation holds exactly if the residuals
      r_i, taken as the coefficients of a polynomial at the challenge, add up to
      proof * prod (tau - p): sum challenge^i r_i. */
  lemma MultiPointDecides(ck: CommitterKey, vk: VerifierKey, g: Fp, h: Fp, tau: Fp, commitments: seq<Fp>,
                          points: seq<Fp>, evaluations: seq<seq<Fp>>, ps: seq<seq<Fp>>, proof: Fp, openChal: Fp,
                          scaInverse: seq<Fp>, lang: seq<seq<Fp>>)
    requires HonestKeys(ck, vk, g, h, tau) && h != 0 && evaluations != []
    requires Distinct(points) && 1 <= |points| < |vk.powersOfG2| && LagrangeBasis(points, scaInverse, lang)
    requires InterpolatesAll(ps, points, evaluations)
    ensures MultiPointEquation(vk, commitments, points, evaluations, proof, openChal, scaInverse, lang)
            <==> Eval(Residuals(g, tau, commitments, ps), openChal) == Mul(proof, Product(points, tau))
  {
    var n := |evaluations|;
    var etas, interpolants := PowersFrom(1, openChal, n), Interpolants(evaluations, scaInverse, lang, |points|);
    forall i | 0 <= i < n ensures |interpolants[i]| <= |points| && PolyEq(interpolants[i], ps[i]) {
      InterpolantIs(points, evaluations[i], scaInverse, lang, ps[i]);
    }
    var iPoly := LinearCombination(interpolants, etas).value;
    assert Inner(vk.powersOfG, iPoly) == Mul(g, Inner(etas, Evaluations(ps, tau))) by {
      CombinationLength(interpolants, etas, |points|);
      InnerPowers(g, tau, |vk.powersOfG|, iPoly);
      CombinationEval(interpolants, etas, tau);
      SameEvaluations(interpolants, ps, tau);
    }
    CombinedResiduals(g, tau, commitments, ps, etas);
    InnerPowers(1, openChal, n, Residuals(g, tau, commitments, ps));
    Units(Eval(Residuals(g, tau, commitments, ps), openChal));
    InnerPowers(h, tau, |vk.powersOfG2|, Vanishing(points));
    VanishingEval(points, tau);
    SameFactor(h, Eval(Residuals(g, tau, commitments, ps), openChal), proof, Product(points, tau));
  }

  /** By how much the interpolants of two tables differ at tau. */
  function Differences(ps: seq<seq<Fp>>, qs: seq<seq<Fp>>, tau: Fp): (r: seq<Fp>)
    requires |ps| == |qs|
    ensures |r| == |ps| && forall i :: 0 <= i < |r| ==> r[i] == Sub(Eval(ps[i], tau), Eval(qs[i], tau))
  {
    seq(|ps|, i requires 0 <= i < |ps| => Sub(Eval(ps[i], tau), Eval(qs[i], tau)))
  }

  lemma {:induction false} ResidualsDiffer(g: Fp, tau: Fp, commitments: seq<Fp>, ps: seq<seq<Fp>>, qs: seq<seq<Fp>>,
                                           x: Fp)
    requires |ps| == |qs|
    ensures Eval(Residuals(g, tau, commitments, qs), x)
            == Add(Eval(Residuals(g, tau, commitments, ps), x), Mul(g, Eval(Differences(ps, qs, tau), x)))
  {
    var rp, rq, d := Residuals(g, tau, commitments, ps), Residuals(g, tau, commitments, qs), Differences(ps, qs, tau);
    forall i | 0 <= i < |rq| ensures rq[i] == Plus(rp, Scale(g, d))[i] {
      CoefPlus(rp, Scale(g, d), i);
      ScaleIndex(g, d, i);
      OtherResidual(Coef(commitments, i), g, Eval(ps[i], tau), Eval(qs[i], tau));
    }
    assert rq == Plus(rp, Scale(g, d));
    EvalPlus(rp, Scale(g, d), x);
    EvalScale(g, d, x);
  }

  lemma OtherResidual(c: Fp, g: Fp, a: Fp, b: Fp)
    ensures Sub(c, Mul(g, b)) == Add(Sub(c, Mul(g, a)), Mul(g, Sub(a, b)))
  {
    FactorOut(g, a, b);
    var ga, gb := Mul(g, a), Mul(g, b);
    SubIff(ga, gb, Sub(ga, gb));
    assert Add(Add(Sub(c, ga), Sub(ga, gb)), gb) == Add(Sub(c, ga), Add(gb, Sub(ga, gb))) by { RingLaws(); }
    SubIff(c, ga, Sub(c, ga));
    Commutes(ga, Sub(c, ga));
    Commutes(gb, Add(Sub(c, ga), Sub(ga, gb)));
    SubIff(c, gb, Add(Sub(c, ga), Sub(ga, gb)));
  }

  /** A proof that is accepted with one table is accepted with another one exactly if the
      combination of the differences of the interpolants vanishes at tau. */
  lemma OtherTable(ck: CommitterKey, vk: VerifierKey, g: Fp, h: Fp, tau: Fp, commitments: seq<Fp>, points: seq<Fp>,
                   table: seq<seq<Fp>>, ps: seq<seq<Fp>>, table': seq<seq<Fp>>, qs: seq<seq<Fp>>, proof: Fp,
                   openChal: Fp, scaInverse: seq<Fp>, lang: seq<seq<Fp>>)
    requires HonestKeys(ck, vk, g, h, tau) && g != 0 && h != 0 && table != [] && |table'| == |table|
    requires Distinct(points) && 1 <= |points| < |vk.powersOfG2| && LagrangeBasis(points, scaInverse, lang)
    requires InterpolatesAll(ps, points, table) && InterpolatesAll(qs, points, table')
    requires MultiPointEquation(vk, commitments, points, table, proof, openChal, scaInverse, lang)
    ensures MultiPointEquation(vk, commitments, points, table', proof, openChal, scaInverse, lang)
            <==> Eval(Differences(ps, qs, tau), openChal) == 0
  {
    MultiPointDecides(ck, vk, g, h, tau, commitments, points, table, ps, proof, openChal, scaInverse, lang);
    MultiPointDecides(ck, vk, g, h, tau, commitments, points, table', qs, proof, openChal, scaInverse, lang);
    ResidualsDiffer(g, tau, commitments, ps, qs, openChal);
    var r, d := Eval(Residuals(g, tau, commitments, ps), openChal), Eval(Differences(ps, qs, tau), openChal);
    SubIff(r, r, Mul(g, d));
    SubZero(r, r);
    Units(g);
    if Mul(g, d) == 0 { NoZeroDivisors(g, d); }
  }

  /** The honest proof of batch_open_multi_points with any table: ps takes the true values, qs the
      claimed ones. */
  lemma HonestProofExactly(ck: CommitterKey, vk: VerifierKey, g: Fp, h: Fp, tau: Fp, polynomials: seq<seq<Fp>>,
                           points: seq<Fp>, openChal: Fp, q: seq<Fp>, r: seq<Fp>, claimed: seq<seq<Fp>>,
                           ps: seq<seq<Fp>>, qs: seq<seq<Fp>>, scaInverse: seq<Fp>, lang: seq<seq<Fp>>)
    requires HonestKeys(ck, vk, g, h, tau) && g != 0 && h != 0
    requires Distinct(points) && 1 <= |points| < |vk.powersOfG2| && LagrangeBasis(points, scaInverse, lang)
    requires polynomials != [] && forall i :: 0 <= i < |polynomials| ==> |polynomials[i]| <= |ck.powersOfG|
    requires IsDivision(Vanishing(points), |points|,
                        LinearCombination(polynomials, PowersFrom(1, openChal, |polynomials|)).value, q, r)
    requires InterpolatesAll(ps, points, EvaluationTable(polynomials, points))
    requires |claimed| == |polynomials| && InterpolatesAll(qs, points, claimed)
    ensures MultiPointEquation(vk, Commitments(ck.powersOfG, polynomials), points, claimed, Commit(ck.powersOfG, q),
                               openChal, scaInverse, lang)
            <==> Eval(Differences(ps, qs, tau), openChal) == 0
  {
    MultiPointComplete(ck, vk, g, h, tau, polynomials, points, openChal, q, r, scaInverse, lang);
    OtherTable(ck, vk, g, h, tau, Commitments(ck.powersOfG, polynomials), points, EvaluationTable(polynomials, points),
               ps, claimed, qs, Commit(ck.powersOfG, q), openChal, scaInverse, lang);
  }

  /** The same for the proof of open_folding. */
  lemma FoldingExactly(ck: CommitterKey, vk: VerifierKey, g: Fp, h: Fp, tau: Fp, f: seq<Fp>, ch: seq<Fp>,
                       points: seq<Fp>, openChal: Fp, claimed: seq<seq<Fp>>, ps: seq<seq<Fp>>, qs: seq<seq<Fp>>,
                       scaInverse: seq<Fp>, lang: seq<seq<Fp>>, proof: Fp)
    requires HonestKeys(ck, vk, g, h, tau) && g != 0 && h != 0 && |ch| >= 1 && |f| <= |ck.powersOfG|
    requires Distinct(points) && 1 <= |points| < |vk.powersOfG2| && LagrangeBasis(points, scaInverse, lang)
    requires proof == Inner(PowersFrom(1, openChal, |ch|),
                            QuotientCommitments(ck.powersOfG, f, ch, Vanishing(points), |ch|))
    requires InterpolatesAll(ps, points, EvaluationTable(Foldings(ch, f), points))
    requires |claimed| == |ch| && InterpolatesAll(qs, points, claimed)
    ensures MultiPointEquation(vk, Commitments(ck.powersOfG, Foldings(ch, f)), points, claimed, proof, openChal,
                               scaInverse, lang)
            <==> Eval(Differences(ps, qs, tau), openChal) == 0
  {
    FoldingComplete(ck, vk, g, h, tau, f, ch, points, openChal, scaInverse, lang, proof);
    OtherTable(ck, vk, g, h, tau, Commitments(ck.powersOfG, Foldings(ch, f)), points,
               EvaluationTable(Foldings(ch, f), points), ps, claimed, qs, proof, openChal, scaInverse, lang);
  }
}
