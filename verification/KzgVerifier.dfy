/** The verifier of the streaming KZG scheme (streaming_kzg/mod.rs) and the key generation it
    relies on (streaming_kzg/time.rs): honest proofs are accepted. */
module KzgVerifier {
  import opened PrimeField
  import opened Vectors
  import opened Polynomials
  import opened Division
  import opened Lagrange
  import opened StreamingKzg

  datatype CommitterKey = CommitterKey(powersOfG: seq<Fp>, powersOfG2: seq<Fp>)
  datatype VerifierKey = VerifierKey(powersOfG: seq<Fp>, powersOfG2: seq<Fp>)

  /** CommitterKey::new, for generators g and h and a trapdoor tau. */
  function NewKey(g: Fp, h: Fp, tau: Fp, maxDegree: nat, maxEvalPoints: nat): CommitterKey {
    CommitterKey(PowersFrom(g, tau, maxDegree + 1),
                 PowersFrom(h, tau, if maxEvalPoints < maxDegree then maxEvalPoints + 1 else maxDegree + 1))
  }

  /** VerifierKey::from. */
  function VerifierKeyOf(ck: CommitterKey): VerifierKey
    requires 1 <= |ck.powersOfG2| <= |ck.powersOfG| + 1
  {
    VerifierKey(ck.powersOfG[..|ck.powersOfG2| - 1], ck.powersOfG2)
  }

  /** verify: one polynomial, one point. */
  predicate Verify(vk: VerifierKey, commitment: Fp, alpha: Fp, evaluation: Fp, proof: Fp)
    requires |vk.powersOfG| > 0 && |vk.powersOfG2| > 0
  {
    var ep := Inner(vk.powersOfG2, [Neg(alpha), 1]);
    var lhs := Sub(commitment, Mul(vk.powersOfG[0], evaluation));
    Mul(lhs, vk.powersOfG2[0]) == Mul(proof, ep)
  }

  /** The keys of one setup with generators g and h and trapdoor tau. */
  ghost predicate HonestKeys(ck: CommitterKey, vk: VerifierKey, g: Fp, h: Fp, tau: Fp) {
    && ck.powersOfG == PowersFrom(g, tau, |ck.powersOfG|)
    && vk.powersOfG == PowersFrom(g, tau, |vk.powersOfG|)
    && vk.powersOfG2 == PowersFrom(h, tau, |vk.powersOfG2|)
    && |vk.powersOfG2| == |vk.powersOfG| + 1 <= |ck.powersOfG| + 1
  }

  /** Key generation yields such keys, of the sizes asked for. */
  lemma NewKeyHonest(g: Fp, h: Fp, tau: Fp, maxDegree: nat, maxEvalPoints: nat)
    ensures var ck := NewKey(g, h, tau, maxDegree, maxEvalPoints);
            && HonestKeys(ck, VerifierKeyOf(ck), g, h, tau) && |ck.powersOfG| == maxDegree + 1
            && |VerifierKeyOf(ck).powersOfG| == if maxEvalPoints < maxDegree then maxEvalPoints else maxDegree
  {
    var ck := NewKey(g, h, tau, maxDegree, maxEvalPoints);
    PowersPrefix(g, tau, maxDegree + 1, |ck.powersOfG2| - 1);
  }

  lemma {:induction false} PowersPrefix(s: Fp, x: Fp, n: nat, k: nat)
    requires k <= n
    ensures PowersFrom(s, x, n)[..k] == PowersFrom(s, x, k)
    decreases k
  {
    if k > 0 {
      PowersPrefix(Mul(s, x), x, n - 1, k - 1);
      assert PowersFrom(s, x, n)[..k] == [s] + PowersFrom(Mul(s, x), x, n - 1)[..k - 1];
    }
  }

  /** An honest proof is accepted for the true evaluation and for no other. */
  lemma VerifyExactly(ck: CommitterKey, vk: VerifierKey, g: Fp, h: Fp, tau: Fp, f: seq<Fp>, alpha: Fp, v: Fp)
    requires HonestKeys(ck, vk, g, h, tau) && g != 0 && h != 0
    requires |vk.powersOfG| >= 1 && |f| <= |ck.powersOfG|
    ensures Verify(vk, Commit(ck.powersOfG, f), alpha, v, Commit(ck.powersOfG, Witness(f, alpha)))
            <==> v == Eval(f, alpha)
  {
    var w := Witness(f, alpha);
    InnerPowers(g, tau, |ck.powersOfG|, f);
    InnerPowers(g, tau, |ck.powersOfG|, w);
    InnerPowers(h, tau, |vk.powersOfG2|, [Neg(alpha), 1]);
    EvalLinear(alpha, tau);
    WitnessCorrect(f, alpha, tau);
    SingleEquation(g, h, Eval(f, tau), Eval(f, alpha), v, Sub(tau, alpha), Eval(w, tau));
  }

  lemma SingleEquation(g: Fp, h: Fp, ft: Fp, fa: Fp, v: Fp, d: Fp, w: Fp)
    requires g != 0 && h != 0 && Sub(ft, fa) == Mul(d, w)
    ensures Mul(Sub(Mul(g, ft), Mul(g, v)), h) == Mul(Mul(g, w), Mul(h, d)) <==> v == fa
  {
    var c := Mul(g, h);
    assert Mul(Sub(Mul(g, ft), Mul(g, v)), h) == Mul(c, Sub(ft, v)) by {
      FactorOut(g, ft, v);
      ThreeFactors(g, Sub(ft, v), h);
    }
    assert Mul(Mul(g, w), Mul(h, d)) == Mul(c, Sub(ft, fa)) by { FourFactors(g, w, h, d); }
    if Mul(c, Sub(ft, v)) == Mul(c, Sub(ft, fa)) {
      if c == 0 { NoZeroDivisors(g, h); }
      CancelFactor(c, Sub(ft, v), Sub(ft, fa));
      SubIff(ft, v, Sub(ft, fa));
      SubIff(ft, fa, Sub(ft, fa));
      AddCancels(v, fa, Sub(ft, fa));
    }
  }

  lemma FactorOut(g: Fp, a: Fp, b: Fp)
    ensures Sub(Mul(g, a), Mul(g, b)) == Mul(g, Sub(a, b))
  {
    Distributes(g, a, Neg(b));
    NegDistributes(g, b);
  }

  lemma ThreeFactors(a: Fp, b: Fp, c: Fp)
    ensures Mul(Mul(a, b), c) == Mul(Mul(a, c), b)
  {
    RingLaws();
  }

  lemma FourFactors(g: Fp, w: Fp, h: Fp, d: Fp)
    ensures Mul(Mul(g, w), Mul(h, d)) == Mul(Mul(g, h), Mul(d, w))
  {
    RingLaws();
  }

  lemma CancelFactor(c: Fp, a: Fp, b: Fp)
    requires c != 0 && Mul(c, a) == Mul(c, b)
    ensures a == b
  {
    FactorOut(c, a, b);
    SubZero(Mul(c, a), Mul(c, b));
    NoZeroDivisors(c, Sub(a, b));
    SubZero(a, b);
  }

  // ----- several polynomials at several points

  /** linear_combination: None for an empty list. */
  function LinearCombination(polynomials: seq<seq<Fp>>, challenges: seq<Fp>): (r: Option<seq<Fp>>)
    ensures r.None? <==> polynomials == [] || challenges == []
    decreases |polynomials| + |challenges|
  {
    var m, n := |polynomials|, |challenges|;
    if m == 0 || n == 0 then None
    else if m > n then LinearCombination(polynomials[..m - 1], challenges)
    else if n > m then LinearCombination(polynomials, challenges[..n - 1])
    else
      var last := Scale(challenges[n - 1], polynomials[n - 1]);
      match LinearCombination(polynomials[..n - 1], challenges[..n - 1])
      case None => Some(last)
      case Some(sum) => Some(Plus(sum, last))
  }

  function Evaluations(polynomials: seq<seq<Fp>>, x: Fp): (r: seq<Fp>)
    ensures |r| == |polynomials|
    ensures forall i :: 0 <= i < |r| ==> r[i] == Eval(polynomials[i], x)
  {
    seq(|polynomials|, i requires 0 <= i < |polynomials| => Eval(polynomials[i], x))
  }

  lemma {:induction false} CombinationEval(polynomials: seq<seq<Fp>>, challenges: seq<Fp>, x: Fp)
    requires |polynomials| == |challenges| > 0
    ensures Eval(LinearCombination(polynomials, challenges).value, x) == Inner(challenges, Evaluations(polynomials, x))
  {
    var n := |challenges|;
    var ps, cs := polynomials[..n - 1], challenges[..n - 1];
    var last := Scale(challenges[n - 1], polynomials[n - 1]);
    EvalScale(challenges[n - 1], polynomials[n - 1], x);
    assert Evaluations(polynomials, x) == Evaluations(ps, x) + [Eval(polynomials[n - 1], x)];
    assert challenges == cs + [challenges[n - 1]];
    InnerPush(cs, Evaluations(ps, x), challenges[n - 1], Eval(polynomials[n - 1], x));
    if n == 1 {
      Units(Eval(last, x));
    } else {
      CombinationEval(ps, cs, x);
      EvalPlus(LinearCombination(ps, cs).value, last, x);
    }
  }

  lemma {:induction false} CombinationLength(polynomials: seq<seq<Fp>>, challenges: seq<Fp>, m: nat)
    requires |polynomials| == |challenges| > 0
    requires forall i :: 0 <= i < |polynomials| ==> |polynomials[i]| <= m
    ensures |LinearCombination(polynomials, challenges).value| <= m
  {
    var n := |challenges|;
    if n > 1 { CombinationLength(polynomials[..n - 1], challenges[..n - 1], m); }
  }

  /** verify_multi_points; None where the source panics. */
  method VerifyMultiPoints(vk: VerifierKey, commitments: seq<Fp>, evalPoints: seq<Fp>, evaluations: seq<seq<Fp>>,
                           proof: Fp, openChal: Fp)
    returns (r: Option<bool>)
    requires |vk.powersOfG2| > 0
    ensures r.Some? <==> Distinct(evalPoints) && evaluations != []
    ensures r.Some? ==> exists scaInverse, lang ::
                          && LagrangeBasis(evalPoints, scaInverse, lang)
                          && r.value == MultiPointEquation(vk, commitments, evalPoints, evaluations, proof, openChal,
                                                           scaInverse, lang)
  {
    var zerosPoly := Vanishing(evalPoints);
    var zeros := Inner(vk.powersOfG2, zerosPoly);
    var inverses := ScaInverses(evalPoints);
    if inverses.None? {
      return None;
    }
    var scaInverse := inverses.value;
    var lang := LagrangeNumerators(evalPoints);
    var etas := Powers(openChal, |evaluations|);
    var interpolated: seq<seq<Fp>> := [];
    for i := 0 to |evaluations|
      invariant |interpolated| == i
      invariant forall j :: 0 <= j < i ==>
                  interpolated[j]
                  == Interpolant(evaluations[j], scaInverse, lang, Paired(|evalPoints|, |evaluations[j]|))
    {
      var p := InterpolatePoly(evalPoints, evaluations[i], scaInverse, lang);
      interpolated := interpolated + [p];
    }
    assert interpolated == Interpolants(evaluations, scaInverse, lang, |evalPoints|);
    var iPoly := LinearCombination(interpolated, etas);
    if iPoly.None? {
      return None;
    }
    var iComm := Inner(vk.powersOfG, iPoly.value);
    var fComm := Inner(commitments, etas);
    assert LagrangeBasis(evalPoints, scaInverse, lang);
    return Some(Mul(Sub(fComm, iComm), vk.powersOfG2[0]) == Mul(proof, zeros));
  }

  function Interpolants(evaluations: seq<seq<Fp>>, scaInverse: seq<Fp>, lang: seq<seq<Fp>>, m: nat): (r: seq<seq<Fp>>)
    requires |scaInverse| == |lang| == m
    ensures |r| == |evaluations|
    ensures forall i :: 0 <= i < |r| ==>
              r[i] == Interpolant(evaluations[i], scaInverse, lang, Paired(m, |evaluations[i]|))
  {
    seq(|evaluations|, i requires 0 <= i < |evaluations| =>
      Interpolant(evaluations[i], scaInverse, lang, Paired(m, |evaluations[i]|)))
  }

  ghost predicate MultiPointEquation(vk: VerifierKey, commitments: seq<Fp>, points: seq<Fp>, evaluations: seq<seq<Fp>>,
                                     proof: Fp, openChal: Fp, scaInverse: seq<Fp>, lang: seq<seq<Fp>>)
    requires |vk.powersOfG2| > 0 && evaluations != [] && LagrangeBasis(points, scaInverse, lang)
  {
    var etas := PowersFrom(1, openChal, |evaluations|);
    var iPoly := LinearCombination(Interpolants(evaluations, scaInverse, lang, |points|), etas).value;
    Mul(Sub(Inner(commitments, etas), Inner(vk.powersOfG, iPoly)), vk.powersOfG2[0])
    == Mul(proof, Inner(vk.powersOfG2, Vanishing(points)))
  }

  /** The values at every point of every polynomial. */
  function EvaluationTable(polynomials: seq<seq<Fp>>, points: seq<Fp>): (r: seq<seq<Fp>>)
    ensures |r| == |polynomials|
    ensures forall i :: 0 <= i < |r| ==> |r[i]| == |points|
    ensures forall i, k :: 0 <= i < |r| && 0 <= k < |points| ==> r[i][k] == Eval(polynomials[i], points[k])
  {
    seq(|polynomials|, i requires 0 <= i < |polynomials| =>
      seq(|points|, k requires 0 <= k < |points| => Eval(polynomials[i], points[k])))
  }

  function Commitments(g: seq<Fp>, polynomials: seq<seq<Fp>>): (r: seq<Fp>)
    ensures |r| == |polynomials|
    ensures forall i :: 0 <= i < |r| ==> r[i] == Commit(g, polynomials[i])
  {
    seq(|polynomials|, i requires 0 <= i < |polynomials| => Commit(g, polynomials[i]))
  }

  /** The combined interpolant takes the combination's values at the points. */
  lemma CombinedInterpolantAt(polynomials: seq<seq<Fp>>, points: seq<Fp>, etas: seq<Fp>, scaInverse: seq<Fp>,
                              lang: seq<seq<Fp>>, k: nat)
    requires |polynomials| == |etas| > 0 && LagrangeBasis(points, scaInverse, lang) && k < |points|
    ensures Eval(LinearCombination(Interpolants(EvaluationTable(polynomials, points), scaInverse, lang, |points|),
                                   etas).value,
                 points[k])
            == Eval(LinearCombination(polynomials, etas).value, points[k])
  {
    var table := EvaluationTable(polynomials, points);
    var interpolants := Interpolants(table, scaInverse, lang, |points|);
    var x := points[k];
    CombinationEval(interpolants, etas, x);
    CombinationEval(polynomials, etas, x);
    forall i | 0 <= i < |polynomials| ensures Evaluations(interpolants, x)[i] == Evaluations(polynomials, x)[i] {
      InterpolantEval(points, table[i], scaInverse, lang, |points|, k);
    }
    assert Evaluations(interpolants, x) == Evaluations(polynomials, x);
  }

  /** Lagrange interpolation is reduction modulo the vanishing polynomial: a short polynomial
      with the combination's values at the points is the combined interpolant. */
  lemma CombinedInterpolantIs(polynomials: seq<seq<Fp>>, points: seq<Fp>, etas: seq<Fp>, scaInverse: seq<Fp>,
                              lang: seq<seq<Fp>>, r: seq<Fp>)
    requires |polynomials| == |etas| > 0 && LagrangeBasis(points, scaInverse, lang)
    requires Distinct(points) && 1 <= |points| && |r| <= |points|
    requires forall p :: p in points ==> Eval(r, p) == Eval(LinearCombination(polynomials, etas).value, p)
    ensures var i := LinearCombination(Interpolants(EvaluationTable(polynomials, points), scaInverse, lang, |points|),
                                       etas).value;
            |i| <= |points| && PolyEq(i, r)
  {
    var m, table := |points|, EvaluationTable(polynomials, points);
    var interpolants := Interpolants(table, scaInverse, lang, m);
    forall j | 0 <= j < |interpolants| ensures |interpolants[j]| <= m {
      InterpolantLength(points, table[j], scaInverse, lang, m);
    }
    CombinationLength(interpolants, etas, m);
    var i := LinearCombination(interpolants, etas).value;
    forall p | p in points ensures Eval(i, p) == Eval(r, p) {
      var k :| 0 <= k < m && points[k] == p;
      CombinedInterpolantAt(polynomials, points, etas, scaInverse, lang, k);
    }
    InterpolantUnique(i, r, points);
  }

  lemma {:induction false} CommitmentsInner(g: Fp, tau: Fp, n: nat, polynomials: seq<seq<Fp>>, etas: seq<Fp>)
    requires forall i :: 0 <= i < |polynomials| ==> |polynomials[i]| <= n
    ensures Inner(Commitments(PowersFrom(g, tau, n), polynomials), etas)
            == Mul(g, Inner(etas, Evaluations(polynomials, tau)))
  {
    var values := Evaluations(polynomials, tau);
    forall i | 0 <= i < |polynomials|
      ensures Commitments(PowersFrom(g, tau, n), polynomials)[i] == Scale(g, values)[i]
    {
      InnerPowers(g, tau, n, polynomials[i]);
      ScaleIndex(g, values, i);
    }
    assert Commitments(PowersFrom(g, tau, n), polynomials) == Scale(g, values);
    InnerScale(g, values, etas);
    InnerCommutes(values, etas);
  }

  /** If f = Z * q + r at the trapdoor for the combination f, a short r with f's values at the
      points and a proof that commits to q, the verifier's equation holds. */
  lemma EquationHolds(ck: CommitterKey, vk: VerifierKey, g: Fp, h: Fp, tau: Fp, polynomials: seq<seq<Fp>>,
                      points: seq<Fp>, openChal: Fp, f: seq<Fp>, r: seq<Fp>, qt: Fp, scaInverse: seq<Fp>,
                      lang: seq<seq<Fp>>)
    requires HonestKeys(ck, vk, g, h, tau)
    requires Distinct(points) && 1 <= |points| < |vk.powersOfG2| && LagrangeBasis(points, scaInverse, lang)
    requires polynomials != [] && forall i :: 0 <= i < |polynomials| ==> |polynomials[i]| <= |ck.powersOfG|
    requires Some(f) == LinearCombination(polynomials, PowersFrom(1, openChal, |polynomials|))
    requires |r| <= |points| && forall p :: p in points ==> Eval(r, p) == Eval(f, p)
    requires Eval(f, tau) == Add(Mul(Eval(Vanishing(points), tau), qt), Eval(r, tau))
    ensures MultiPointEquation(vk, Commitments(ck.powersOfG, polynomials), points,
                               EvaluationTable(polynomials, points), Mul(g, qt), openChal, scaInverse, lang)
  {
    var etas := PowersFrom(1, openChal, |polynomials|);
    var z := Vanishing(points);
    assert Inner(Commitments(ck.powersOfG, polynomials), etas) == Mul(g, Eval(f, tau)) by {
      CommitmentsInner(g, tau, |ck.powersOfG|, polynomials, etas);
      CombinationEval(polynomials, etas, tau);
    }
    var i := LinearCombination(Interpolants(EvaluationTable(polynomials, points), scaInverse, lang, |points|),
                               etas).value;
    assert Inner(vk.powersOfG, i) == Mul(g, Eval(r, tau)) by {
      CombinedInterpolantIs(polynomials, points, etas, scaInverse, lang, r);
      InnerPowers(g, tau, |vk.powersOfG|, i);
      EvalPolyEq(i, r, tau);
    }
    assert Inner(vk.powersOfG2, z) == Mul(h, Eval(z, tau)) by { InnerPowers(h, tau, |vk.powersOfG2|, z); }
    assert vk.powersOfG2[0] == h;
    BatchEquation(g, h, Eval(f, tau), Eval(r, tau), Eval(z, tau), qt);
  }

  lemma BatchEquation(g: Fp, h: Fp, ft: Fp, rt: Fp, zt: Fp, qt: Fp)
    requires ft == Add(Mul(zt, qt), rt)
    ensures Mul(Sub(Mul(g, ft), Mul(g, rt)), h) == Mul(Mul(g, qt), Mul(h, zt))
  {
    FactorOut(g, ft, rt);
    Commutes(Mul(zt, qt), rt);
    SubIff(ft, rt, Mul(zt, qt));
    ThreeFactors(g, Mul(zt, qt), h);
    FourFactors(g, qt, h, zt);
    Commutes(zt, qt);
  }

  /** The proof of batch_open_multi_points, for any division the library can return, is
      accepted with the true evaluations. */
  lemma MultiPointComplete(ck: CommitterKey, vk: VerifierKey, g: Fp, h: Fp, tau: Fp, polynomials: seq<seq<Fp>>,
                           points: seq<Fp>, openChal: Fp, q: seq<Fp>, r: seq<Fp>, scaInverse: seq<Fp>,
                           lang: seq<seq<Fp>>)
    requires HonestKeys(ck, vk, g, h, tau)
    requires Distinct(points) && 1 <= |points| < |vk.powersOfG2| && LagrangeBasis(points, scaInverse, lang)
    requires polynomials != [] && forall i :: 0 <= i < |polynomials| ==> |polynomials[i]| <= |ck.powersOfG|
    requires IsDivision(Vanishing(points), |points|,
                        LinearCombination(polynomials, PowersFrom(1, openChal, |polynomials|)).value, q, r)
    ensures MultiPointEquation(vk, Commitments(ck.powersOfG, polynomials), points,
                               EvaluationTable(polynomials, points), Commit(ck.powersOfG, q), openChal,
                               scaInverse, lang)
  {
    var f := LinearCombination(polynomials, PowersFrom(1, openChal, |polynomials|)).value;
    CombinationLength(polynomials, PowersFrom(1, openChal, |polynomials|), |ck.powersOfG|);
    var sq := QuotientAtTrapdoor(ck, g, tau, f, points, q, r);
    EquationHolds(ck, vk, g, h, tau, polynomials, points, openChal, f, r, Eval(sq, tau), scaInverse, lang);
  }

  lemma QuotientAtTrapdoor(ck: CommitterKey, g: Fp, tau: Fp, f: seq<Fp>, points: seq<Fp>, q: seq<Fp>, r: seq<Fp>)
    returns (sq: seq<Fp>)
    requires ck.powersOfG == PowersFrom(g, tau, |ck.powersOfG|) && |f| <= |ck.powersOfG|
    requires 1 <= |points| && IsDivision(Vanishing(points), |points|, f, q, r)
    ensures Commit(ck.powersOfG, q) == Mul(g, Eval(sq, tau))
    ensures Eval(f, tau) == Add(Mul(Eval(Vanishing(points), tau), Eval(sq, tau)), Eval(r, tau))
    ensures forall p :: p in points ==> Eval(r, p) == Eval(f, p)
  {
    var z, m := Vanishing(points), |points|;
    MultiPointsAgree(ck.powersOfG, f, points, q, r);
    var (dq, dr) := Divide(z, Rev(f));
    sq := Rev(dq);
    DivideCorrect(z, m, Rev(f));
    RevRev(f);
    InnerPowers(g, tau, |ck.powersOfG|, sq);
    DivisionEval(z, m, f, sq, Rev(dr), tau);
    EvalPolyEq(r, Rev(dr), tau);
  }
}
