/** What the streaming folding protocol is for: the commitments and the proof made in one pass
    over the coefficients satisfy the multi-point verifier, and the last folding is the value
    of the polynomial's multilinear extension. */
module FoldingOpening {
  import opened PrimeField
  import opened Numbers
  import opened Vectors
  import opened Polynomials
  import opened Division
  import opened Lagrange
  import opened FoldedPolynomial
  import opened StreamingKzg
  import opened StreamingFolding
  import opened KzgVerifier

  /** The foldings 1..|ch| of f. */
  function Foldings(ch: seq<Fp>, f: seq<Fp>): (r: seq<seq<Fp>>)
    ensures |r| == |ch|
    ensures forall l :: 0 <= l < |ch| ==> r[l] == Folding(ch, l + 1, f)
  {
    seq(|ch|, l requires 0 <= l < |ch| => Folding(ch, l + 1, f))
  }

  function Quotients(z: seq<Fp>, polynomials: seq<seq<Fp>>): (r: seq<seq<Fp>>)
    requires |z| >= 2
    ensures |r| == |polynomials|
    ensures forall l :: 0 <= l < |r| ==> r[l] == Rev(Divide(z, Rev(polynomials[l])).0)
  {
    seq(|polynomials|, l requires 0 <= l < |polynomials| => Rev(Divide(z, Rev(polynomials[l])).0))
  }

  function Remainders(z: seq<Fp>, polynomials: seq<seq<Fp>>): (r: seq<seq<Fp>>)
    requires |z| >= 2
    ensures |r| == |polynomials|
    ensures forall l :: 0 <= l < |r| ==> r[l] == Rev(Divide(z, Rev(polynomials[l])).1)
  {
    seq(|polynomials|, l requires 0 <= l < |polynomials| => Rev(Divide(z, Rev(polynomials[l])).1))
  }

  /** Dividing every polynomial of a combination divides the combination. */
  lemma CombinationDivides(polynomials: seq<seq<Fp>>, points: seq<Fp>, etas: seq<Fp>, x: Fp)
    requires |polynomials| == |etas| > 0 && |points| >= 1
    ensures var z := Vanishing(points);
            Eval(LinearCombination(polynomials, etas).value, x)
            == Add(Mul(Eval(z, x), Inner(etas, Evaluations(Quotients(z, polynomials), x))),
                   Eval(LinearCombination(Remainders(z, polynomials), etas).value, x))
  {
    var z := Vanishing(points);
    VanishingMonic(points);
    var qs, rs := Evaluations(Quotients(z, polynomials), x), Evaluations(Remainders(z, polynomials), x);
    CombinationEval(polynomials, etas, x);
    CombinationEval(Remainders(z, polynomials), etas, x);
    forall l | 0 <= l < |polynomials|
      ensures Evaluations(polynomials, x)[l] == Plus(Scale(Eval(z, x), qs), rs)[l]
    {
      DivideCorrect(z, |points|, Rev(polynomials[l]));
      RevRev(polynomials[l]);
      DivisionEval(z, |points|, polynomials[l], Quotients(z, polynomials)[l], Remainders(z, polynomials)[l], x);
      ScaleIndex(Eval(z, x), qs, l);
      CoefPlus(Scale(Eval(z, x), qs), rs, l);
    }
    assert Evaluations(polynomials, x) == Plus(Scale(Eval(z, x), qs), rs);
    InnerPlusRight(Scale(Eval(z, x), qs), rs, etas);
    InnerScale(Eval(z, x), qs, etas);
  }

  lemma RemaindersAgree(polynomials: seq<seq<Fp>>, points: seq<Fp>, etas: seq<Fp>, p: Fp)
    requires |polynomials| == |etas| > 0 && p in points
    ensures Eval(LinearCombination(Remainders(Vanishing(points), polynomials), etas).value, p)
            == Eval(LinearCombination(polynomials, etas).value, p)
  {
    CombinationDivides(polynomials, points, etas, p);
    VanishingRoot(points, p);
    Units(Inner(etas, Evaluations(Quotients(Vanishing(points), polynomials), p)));
    Units(Eval(LinearCombination(Remainders(Vanishing(points), polynomials), etas).value, p));
  }

  lemma {:induction false} QuotientCommitmentsAre(g: seq<Fp>, f: seq<Fp>, ch: seq<Fp>, z: seq<Fp>, depth: nat)
    requires |z| >= 2 && depth <= |ch|
    ensures QuotientCommitments(g, f, ch, z, depth) == Commitments(g, Quotients(z, Foldings(ch, f)))[..depth]
  {
    var all := Commitments(g, Quotients(z, Foldings(ch, f)));
    forall k | 0 <= k < depth ensures QuotientCommitments(g, f, ch, z, depth)[k] == all[..depth][k] {
    }
  }

  /** The proof of open_folding, with the commitments of commit_folding and the true values of
      the foldings, satisfies the verifier's equation. */
  lemma FoldingComplete(ck: CommitterKey, vk: VerifierKey, g: Fp, h: Fp, tau: Fp, f: seq<Fp>, ch: seq<Fp>,
                        points: seq<Fp>, openChal: Fp, scaInverse: seq<Fp>, lang: seq<seq<Fp>>, proof: Fp)
    requires HonestKeys(ck, vk, g, h, tau) && |ch| >= 1 && |f| <= |ck.powersOfG|
    requires Distinct(points) && 1 <= |points| < |vk.powersOfG2| && LagrangeBasis(points, scaInverse, lang)
    requires proof == Inner(PowersFrom(1, openChal, |ch|),
                            QuotientCommitments(ck.powersOfG, f, ch, Vanishing(points), |ch|))
    ensures MultiPointEquation(vk, Commitments(ck.powersOfG, Foldings(ch, f)), points,
                               EvaluationTable(Foldings(ch, f), points), proof, openChal, scaInverse, lang)
  {
    var polynomials := Foldings(ch, f);
    forall l | 0 <= l < |polynomials| ensures |polynomials[l]| <= |ck.powersOfG| { FoldingShrinks(ch, l + 1, f); }
    var etas, quotients := PowersFrom(1, openChal, |ch|), Quotients(Vanishing(points), polynomials);
    assert proof == Mul(g, Inner(etas, Evaluations(quotients, tau))) by {
      BatchedProof(ck, g, tau, f, ch, Vanishing(points), etas);
    }
    SeparateQuotients(ck, vk, g, h, tau, polynomials, points, openChal, scaInverse, lang, proof);
  }

  /** A proof that combines the quotients of the single polynomials is accepted. */
  lemma SeparateQuotients(ck: CommitterKey, vk: VerifierKey, g: Fp, h: Fp, tau: Fp, polynomials: seq<seq<Fp>>,
                          points: seq<Fp>, openChal: Fp, scaInverse: seq<Fp>, lang: seq<seq<Fp>>, proof: Fp)
    requires HonestKeys(ck, vk, g, h, tau)
    requires Distinct(points) && 1 <= |points| < |vk.powersOfG2| && LagrangeBasis(points, scaInverse, lang)
    requires polynomials != [] && forall i :: 0 <= i < |polynomials| ==> |polynomials[i]| <= |ck.powersOfG|
    requires proof == Mul(g, Inner(PowersFrom(1, openChal, |polynomials|),
                                   Evaluations(Quotients(Vanishing(points), polynomials), tau)))
    ensures MultiPointEquation(vk, Commitments(ck.powersOfG, polynomials), points, EvaluationTable(polynomials, points),
                               proof, openChal, scaInverse, lang)
  {
    var z, etas := Vanishing(points), PowersFrom(1, openChal, |polynomials|);
    var r := LinearCombination(Remainders(z, polynomials), etas).value;
    CombinationLength(Remainders(z, polynomials), etas, |points|);
    var combined := LinearCombination(polynomials, etas).value;
    forall p | p in points ensures Eval(r, p) == Eval(combined, p) {
      RemaindersAgree(polynomials, points, etas, p);
    }
    CombinationDivides(polynomials, points, etas, tau);
    EquationHolds(ck, vk, g, h, tau, polynomials, points, openChal, combined, r,
                  Inner(etas, Evaluations(Quotients(z, polynomials), tau)), scaInverse, lang);
  }

  lemma BatchedProof(ck: CommitterKey, g: Fp, tau: Fp, f: seq<Fp>, ch: seq<Fp>, z: seq<Fp>, etas: seq<Fp>)
    requires ck.powersOfG == PowersFrom(g, tau, |ck.powersOfG|) && |f| <= |ck.powersOfG| && |z| >= 2
    ensures Inner(etas, QuotientCommitments(ck.powersOfG, f, ch, z, |ch|))
            == Mul(g, Inner(etas, Evaluations(Quotients(z, Foldings(ch, f)), tau)))
  {
    var qs := Quotients(z, Foldings(ch, f));
    forall l | 0 <= l < |ch| ensures |qs[l]| <= |ck.powersOfG| { FoldingShrinks(ch, l + 1, f); }
    QuotientCommitmentsAre(ck.powersOfG, f, ch, z, |ch|);
    assert Commitments(ck.powersOfG, qs)[..|ch|] == Commitments(ck.powersOfG, qs);
    CommitmentsInner(g, tau, |ck.powersOfG|, qs, etas);
    InnerCommutes(etas, Commitments(ck.powersOfG, qs));
  }

  lemma {:induction false} FoldingShrinks(ch: seq<Fp>, i: nat, f: seq<Fp>)
    requires i <= |ch|
    ensures |Folding(ch, i, f)| <= |f|
  {
    if i > 0 { FoldingShrinks(ch, i - 1, f); }
  }

  // ----- the meaning of repeated folding

  /** The products of challenges chosen by the bits of the index, lowest bit first. */
  function Tensor(ch: seq<Fp>): (t: seq<Fp>)
    ensures |t| == Pow2(|ch|)
  {
    if ch == [] then [1] else
      var t := Tensor(ch[..|ch| - 1]);
      t + Scale(ch[|ch| - 1], t)
  }

  /** The value at index k of f folded under all challenges is one inner product of the k-th
      block of coefficients with the tensor of the challenges; a missing coefficient is zero. */
  lemma {:induction false} FoldingIsTensor(ch: seq<Fp>, i: nat, f: seq<Fp>, k: nat)
    requires i <= |ch|
    ensures Coef(Folding(ch, i, f), k) == BlockInner(f, Pow2(i) * k, Tensor(ch[..i]))
  {
    if i == 0 {
      assert ch[..0] == [];
      TakeOne(f, k);
    } else {
      var p, c, t := Pow2(i - 1), ch[i - 1], Tensor(ch[..i - 1]);
      assert ch[..i][..i - 1] == ch[..i - 1];
      FoldOnceCoef(c, Folding(ch, i - 1, f), k);
      FoldingIsTensor(ch, i - 1, f, 2 * k);
      FoldingIsTensor(ch, i - 1, f, 2 * k + 1);
      BlockStarts(p, k);
      TensorStep(f, 2 * p * k, c, t);
    }
  }

  lemma BlockStarts(p: nat, k: nat)
    ensures 0 <= p * (2 * k) == 2 * p * k && p * (2 * k + 1) == 2 * p * k + p
  {
  }

  lemma TensorStep(f: seq<Fp>, s: nat, c: Fp, t: seq<Fp>)
    ensures BlockInner(f, s, t + Scale(c, t)) == Add(BlockInner(f, s, t), Mul(c, BlockInner(f, s + |t|, t)))
  {
    BlockInnerSplit(f, s, t, Scale(c, t));
    BlockInnerScale(f, s + |t|, c, t);
  }

  /** The inner product of w with the coefficients of f from position s on. */
  function BlockInner(f: seq<Fp>, s: nat, w: seq<Fp>): Fp
    decreases |w|
  {
    if w == [] then 0 else Add(Mul(Coef(f, s), w[0]), BlockInner(f, s + 1, w[1..]))
  }

  lemma TakeOne(f: seq<Fp>, k: nat)
    ensures BlockInner(f, k, [1]) == Coef(f, k)
  {
    assert [1][1..] == [];
    Units(Coef(f, k));
  }

  lemma {:induction false} BlockInnerSplit(f: seq<Fp>, s: nat, a: seq<Fp>, b: seq<Fp>)
    ensures BlockInner(f, s, a + b) == Add(BlockInner(f, s, a), BlockInner(f, s + |a|, b))
    decreases |a|
  {
    if a == [] {
      assert a + b == b;
      Units(BlockInner(f, s, b));
    } else {
      assert (a + b)[1..] == a[1..] + b;
      BlockInnerSplit(f, s + 1, a[1..], b);
      AddAssociates(Mul(Coef(f, s), a[0]), BlockInner(f, s + 1, a[1..]), BlockInner(f, s + |a|, b));
    }
  }

  lemma {:induction false} BlockInnerScale(f: seq<Fp>, s: nat, c: Fp, w: seq<Fp>)
    ensures BlockInner(f, s, Scale(c, w)) == Mul(c, BlockInner(f, s, w))
    decreases |w|
  {
    if w == [] {
      Units(c);
    } else {
      BlockInnerScale(f, s + 1, c, w[1..]);
      MulSwaps(Coef(f, s), c, w[0]);
      Distributes(c, Mul(Coef(f, s), w[0]), BlockInner(f, s + 1, w[1..]));
    }
  }

  lemma {:induction false} FoldOnceCoef(c: Fp, f: seq<Fp>, k: nat)
    ensures Coef(FoldOnce(c, f), k) == Add(Coef(f, 2 * k), Mul(c, Coef(f, 2 * k + 1)))
    decreases k
  {
    if f == [] || (|f| == 1 && k > 0) {
      Units(c);
      Units(0);
    } else if |f| == 1 {
      Units(c);
      Units(f[0]);
    } else if k > 0 {
      FoldOnceCoef(c, f[2..], k - 1);
    }
  }
}
