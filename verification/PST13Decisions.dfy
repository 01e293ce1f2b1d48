/** What the multivariate scheme commits to, opens and decides (marlin_pst13_pc/mod.rs), for whatever
    polynomials, commitments, values and proof. */
module PST13Decisions {
  import opened PrimeField
  import opened Vectors
  import opened SparsePolynomials
  import opened MarlinPST13Keys
  import opened MarlinPST13
  import opened PST13BatchCheck

  // ----- degrees

  /** The degree of a polynomial is the greatest of its terms. */
  lemma {:induction false} PolyDegreeIs(p: Poly)
    ensures forall i :: 0 <= i < |p| ==> TermDegree(p[i].1) <= PolyDegree(p)
    ensures p != [] ==> exists i :: 0 <= i < |p| && TermDegree(p[i].1) == PolyDegree(p)
  {
    if p != [] {
      PolyDegreeIs(p[1..]);
      assert forall i :: 0 < i < |p| ==> p[i] == p[1..][i - 1];
      if |p| > 1 {
        var i :| 0 <= i < |p[1..]| && TermDegree(p[1..][i].1) == PolyDegree(p[1..]);
        assert p[i + 1] == p[1..][i];
        assert TermDegree(p[0].1) == PolyDegree(p) || TermDegree(p[i + 1].1) == PolyDegree(p);
      } else {
        assert TermDegree(p[0].1) == PolyDegree(p);
      }
    }
  }

  lemma {:induction false} TermsAreIn(p: Poly, n: nat)
    ensures TermsIn(p, n) <==> forall i :: 0 <= i < |p| ==> Valid(p[i].1, 0, n)
  {
    if p != [] {
      TermsAreIn(p[1..], n);
      assert forall i :: 0 < i < |p| ==> p[i] == p[1..][i - 1];
      assert forall i :: 0 <= i < |p[1..]| ==> p[1..][i] == p[i + 1];
    }
  }

  /** open errs exactly if some polynomial has a term beyond the supported degree. */
  lemma {:induction false} DegreesOkIff(ck: CommitterKey, ps: seq<LabeledPolynomial>, n: nat)
    requires n <= |ps|
    ensures DegreesOk(ck, ps, n)
            <==> forall i :: 0 <= i < n ==> TermsBelow(ck.supportedDegree, ps[i].polynomial.terms)
  {
    if n > 0 {
      DegreesOkIff(ck, ps, n - 1);
      PolyDegreeIs(ps[n - 1].polynomial.terms);
    }
  }

  predicate TermsBelow(degree: nat, p: Poly) {
    forall i :: 0 <= i < |p| ==> TermDegree(p[i].1) <= degree
  }

  // ----- commit

  /** A commitment is blinded with the coin exactly if it hides, and with nothing otherwise. */
  lemma CommitBlinds(ck: CommitterKey, p: LabeledPolynomial, coin: MVPolynomial)
    requires CommitOne(ck, p, coin).Ok?
    ensures CommitOne(ck, p, coin).value.1 == if p.hidingBound.Some? then coin else MVPolynomial(0, [])
  {
  }

  // ----- check

  /** Every element with its challenge. */
  function Terms(values: seq<Fp>, xi: Squeezes): (r: seq<Fp>)
    ensures |r| == |values| && forall i :: 0 <= i < |r| ==> r[i] == Mul(values[i], xi(i))
  {
    seq(|values|, i requires 0 <= i < |values| => Term(values, xi, i))
  }

  function Term(values: seq<Fp>, xi: Squeezes, i: nat): (r: Fp)
    requires i < |values|
  {
    Mul(values[i], xi(i))
  }

  lemma {:induction false} WeightedIs(values: seq<Fp>, xi: Squeezes, n: nat)
    requires n <= |values|
    ensures Weighted(values, xi, n) == Sum(Terms(values, xi)[..n])
  {
    if n > 0 {
      WeightedIs(values, xi, n - 1);
      SumNext(Terms(values, xi), n);
    }
  }

  /** What check compares, with the sums of the commitments and of the values: the two sides differ by
      the imbalance of that claim. */
  lemma CheckDecides(vk: VerifierKey, comms: seq<Fp>, point: seq<Fp>, values: seq<Fp>, proof: Proof, xi: Squeezes)
    ensures var c, v := Weighted(comms, xi, |comms|), Weighted(values, xi, |values|);
            && c == Sum(Terms(comms, xi)) && v == Sum(Terms(values, xi))
            && CheckOutcome(vk, c, point, v, proof)
               == if |proof.w| > |vk.betaH| || |proof.w| > |point| then Panic
                  else Ok(MVImbalance(vk, MVClaim(c, point, v, proof)) == 0)
  {
    var c, v := Weighted(comms, xi, |comms|), Weighted(values, xi, |values|);
    WeightedIs(comms, xi, |comms|);
    WeightedIs(values, xi, |values|);
    assert Terms(comms, xi)[..|comms|] == Terms(comms, xi) && Terms(values, xi)[..|values|] == Terms(values, xi);
    if |proof.w| <= |vk.betaH| && |proof.w| <= |point| {
      MVCheckIsDeficit(vk, MVClaim(c, point, v, proof));
      MVDeficitIsImbalance(vk, MVClaim(c, point, v, proof));
    }
  }
}
