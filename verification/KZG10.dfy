/** The univariate scheme underneath Marlin and Sonic (kzg10/mod.rs). */
module KZG10 {
  import opened PrimeField
  import opened Vectors
  import opened Polynomials
  import StreamingKzg
  import KzgVerifier

  /** The random choices of setup. */
  datatype Trapdoor = Trapdoor(beta: Fp, g: Fp, gammaG: Fp, h: Fp)

  datatype UniversalParams = UniversalParams(powersOfG: seq<Fp>, powersOfGammaG: seq<Fp>, h: Fp, betaH: Fp,
                                             negPowersOfH: seq<Fp>)
  datatype Powers = Powers(powersOfG: seq<Fp>, powersOfGammaG: seq<Fp>)
  datatype VerifierKey = VerifierKey(g: Fp, gammaG: Fp, h: Fp, betaH: Fp)
  datatype Proof = Proof(w: Fp, randomV: Option<Fp>)
  datatype LabeledPolynomial = LabeledPolynomial(polynomial: seq<Fp>, degreeBound: Option<nat>,
                                                 hidingBound: Option<nat>)

  // ----- setup

  ghost predicate HonestParams(pp: UniversalParams, maxDegree: nat, td: Trapdoor) {
    && pp.powersOfG == PowersFrom(td.g, td.beta, maxDegree + 1)
    && pp.powersOfGammaG == PowersFrom(td.gammaG, td.beta, maxDegree + 2)
    && pp.h == td.h && pp.betaH == Mul(td.h, td.beta)
    && (forall i :: 0 <= i < |pp.negPowersOfH| ==> Mul(pp.negPowersOfH[i], Pow(td.beta, i)) == td.h)
  }

  /** h divided by the powers of beta, up to the maximal degree. */
  method NegativePowers(h: Fp, beta: Fp, inverse: Fp, maxDegree: nat) returns (powers: seq<Fp>)
    requires Mul(beta, inverse) == 1
    ensures |powers| == maxDegree + 1
    ensures forall i :: 0 <= i <= maxDegree ==> Mul(powers[i], Pow(beta, i)) == h
  {
    var negPowers: seq<Fp> := [1];
    var cur := inverse;
    Units(1);
    Units(h);
    assert Mul(inverse, Pow(beta, 1)) == 1 by {
      assert Pow(beta, 0) == 1;
      Units(beta);
      Commutes(beta, inverse);
    }
    for i := 0 to maxDegree
      invariant |negPowers| == i + 1 && Mul(cur, Pow(beta, i + 1)) == 1
      invariant forall j :: 0 <= j <= i ==> Mul(negPowers[j], Pow(beta, j)) == 1
    {
      negPowers := negPowers + [cur];
      NextInverse(cur, beta, inverse, Pow(beta, i + 1));
      cur := Mul(cur, inverse);
    }
    powers := seq(|negPowers|, i requires 0 <= i < |negPowers| => Mul(h, negPowers[i]));
    forall i | 0 <= i <= maxDegree ensures Mul(powers[i], Pow(beta, i)) == h {
      MulAssociates(h, negPowers[i], Pow(beta, i));
      Units(h);
    }
  }

  lemma NextInverse(cur: Fp, beta: Fp, inverse: Fp, p: Fp)
    requires Mul(cur, p) == 1 && Mul(beta, inverse) == 1
    ensures Mul(Mul(cur, inverse), Mul(beta, p)) == 1
  {
    assert Mul(Mul(cur, inverse), Mul(beta, p)) == Mul(Mul(beta, inverse), Mul(cur, p)) by { RingLaws(); }
    Units(1);
  }

  /** setup; Err for degree zero, Panic where it would divide by a trapdoor of zero. */
  method Setup(maxDegree: nat, produceG2Powers: bool, td: Trapdoor) returns (r: Outcome<UniversalParams>)
    ensures r.Err? <==> maxDegree < 1
    ensures r.Panic? <==> maxDegree >= 1 && produceG2Powers && td.beta == 0
    ensures r.Ok? ==> HonestParams(r.value, maxDegree, td)
    ensures r.Ok? ==> |r.value.negPowersOfH| == if produceG2Powers then maxDegree + 1 else 0
  {
    if maxDegree < 1 {
      return Err;
    }
    var powersOfBeta: seq<Fp> := [1];
    var cur := td.beta;
    Units(td.beta);
    for i := 0 to maxDegree + 1
      invariant |powersOfBeta| == i + 1 && cur == Pow(td.beta, i + 1)
      invariant forall j :: 0 <= j <= i ==> powersOfBeta[j] == Pow(td.beta, j)
    {
      powersOfBeta := powersOfBeta + [cur];
      Commutes(cur, td.beta);
      cur := Mul(cur, td.beta);
    }
    ScaledPowers(td.g, td.beta, powersOfBeta[..maxDegree + 1]);
    ScaledPowers(td.gammaG, td.beta, powersOfBeta);
    var negPowers: seq<Fp> := [];
    if produceG2Powers {
      var inverse := Inverse(td.beta);
      if inverse.None? {
        return Panic;
      }
      negPowers := NegativePowers(td.h, td.beta, inverse.value, maxDegree);
    }
    return Ok(UniversalParams(Scale(td.g, powersOfBeta[..maxDegree + 1]), Scale(td.gammaG, powersOfBeta), td.h,
                              Mul(td.h, td.beta), negPowers));
  }

  lemma ScaledPowers(g: Fp, x: Fp, powers: seq<Fp>)
    requires forall j :: 0 <= j < |powers| ==> powers[j] == Pow(x, j)
    ensures Scale(g, powers) == PowersFrom(g, x, |powers|)
  {
    forall j | 0 <= j < |powers| ensures Scale(g, powers)[j] == PowersFrom(g, x, |powers|)[j] {
      ScaleIndex(g, powers, j);
      PowersIndex(g, x, |powers|, j);
    }
  }

  /** A suffix of the powers starts at a higher power. */
  lemma {:induction false} PowersSuffix(s: Fp, x: Fp, n: nat, k: nat)
    requires k <= n
    ensures PowersFrom(s, x, n)[k..] == PowersFrom(Mul(s, Pow(x, k)), x, n - k)
    decreases n
  {
    if k == 0 {
      Units(s);
    } else {
      PowersSuffix(Mul(s, x), x, n - 1, k - 1);
      MulAssociates(s, x, Pow(x, k - 1));
      assert PowersFrom(s, x, n)[k..] == PowersFrom(Mul(s, x), x, n - 1)[k - 1..];
    }
  }

  // ----- degrees and multi-scalar multiplications

  /** The degree; zero for the zero polynomial. */
  function Degree(f: seq<Fp>): nat {
    if f == [] then 0
    else if f[|f| - 1] == 0 then Degree(f[..|f| - 1])
    else |f| - 1
  }

  predicate IsZero(f: seq<Fp>) {
    forall i :: 0 <= i < |f| ==> f[i] == 0
  }

  lemma {:induction false} AboveDegree(f: seq<Fp>, i: nat)
    requires Degree(f) < i < |f|
    ensures f[i] == 0
  {
    var n := |f| - 1;
    if f[n] == 0 && i < n { AboveDegree(f[..n], i); }
  }

  /** skip_leading_zeros_and_convert_to_bigints: how many low coefficients are zero. */
  method SkipLeadingZeros(f: seq<Fp>) returns (numLeadingZeros: nat, coeffs: seq<Fp>)
    ensures numLeadingZeros <= |f| && coeffs == f[numLeadingZeros..]
    ensures forall i :: 0 <= i < numLeadingZeros ==> f[i] == 0
    ensures numLeadingZeros < |f| ==> f[numLeadingZeros] != 0
  {
    numLeadingZeros := 0;
    while numLeadingZeros < |f| && f[numLeadingZeros] == 0
      invariant numLeadingZeros <= |f| && forall i :: 0 <= i < numLeadingZeros ==> f[i] == 0
    {
      numLeadingZeros := numLeadingZeros + 1;
    }
    coeffs := f[numLeadingZeros..];
  }

  /** Leaving out low zero coefficients and their powers does not change the product. */
  lemma {:induction false} SkipInner(powers: seq<Fp>, f: seq<Fp>, k: nat)
    requires k <= |f| && k <= |powers| && forall i :: 0 <= i < k ==> f[i] == 0
    ensures Inner(powers[k..], f[k..]) == Inner(powers, f)
    decreases k
  {
    if k > 0 {
      SkipInner(powers[1..], f[1..], k - 1);
      assert powers[1..][k - 1..] == powers[k..] && f[1..][k - 1..] == f[k..];
      Units(powers[0]);
      Units(Inner(powers[1..], f[1..]));
    }
  }

  /** The product of enough powers with a polynomial is its value. */
  lemma PowersEvaluate(s: Fp, x: Fp, n: nat, f: seq<Fp>)
    requires Degree(f) < n
    ensures Inner(PowersFrom(s, x, n), f) == Mul(s, Eval(f, x))
  {
    var g := if |f| <= n then f else f[..n];
    forall k: nat ensures Coef(f, k) == Coef(g, k) {
      if n <= k < |f| { AboveDegree(f, k); }
    }
    InnerPolyEq(PowersFrom(s, x, n), f, g);
    EvalPolyEq(f, g, x);
    InnerPowers(s, x, n, g);
  }

  /** A multi-scalar multiplication that skips the low zero coefficients. */
  method CommitCoefficients(powers: seq<Fp>, f: seq<Fp>) returns (c: Fp)
    requires Degree(f) < |powers|
    ensures c == Inner(powers, f)
  {
    var k, coeffs := SkipLeadingZeros(f);
    if k <= |powers| {
      SkipInner(powers, f, k);
      c := Inner(powers[k..], coeffs);
    } else {
      forall j: nat ensures Coef(f, j) == Coef([], j) {
        if |powers| <= j < |f| { AboveDegree(f, j); }
      }
      InnerZero(powers, f);
      c := 0;
    }
  }

  // ----- commit

  /** What commit returns; coin is the blinding polynomial it would sample. */
  function Committed(powers: Powers, f: seq<Fp>, hidingBound: Option<nat>, coin: seq<Fp>): Option<(Fp, seq<Fp>)> {
    if Degree(f) + 1 > |powers.powersOfG| then None
    else if hidingBound.Some? && (Degree(coin) == 0 || Degree(coin) >= |powers.powersOfGammaG|) then None
    else
      var rand := if hidingBound.Some? then coin else [];
      Some((Add(Inner(powers.powersOfG, f), Inner(powers.powersOfGammaG, rand)), rand))
  }

  /** commit; None where the source returns an error. */
  method Commit(powers: Powers, f: seq<Fp>, hidingBound: Option<nat>, coin: seq<Fp>) returns (r: Option<(Fp, seq<Fp>)>)
    ensures r == Committed(powers, f, hidingBound, coin)
  {
    if Degree(f) + 1 > |powers.powersOfG| {
      return None;
    }
    var commitment := CommitCoefficients(powers.powersOfG, f);
    var rand: seq<Fp> := [];
    if hidingBound.Some? {
      rand := coin;
      if Degree(rand) == 0 || Degree(rand) >= |powers.powersOfGammaG| {
        return None;
      }
    }
    return Some((Add(commitment, Inner(powers.powersOfGammaG, rand)), rand));
  }

  /** The powers of one key: s, s * beta, ... and t, t * beta, .... */
  ghost predicate HonestPowers(powers: Powers, s: Fp, t: Fp, beta: Fp) {
    && powers.powersOfG == PowersFrom(s, beta, |powers.powersOfG|)
    && powers.powersOfGammaG == PowersFrom(t, beta, |powers.powersOfGammaG|)
  }

  lemma CommittedValue(powers: Powers, s: Fp, t: Fp, beta: Fp, f: seq<Fp>, hidingBound: Option<nat>, coin: seq<Fp>)
    requires HonestPowers(powers, s, t, beta) && Committed(powers, f, hidingBound, coin).Some?
    ensures var (c, rand) := Committed(powers, f, hidingBound, coin).value;
            && c == Add(Mul(s, Eval(f, beta)), Mul(t, Eval(rand, beta)))
            && (rand == [] || Degree(rand) < |powers.powersOfGammaG|)
  {
    PowersEvaluate(s, beta, |powers.powersOfG|, f);
    if hidingBound.Some? {
      PowersEvaluate(t, beta, |powers.powersOfGammaG|, coin);
    } else {
      Units(t);
    }
  }

  // ----- open

  /** open_with_witness_polynomial; None where the source returns an error. */
  function OpenedWith(powers: Powers, point: Fp, rand: seq<Fp>, quotient: seq<Fp>, hidingWitness: Option<seq<Fp>>):
    Option<Proof>
  {
    if Degree(quotient) + 1 > |powers.powersOfG| then None
    else match hidingWitness
      case None => Some(Proof(Inner(powers.powersOfG, quotient), None))
      case Some(hw) => Some(Proof(Add(Inner(powers.powersOfG, quotient), Inner(powers.powersOfGammaG, hw)),
                                  Some(Eval(rand, point))))
  }

  /** compute_witness_polynomial: the quotients by X - point. */
  function WitnessPolynomials(p: seq<Fp>, point: Fp, rand: seq<Fp>): (seq<Fp>, Option<seq<Fp>>) {
    (StreamingKzg.Witness(p, point), if IsZero(rand) then None else Some(StreamingKzg.Witness(rand, point)))
  }

  function Opened(powers: Powers, p: seq<Fp>, point: Fp, rand: seq<Fp>): Option<Proof> {
    if Degree(p) + 1 > |powers.powersOfG| then None else
      var (quotient, hidingWitness) := WitnessPolynomials(p, point, rand);
      OpenedWith(powers, point, rand, quotient, hidingWitness)
  }

  lemma {:induction false} WitnessDegree(f: seq<Fp>, z: Fp)
    ensures Degree(StreamingKzg.Witness(f, z)) <= Degree(f)
    ensures Degree(f) > 0 ==> Degree(StreamingKzg.Witness(f, z)) < Degree(f)
  {
    var w := StreamingKzg.Witness(f, z);
    var d: nat := if Degree(f) == 0 then 0 else Degree(f) - 1;
    forall i | 0 <= i < |w| && i > d ensures w[i] == 0 {
      StreamingKzg.WitnessAt(f, z, i);
      HighPartZero(f, i + 1, z);
    }
    DegreeAtMost(w, d);
  }

  lemma HighPartZero(f: seq<Fp>, i: nat, z: Fp)
    requires Degree(f) < i <= |f|
    ensures Eval(f[i..], z) == 0
  {
    forall k: nat ensures Coef(f[i..], k) == Coef([], k) {
      if i + k < |f| { AboveDegree(f, i + k); }
    }
    EvalZero(f[i..], z);
  }

  lemma {:induction false} DegreeAtMost(f: seq<Fp>, d: nat)
    requires forall i :: 0 <= i < |f| && i > d ==> f[i] == 0
    ensures Degree(f) <= d
  {
    if f != [] {
      var n := |f| - 1;
      if f[n] == 0 { DegreeAtMost(f[..n], d); }
    }
  }

  // ----- labelled polynomials

  /** get_shift_power: what a table holds for a bound. */
  function Lookup(table: seq<(nat, Fp)>, bound: nat): Option<Fp> {
    if table == [] then None
    else if table[0].0 == bound then Some(table[0].1)
    else Lookup(table[1..], bound)
  }

  /** check_degrees_and_bounds: the bound is enforced and leaves room for the degree. */
  predicate BoundOk(bounds: Option<seq<nat>>, maxDegree: nat, p: LabeledPolynomial) {
    p.degreeBound.Some? ==>
      && bounds.Some? && p.degreeBound.value in bounds.value
      && Degree(p.polynomial) <= p.degreeBound.value <= maxDegree
  }

  function Values(ps: seq<LabeledPolynomial>, x: Fp): (r: seq<Fp>)
    ensures |r| == |ps| && forall i :: 0 <= i < |r| ==> r[i] == Eval(ps[i].polynomial, x)
  {
    seq(|ps|, i requires 0 <= i < |ps| => Eval(ps[i].polynomial, x))
  }

  lemma EvalAdded(f: seq<Fp>, c: Fp, g: seq<Fp>, x: Fp)
    ensures Eval(Plus(f, Scale(c, g)), x) == Add(Eval(f, x), Mul(Eval(g, x), c))
  {
    EvalPlus(f, Scale(c, g), x);
    EvalScale(c, g, x);
    Commutes(c, Eval(g, x));
  }

  // ----- check

  predicate Check(vk: VerifierKey, comm: Fp, point: Fp, value: Fp, proof: Proof) {
    var inner := Sub(comm, Mul(vk.g, value));
    var inner' := if proof.randomV.Some? then Sub(inner, Mul(vk.gammaG, proof.randomV.value)) else inner;
    Mul(inner', vk.h) == Mul(proof.w, Sub(vk.betaH, Mul(vk.h, point)))
  }

  ghost predicate HonestVerifierKey(vk: VerifierKey, td: Trapdoor) {
    vk == VerifierKey(td.g, td.gammaG, td.h, Mul(td.h, td.beta))
  }

  /** When the proof is w = a / (beta - z) in the exponent, check compares the rest with zero. */
  lemma CheckIsExcess(vk: VerifierKey, td: Trapdoor, comm: Fp, point: Fp, value: Fp, proof: Proof, a: Fp)
    requires HonestVerifierKey(vk, td) && Mul(proof.w, Sub(td.beta, point)) == a
    ensures Check(vk, comm, point, value, proof)
            <==> Mul(td.h, Sub(Sub(Sub(comm, Mul(td.g, value)),
                                   if proof.randomV.Some? then Mul(td.gammaG, proof.randomV.value) else 0), a)) == 0
  {
    var inner := Sub(comm, Mul(vk.g, value));
    var v := if proof.randomV.Some? then Mul(td.gammaG, proof.randomV.value) else 0;
    assert Sub(inner, 0) == inner by {
      SubIff(inner, 0, inner);
      Units(inner);
    }
    var inner' := Sub(inner, v);
    assert Mul(proof.w, Sub(vk.betaH, Mul(vk.h, point))) == Mul(td.h, a) by {
      KzgVerifier.FactorOut(td.h, td.beta, point);
      MulSwaps(proof.w, td.h, Sub(td.beta, point));
    }
    Commutes(inner', td.h);
    KzgVerifier.FactorOut(td.h, inner', a);
    SubZero(Mul(td.h, inner'), Mul(td.h, a));
  }

  // ----- honest proofs

  lemma DegreeBelow(f: seq<Fp>, n: nat)
    requires n >= 1 && forall k: nat :: k >= n ==> Coef(f, k) == 0
    ensures Degree(f) < n
  {
    forall i | 0 <= i < |f| && i > n - 1 ensures f[i] == 0 { assert Coef(f, i) == 0; }
    DegreeAtMost(f, n - 1);
  }

  lemma ZeroEvaluates(f: seq<Fp>, x: Fp)
    requires IsZero(f)
    ensures Eval(f, x) == 0
  {
    forall k: nat ensures Coef(f, k) == Coef([], k) {
    }
    EvalZero(f, x);
  }

  /** What open returns, and what its proof is worth times beta - z. */
  lemma OpenedValue(powers: Powers, s: Fp, t: Fp, beta: Fp, p: seq<Fp>, z: Fp, r: seq<Fp>)
    requires HonestPowers(powers, s, t, beta)
    requires Degree(p) < |powers.powersOfG| && Degree(r) < |powers.powersOfGammaG|
    ensures var proof := Opened(powers, p, z, r);
            && proof.Some? && proof.value.randomV == (if IsZero(r) then None else Some(Eval(r, z)))
            && Mul(proof.value.w, Sub(beta, z))
               == Add(Mul(s, Sub(Eval(p, beta), Eval(p, z))), Mul(t, Sub(Eval(r, beta), Eval(r, z))))
  {
    var w, hw := StreamingKzg.Witness(p, z), StreamingKzg.Witness(r, z);
    WitnessDegree(p, z);
    WitnessDegree(r, z);
    PowersEvaluate(s, beta, |powers.powersOfG|, w);
    PowersEvaluate(t, beta, |powers.powersOfGammaG|, hw);
    StreamingKzg.WitnessCorrect(p, z, beta);
    StreamingKzg.WitnessCorrect(r, z, beta);
    var d := Sub(beta, z);
    WithFactor(s, Eval(w, beta), d);
    if IsZero(r) {
      ZeroEvaluates(r, beta);
      ZeroEvaluates(r, z);
      SubZero(0, 0);
      Units(t);
      Units(Mul(s, Mul(d, Eval(w, beta))));
    } else {
      WithFactor(t, Eval(hw, beta), d);
      BothWithFactor(Mul(s, Eval(w, beta)), Mul(t, Eval(hw, beta)), d);
    }
  }

  lemma WithFactor(s: Fp, e: Fp, d: Fp)
    ensures Mul(Mul(s, e), d) == Mul(s, Mul(d, e))
  {
    MulAssociates(s, e, d);
    Commutes(e, d);
  }

  lemma BothWithFactor(a: Fp, b: Fp, d: Fp)
    ensures Mul(Add(a, b), d) == Add(Mul(a, d), Mul(b, d))
  {
    RingLaws();
  }
}
