/** The commitment scheme for multilinear extensions (multilinear_pc/mod.rs): commit, open
    and check. */
module MultilinearPC {
  import opened PrimeField
  import opened Numbers
  import opened Vectors
  import opened MultilinearExtensions
  import opened MultilinearSetup

  /** commit; None where the source would index an empty key. */
  function Commit(ck: CommitterKey, f: seq<Fp>): Option<Fp> {
    if ck.powersOfG == [] then None else Some(Inner(ck.powersOfG[0], f))
  }

  /** The proof: one element per variable. */
  function Opening(powersOfH: seq<seq<Fp>>, f: seq<Fp>, z: seq<Fp>): (r: seq<Fp>)
    requires |powersOfH| == |z|
    ensures |r| == |z|
    decreases |z|
  {
    if z == [] then []
    else [Inner(powersOfH[0], Doubled(Slope(f)))] + Opening(powersOfH[1..], FixFirst(f, z[0]), z[1..])
  }

  /** One turn of open: the values q and r of the next round, filled in place. */
  method OpenRound(rk: seq<Fp>, k: nat, pointAtK: Fp) returns (q: seq<Fp>, r: seq<Fp>)
    requires k >= 1 && |rk| == Pow2(k)
    ensures q == Slope(rk) && r == FixFirst(rk, pointAtK)
  {
    q, r := Zeros(Pow2(k - 1)), Zeros(Pow2(k - 1));
    for b := 0 to Pow2(k - 1)
      invariant |q| == |r| == Pow2(k - 1)
      invariant forall j :: 0 <= j < b ==> q[j] == Slope(rk)[j]
      invariant forall j :: 0 <= j < b ==> r[j] == FixFirst(rk, pointAtK)[j]
    {
      q := q[b := Sub(rk[2 * b + 1], rk[2 * b])];
      r := r[b := Add(Mul(rk[2 * b], Sub(1, pointAtK)), Mul(rk[2 * b + 1], pointAtK))];
    }
  }

  /** open; None where the source panics: for a polynomial of the wrong size or a point that is
      too short. */
  method Open(ck: CommitterKey, f: seq<Fp>, nv: nat, point: seq<Fp>) returns (result: Option<seq<Fp>>)
    requires |f| == Pow2(nv) && |ck.powersOfH| == ck.nv
    ensures result.None? <==> nv != ck.nv || |point| < nv
    ensures result.Some? ==> result.value == Opening(ck.powersOfH, f, point[..nv])
  {
    if nv != ck.nv || |point| < nv {
      return None;
    }
    var r := seq(nv + 1, i => []);
    var q := seq(nv + 1, i => []);
    r := r[nv := f];
    var proofs: seq<Fp> := [];
    ghost var z := point[..nv];
    PendingAtStart(ck.powersOfH, f, z);
    for i := 0 to nv
      invariant |r| == |q| == nv + 1 && |r[nv - i]| == Pow2(nv - i)
      invariant Pending(proofs, ck.powersOfH, i, r[nv - i], z, Opening(ck.powersOfH, f, z))
    {
      var k := nv - i;
      var qk, rk := OpenRound(r[k], k, point[i]);
      PendingStep(proofs, ck.powersOfH, i, r[k], z, Opening(ck.powersOfH, f, z));
      q := q[k := qk];
      r := r[k - 1 := rk];
      var scalars := Doubled(q[k]);
      proofs := proofs + [Inner(ck.powersOfH[i], scalars)];
    }
    PendingAtEnd(proofs, ck.powersOfH, r[0], z, Opening(ck.powersOfH, f, z));
    result := Some(proofs);
  }

  /** The elements so far and those still to come make up the whole proof; Peek opens it. */
  ghost predicate Pending(proofs: seq<Fp>, powersOfH: seq<seq<Fp>>, i: nat, f: seq<Fp>, z: seq<Fp>, whole: seq<Fp>)
    requires i <= |powersOfH| == |z|
  {
    forall x :: Peek(x) ==> proofs + Opening(powersOfH[i..], f, z[i..]) == whole
  }

  lemma PendingAtStart(powersOfH: seq<seq<Fp>>, f: seq<Fp>, z: seq<Fp>)
    requires |powersOfH| == |z|
    ensures Pending([], powersOfH, 0, f, z, Opening(powersOfH, f, z))
  {
    assert powersOfH[0..] == powersOfH && z[0..] == z;
  }

  lemma PendingStep(proofs: seq<Fp>, powersOfH: seq<seq<Fp>>, i: nat, f: seq<Fp>, z: seq<Fp>, whole: seq<Fp>)
    requires i < |powersOfH| == |z| && Pending(proofs, powersOfH, i, f, z, whole)
    ensures Pending(proofs + [Inner(powersOfH[i], Doubled(Slope(f)))], powersOfH, i + 1, FixFirst(f, z[i]), z, whole)
  {
    assert Peek(0);
    assert powersOfH[i..][1..] == powersOfH[i + 1..] && z[i..][1..] == z[i + 1..];
    var first, rest := Inner(powersOfH[i], Doubled(Slope(f))),
      Opening(powersOfH[i + 1..], FixFirst(f, z[i]), z[i + 1..]);
    assert Opening(powersOfH[i..], f, z[i..]) == [first] + rest;
    AppendAssociates(proofs, [first], rest);
  }

  lemma PendingAtEnd(proofs: seq<Fp>, powersOfH: seq<seq<Fp>>, f: seq<Fp>, z: seq<Fp>, whole: seq<Fp>)
    requires |powersOfH| == |z| && Pending(proofs, powersOfH, |z|, f, z, whole)
    ensures proofs == whole
  {
    assert Peek(0);
    assert z[|z|..] == [];
  }

  /** The product of pairings: (g^t_i - g^z_i) with the i-th element of the proof. */
  function PairingProduct(mask: seq<Fp>, g: Fp, z: seq<Fp>, proofs: seq<Fp>): Fp
    requires |mask| == |z| == |proofs|
  {
    if z == [] then 0
    else Add(Mul(Sub(mask[0], Mul(g, z[0])), proofs[0]), PairingProduct(mask[1..], g, z[1..], proofs[1..]))
  }

  /** check; Panic where an index is out of range or the two lists of pairings differ in length. */
  function Check(vk: VerifierKey, commitment: Fp, point: seq<Fp>, value: Fp, proofs: seq<Fp>): Outcome<bool> {
    if |vk.gMaskRandom| < vk.nv || |point| < vk.nv || |proofs| != vk.nv then Panic
    else Ok(Mul(Sub(commitment, Mul(vk.g, value)), vk.h)
            == PairingProduct(vk.gMaskRandom[..vk.nv], vk.g, point[..vk.nv], proofs))
  }

  /** One pairing for every variable. */
  function Pairings(mask: seq<Fp>, g: Fp, z: seq<Fp>, proofs: seq<Fp>): (r: seq<Fp>)
    requires |mask| == |z| == |proofs|
    ensures |r| == |z| && forall i :: 0 <= i < |r| ==> r[i] == Mul(Sub(mask[i], Mul(g, z[i])), proofs[i])
  {
    seq(|z|, i requires 0 <= i < |z| => Mul(Sub(mask[i], Mul(g, z[i])), proofs[i]))
  }

  lemma {:induction false} PairingsSum(mask: seq<Fp>, g: Fp, z: seq<Fp>, proofs: seq<Fp>)
    requires |mask| == |z| == |proofs|
    ensures PairingProduct(mask, g, z, proofs) == Sum(Pairings(mask, g, z, proofs))
    decreases |z|
  {
    if z != [] {
      PairingsSum(mask[1..], g, z[1..], proofs[1..]);
      assert Pairings(mask, g, z, proofs)[1..] == Pairings(mask[1..], g, z[1..], proofs[1..]);
    }
  }

  /** Under honest keys check panics exactly for a point that is too short or a wrong number of proof
      elements, and otherwise compares (c - g v) h with the sum of g (t_i - z_i) times element i,
      whatever the commitment, value and proof. */
  lemma CheckDecides(ck: CommitterKey, vk: VerifierKey, t: seq<Fp>, commitment: Fp, point: seq<Fp>, value: Fp,
                     proofs: seq<Fp>, terms: seq<Fp>)
    requires HonestKeys(ck, vk, t) && |terms| == |t|
    requires |proofs| == |t| <= |point| ==>
               forall i :: 0 <= i < |t| ==> terms[i] == Mul(Mul(vk.g, Sub(t[i], point[i])), proofs[i])
    ensures Check(vk, commitment, point, value, proofs)
            == if |point| < |t| || |proofs| != |t| then Panic
               else Ok(Mul(Sub(commitment, Mul(vk.g, value)), vk.h) == Sum(terms))
  {
    if |point| >= |t| && |proofs| == |t| {
      var mask, z := vk.gMaskRandom[..vk.nv], point[..vk.nv];
      PairingsSum(mask, vk.g, z, proofs);
      forall i | 0 <= i < |t| ensures Pairings(mask, vk.g, z, proofs)[i] == terms[i] {
        ScaleIndex(vk.g, t, i);
        assert Sub(Mul(vk.g, t[i]), Mul(vk.g, z[i])) == Mul(vk.g, Sub(t[i], z[i])) by { RingLaws(); }
      }
      assert Pairings(mask, vk.g, z, proofs) == terms;
    }
  }

  // ----- the openings add up

  /** The rounds telescope to the difference between the values at the secrets and at the
      point. */
  lemma {:induction false} OpeningTelescopes(powersOfH: seq<seq<Fp>>, f: seq<Fp>, t: seq<Fp>, z: seq<Fp>, g: Fp, h: Fp)
    requires |t| == |z| && |f| == Pow2(|t|) && HonestPowers(powersOfH, t, h)
    ensures PairingProduct(Scale(g, t), g, z, Opening(powersOfH, f, z)) == Mul(Mul(g, h), Sub(Value(f, t), Value(f, z)))
    decreases |t|
  {
    if t == [] {
      SubZero(f[0], f[0]);
      Units(Mul(g, h));
    } else {
      var t', z', f' := t[1..], z[1..], FixFirst(f, z[0]);
      TailPowers(powersOfH, t, h);
      OpeningTelescopes(powersOfH[1..], f', t', z', g, h);
      RoundTelescopes(f, t, z[0]);
      var pi := Inner(powersOfH[0], Doubled(Slope(f)));
      assert pi == Mul(h, Value(Slope(f), t')) by {
        FirstElement(powersOfH[0], f, t, h);
      }
      var rest := Opening(powersOfH[1..], f', z');
      assert ([pi] + rest)[1..] == rest && ([Mul(g, t[0])] + Scale(g, t'))[1..] == Scale(g, t');
      StepAlgebra(g, h, t[0], z[0], Value(Slope(f), t'), Value(f, t), Value(f', t'), Value(f, z));
    }
  }

  lemma TailPowers(powers: seq<seq<Fp>>, t: seq<Fp>, h: Fp)
    requires HonestPowers(powers, t, h) && t != []
    ensures HonestPowers(powers[1..], t[1..], h) && powers[0] == Scale(h, EqTable(t))
  {
    assert t[0..] == t;
    forall i | 0 <= i < |t| - 1 ensures powers[1..][i] == Scale(h, EqTable(t[1..][i..])) {
      assert t[1..][i..] == t[i + 1..];
    }
  }

  lemma FirstElement(powers: seq<Fp>, f: seq<Fp>, t: seq<Fp>, h: Fp)
    requires t != [] && |f| == Pow2(|t|) && powers == Scale(h, EqTable(t))
    ensures Inner(powers, Doubled(Slope(f))) == Mul(h, Value(Slope(f), t[1..]))
  {
    InnerScale(h, EqTable(t), Doubled(Slope(f)));
    TableEvaluates(t, Doubled(Slope(f)));
    DoubledValue(Slope(f), t);
  }

  lemma StepAlgebra(g: Fp, h: Fp, t: Fp, z: Fp, s: Fp, a: Fp, b: Fp, c: Fp)
    requires Sub(a, b) == Mul(Sub(t, z), s)
    ensures Add(Mul(Sub(Mul(g, t), Mul(g, z)), Mul(h, s)), Mul(Mul(g, h), Sub(b, c))) == Mul(Mul(g, h), Sub(a, c))
  {
    assert Mul(Sub(Mul(g, t), Mul(g, z)), Mul(h, s)) == Mul(Mul(g, h), Sub(a, b)) by {
      assert Sub(Mul(g, t), Mul(g, z)) == Mul(g, Sub(t, z)) by { RingLaws(); }
      assert Mul(Mul(g, Sub(t, z)), Mul(h, s)) == Mul(Mul(g, h), Mul(Sub(t, z), s)) by { RingLaws(); }
    }
    Distributes(Mul(g, h), Sub(a, b), Sub(b, c));
    assert Add(Sub(a, b), Sub(b, c)) == Sub(a, c) by {
      SubIff(a, b, Sub(a, b));
      assert Add(Add(b, Sub(a, b)), Neg(c)) == Add(Sub(a, b), Add(b, Neg(c))) by { RingLaws(); }
    }
  }

  lemma CommitValue(ck: CommitterKey, t: seq<Fp>, f: seq<Fp>)
    requires HonestPowers(ck.powersOfG, t, ck.g) && t != [] && |f| == Pow2(|t|)
    ensures Commit(ck, f) == Some(Mul(ck.g, Value(f, t)))
  {
    assert t[0..] == t;
    InnerScale(ck.g, EqTable(t), f);
    TableEvaluates(t, f);
  }

  /** For every polynomial in as many variables as the keys and every claimed value, check on
      the honest proof says whether g * h times the error of the value is zero. */
  lemma Exactly(ck: CommitterKey, vk: VerifierKey, t: seq<Fp>, f: seq<Fp>, point: seq<Fp>, value: Fp)
    requires HonestKeys(ck, vk, t) && t != [] && |f| == Pow2(|t|) && |point| >= |t|
    ensures Commit(ck, f).Some?
    ensures Check(vk, Commit(ck, f).value, point, value, Opening(ck.powersOfH, f, point[..|t|]))
            == Ok(Mul(Mul(vk.g, vk.h), Sub(Value(f, point[..|t|]), value)) == 0)
  {
    var z := point[..|t|];
    CommitValue(ck, t, f);
    OpeningTelescopes(ck.powersOfH, f, t, z, vk.g, vk.h);
    assert vk.gMaskRandom[..vk.nv] == Scale(vk.g, t);
    SidesDiffer(vk.g, vk.h, Value(f, t), Value(f, z), value);
  }

  lemma SidesDiffer(g: Fp, h: Fp, a: Fp, b: Fp, v: Fp)
    ensures Mul(Sub(Mul(g, a), Mul(g, v)), h) == Mul(Mul(g, h), Sub(a, b)) <==> Mul(Mul(g, h), Sub(b, v)) == 0
  {
    var m := Mul(g, h);
    assert Mul(Sub(Mul(g, a), Mul(g, v)), h) == Mul(m, Sub(a, v)) by {
      assert Sub(Mul(g, a), Mul(g, v)) == Mul(g, Sub(a, v)) by { RingLaws(); }
      assert Mul(Mul(g, Sub(a, v)), h) == Mul(m, Sub(a, v)) by { RingLaws(); }
    }
    assert Add(Sub(a, b), Sub(b, v)) == Sub(a, v) by {
      SubIff(a, b, Sub(a, b));
      assert Add(Add(b, Sub(a, b)), Neg(v)) == Add(Sub(a, b), Add(b, Neg(v))) by { RingLaws(); }
    }
    Distributes(m, Sub(a, b), Sub(b, v));
    Units(Mul(m, Sub(a, b)));
    SubIff(Mul(m, Sub(a, v)), Mul(m, Sub(a, b)), Mul(m, Sub(b, v)));
    SubIff(Mul(m, Sub(a, v)), Mul(m, Sub(a, b)), 0);
  }

  /** Completeness for every trimmed size: the true value is accepted, and with generators that
      are not zero no other value is. */
  lemma AcceptsExactlyTheValue(pp: UniversalParams, t: seq<Fp>, supported: nat, f: seq<Fp>, point: seq<Fp>, value: Fp)
    requires HonestParams(pp, t) && 1 <= supported <= |t| && |f| == Pow2(supported) && |point| >= supported
    ensures Trim(pp, supported).Some?
    ensures var (ck, vk) := Trim(pp, supported).value;
            && |ck.powersOfH| == supported && Commit(ck, f).Some?
            && var outcome := Check(vk, Commit(ck, f).value, point, value,
                                    Opening(ck.powersOfH, f, point[..supported]));
            && (value == Value(f, point[..supported]) ==> outcome == Ok(true))
            && (pp.g != 0 && pp.h != 0 && value != Value(f, point[..supported]) ==> outcome == Ok(false))
  {
    TrimIsHonest(pp, t, supported);
    var (ck, vk) := Trim(pp, supported).value;
    Exactly(ck, vk, t[|t| - supported..], f, point, value);
    var d := Sub(Value(f, point[..supported]), value);
    SubZero(Value(f, point[..supported]), value);
    Units(Mul(vk.g, vk.h));
    if Mul(Mul(vk.g, vk.h), d) == 0 && pp.g != 0 && pp.h != 0 {
      if Mul(vk.g, vk.h) == 0 { NoZeroDivisors(vk.g, vk.h); }
      NoZeroDivisors(Mul(vk.g, vk.h), d);
    }
  }
}
