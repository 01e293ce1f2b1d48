/** Interpolation through distinct points, as verify_multi_points computes it
    (streaming_kzg/mod.rs), and the uniqueness of the interpolating polynomial. */
module Lagrange {
  import opened PrimeField
  import opened Vectors
  import opened Polynomials
  import opened Division
  import opened StreamingKzg

  ghost predicate Distinct(points: seq<Fp>) {
    forall j, k :: 0 <= j < k < |points| ==> points[j] != points[k]
  }

  // ----- few coefficients, many roots

  /** A polynomial with at most as many coefficients as it has roots is zero. */
  lemma {:induction false} RootsBound(d: seq<Fp>, points: seq<Fp>)
    requires Distinct(points) && |d| <= |points|
    requires forall p :: p in points ==> Eval(d, p) == 0
    ensures PolyEq(d, [])
    decreases |points|
  {
    if d != [] {
      var n := |points|;
      var p, rest := points[n - 1], points[..n - 1];
      assert points == rest + [p];
      var w := Witness(d, p)[..|d| - 1];
      forall q | q in rest ensures Eval(w, q) == 0 { QuotientRoot(d, rest, p, q); }
      RootsBound(w, rest);
      forall k: nat ensures Coef(d, k) == Coef([], k) {
        if k < |d| { RootCoef(d, p, w, k); }
      }
    }
  }

  lemma QuotientRoot(d: seq<Fp>, rest: seq<Fp>, p: Fp, q: Fp)
    requires d != [] && q in rest && Distinct(rest + [p])
    requires Eval(d, p) == 0 && Eval(d, q) == 0
    ensures Eval(Witness(d, p)[..|d| - 1], q) == 0
  {
    assert p != q by {
      var i :| 0 <= i < |rest| && rest[i] == q;
      assert (rest + [p])[i] == q && (rest + [p])[|rest|] == p;
    }
    assert Eval(Witness(d, p), q) == 0 by {
      WitnessCorrect(d, p, q);
      SubZero(q, p);
      SubZero(0, 0);
      NoZeroDivisors(Sub(q, p), Eval(Witness(d, p), q));
    }
    ShortWitness(d, p, q);
  }

  /** The last coefficient of the quotient by a root is zero. */
  lemma ShortWitness(d: seq<Fp>, p: Fp, q: Fp)
    requires d != [] && Eval(d, p) == 0
    ensures Eval(Witness(d, p)[..|d| - 1], q) == Eval(Witness(d, p), q)
  {
    var w := Witness(d, p);
    WitnessAt(d, p, |d| - 1);
    forall k: nat ensures Coef(w, k) == Coef(w[..|d| - 1], k) {
    }
    EvalPolyEq(w, w[..|d| - 1], q);
  }

  lemma RootCoef(d: seq<Fp>, p: Fp, w: seq<Fp>, k: nat)
    requires k < |d| && w == Witness(d, p)[..|d| - 1] && PolyEq(w, []) && Eval(d, p) == 0
    ensures d[k] == 0
  {
    assert Eval(d[k..], p) == 0 by {
      if k == 0 {
        assert d[0..] == d;
      } else {
        WitnessAt(d, p, k - 1);
        assert Coef(w, k - 1) == Coef([], k - 1);
      }
    }
    assert Eval(d[k + 1..], p) == 0 by {
      WitnessAt(d, p, k);
      if k < |d| - 1 { assert Coef(w, k) == Coef([], k); }
    }
    assert d[k..][1..] == d[k + 1..];
    Units(p);
    Units(d[k]);
  }

  /** Two polynomials with at most m coefficients that agree at m points are equal. */
  lemma InterpolantUnique(f: seq<Fp>, g: seq<Fp>, points: seq<Fp>)
    requires Distinct(points) && |f| <= |points| && |g| <= |points|
    requires forall p :: p in points ==> Eval(f, p) == Eval(g, p)
    ensures PolyEq(f, g)
  {
    var d := Plus(f, Scale(Neg(1), g));
    forall p | p in points ensures Eval(d, p) == 0 {
      EvalPlus(f, Scale(Neg(1), g), p);
      EvalScale(Neg(1), g, p);
      TimesMinusOne(Eval(g, p));
      SubZero(Eval(f, p), Eval(g, p));
    }
    RootsBound(d, points);
    forall k: nat ensures Coef(f, k) == Coef(g, k) {
      assert Coef(d, k) == Coef([], k);
      CoefPlus(f, Scale(Neg(1), g), k);
      CoefScale(Neg(1), g, k);
      TimesMinusOne(Coef(g, k));
      SubZero(Coef(f, k), Coef(g, k));
    }
  }

  lemma TimesMinusOne(a: Fp)
    ensures Mul(Neg(1), a) == Neg(a)
  {
    Commutes(Neg(1), a);
    NegDistributes(a, 1);
    Units(a);
  }

  // ----- Lagrange interpolation

  /** The product over k < n, k != j, of x - points[k]. */
  function Others(points: seq<Fp>, j: nat, n: nat, x: Fp): Fp
    requires n <= |points|
  {
    if n == 0 then 1
    else if n - 1 == j then Others(points, j, n - 1, x)
    else Mul(Others(points, j, n - 1, x), Sub(x, points[n - 1]))
  }

  /** The same product as a polynomial. */
  function OthersPoly(points: seq<Fp>, j: nat, n: nat): seq<Fp>
    requires n <= |points|
  {
    if n == 0 then [1]
    else if n - 1 == j then OthersPoly(points, j, n - 1)
    else Times(OthersPoly(points, j, n - 1), [Neg(points[n - 1]), 1])
  }

  lemma EvalLinear(a: Fp, x: Fp)
    ensures Eval([Neg(a), 1], x) == Sub(x, a)
  {
    assert [Neg(a), 1][1..] == [1] && [1][1..] == [];
    assert Eval([1], x) == 1 by { Units(x); Units(1); }
    Units(x);
    Commutes(Neg(a), x);
  }

  lemma {:induction false} OthersPolyEval(points: seq<Fp>, j: nat, n: nat, x: Fp)
    requires n <= |points|
    ensures Eval(OthersPoly(points, j, n), x) == Others(points, j, n, x)
  {
    if n == 0 {
      assert [1][1..] == [];
      Units(x);
      Units(1);
    } else {
      OthersPolyEval(points, j, n - 1, x);
      if n - 1 != j {
        EvalTimes(OthersPoly(points, j, n - 1), [Neg(points[n - 1]), 1], x);
        EvalLinear(points[n - 1], x);
      }
    }
  }

  lemma {:induction false} OthersPolyLength(points: seq<Fp>, j: nat, n: nat)
    requires n <= |points|
    ensures |OthersPoly(points, j, n)| == if j < n then n else n + 1
  {
    if n > 0 {
      OthersPolyLength(points, j, n - 1);
      if n - 1 != j { TimesLength(OthersPoly(points, j, n - 1), [Neg(points[n - 1]), 1]); }
    }
  }

  lemma {:induction false} OthersVanish(points: seq<Fp>, j: nat, n: nat, k: nat)
    requires k < n <= |points| && k != j
    ensures Others(points, j, n, points[k]) == 0
  {
    if n - 1 == k {
      Units(points[k]);
      Units(Others(points, j, n - 1, points[k]));
    } else {
      OthersVanish(points, j, n - 1, k);
      Units(Sub(points[k], points[n - 1]));
    }
  }

  lemma {:induction false} OthersNonzero(points: seq<Fp>, j: nat, n: nat)
    requires Distinct(points) && n <= |points| && j < |points|
    ensures Others(points, j, n, points[j]) != 0
  {
    if n == 0 {
    } else if n - 1 == j {
      OthersNonzero(points, j, n - 1);
    } else {
      OthersNonzero(points, j, n - 1);
      assert points[j] != points[n - 1];
      SubZero(points[j], points[n - 1]);
      if Mul(Others(points, j, n - 1, points[j]), Sub(points[j], points[n - 1])) == 0 {
        NoZeroDivisors(Others(points, j, n - 1, points[j]), Sub(points[j], points[n - 1]));
      }
    }
  }

  /** The inverses of the denominators; None where the source would unwrap a missing inverse. */
  method ScaInverses(evalPoints: seq<Fp>) returns (r: Option<seq<Fp>>)
    ensures r.Some? <==> Distinct(evalPoints)
    ensures r.Some? ==> |r.value| == |evalPoints|
    ensures r.Some? ==> forall j :: 0 <= j < |evalPoints| ==>
              Mul(Others(evalPoints, j, |evalPoints|, evalPoints[j]), r.value[j]) == 1
  {
    var scaInverse: seq<Fp> := [];
    for j := 0 to |evalPoints|
      invariant |scaInverse| == j
      invariant forall i :: 0 <= i < j ==>
                  Mul(Others(evalPoints, i, |evalPoints|, evalPoints[i]), scaInverse[i]) == 1
    {
      var sca: Fp := 1;
      for k := 0 to |evalPoints|
        invariant sca == Others(evalPoints, j, k, evalPoints[j])
      {
        if j == k {
          continue;
        }
        sca := Mul(sca, Sub(evalPoints[j], evalPoints[k]));
      }
      var inverse := Inverse(sca);
      if inverse.None? {
        if Distinct(evalPoints) { OthersNonzero(evalPoints, j, |evalPoints|); }
        return None;
      }
      scaInverse := scaInverse + [inverse.value];
    }
    InvertibleIsDistinct(evalPoints, scaInverse);
    return Some(scaInverse);
  }

  lemma InvertibleIsDistinct(points: seq<Fp>, scaInverse: seq<Fp>)
    requires |scaInverse| == |points|
    requires forall j :: 0 <= j < |points| ==> Mul(Others(points, j, |points|, points[j]), scaInverse[j]) == 1
    ensures Distinct(points)
  {
    forall j, k | 0 <= j < k < |points| ensures points[j] != points[k] {
      OthersVanish(points, j, |points|, k);
      Units(scaInverse[j]);
    }
  }

  /** The numerators of the Lagrange basis. */
  method LagrangeNumerators(evalPoints: seq<Fp>) returns (lang: seq<seq<Fp>>)
    ensures |lang| == |evalPoints|
    ensures forall j :: 0 <= j < |evalPoints| ==> lang[j] == OthersPoly(evalPoints, j, |evalPoints|)
  {
    lang := [];
    for j := 0 to |evalPoints|
      invariant |lang| == j
      invariant forall i :: 0 <= i < j ==> lang[i] == OthersPoly(evalPoints, i, |evalPoints|)
    {
      var lPoly: seq<Fp> := [1];
      for k := 0 to |evalPoints|
        invariant lPoly == OthersPoly(evalPoints, j, k)
      {
        if j == k {
          continue;
        }
        lPoly := Times(lPoly, [Neg(evalPoints[k]), 1]);
      }
      lang := lang + [lPoly];
    }
  }

  /** The interpolating polynomial through the first n points. */
  function Interpolant(evals: seq<Fp>, scaInverse: seq<Fp>, lang: seq<seq<Fp>>, n: nat): seq<Fp>
    requires n <= |evals| && n <= |scaInverse| && n <= |lang|
  {
    if n == 0 then [0] else
      Plus(Interpolant(evals, scaInverse, lang, n - 1), Scale(Mul(scaInverse[n - 1], evals[n - 1]), lang[n - 1]))
  }

  /** How many points and values are paired. */
  function Paired(points: nat, evals: nat): (n: nat)
    ensures n <= points && n <= evals && (n == points || n == evals)
  {
    if points < evals then points else evals
  }

  /** interpolate_poly: points and values are paired up to the end of the shorter list. */
  method InterpolatePoly(evalPoints: seq<Fp>, evals: seq<Fp>, scaInverse: seq<Fp>, lang: seq<seq<Fp>>)
    returns (res: seq<Fp>)
    requires |evalPoints| == |scaInverse| == |lang|
    ensures res == Interpolant(evals, scaInverse, lang, Paired(|evalPoints|, |evals|))
  {
    res := [0];
    for j := 0 to Paired(|evalPoints|, |evals|)
      invariant res == Interpolant(evals, scaInverse, lang, j)
    {
      var lPoly := Scale(Mul(scaInverse[j], evals[j]), lang[j]);
      res := Plus(res, lPoly);
    }
  }

  /** What the verifier has computed from the points alone. */
  ghost predicate LagrangeBasis(points: seq<Fp>, scaInverse: seq<Fp>, lang: seq<seq<Fp>>) {
    && |scaInverse| == |points| == |lang|
    && (forall j :: 0 <= j < |points| ==> Mul(Others(points, j, |points|, points[j]), scaInverse[j]) == 1)
    && (forall j :: 0 <= j < |points| ==> lang[j] == OthersPoly(points, j, |points|))
  }

  lemma {:induction false} InterpolantEval(points: seq<Fp>, evals: seq<Fp>, scaInverse: seq<Fp>, lang: seq<seq<Fp>>,
                                           n: nat, k: nat)
    requires LagrangeBasis(points, scaInverse, lang) && n <= |evals| && n <= |points| && k < |points|
    ensures Eval(Interpolant(evals, scaInverse, lang, n), points[k]) == if k < n then evals[k] else 0
  {
    var x := points[k];
    if n == 0 {
      assert [0][1..] == [];
      Units(x);
      Units(0);
    } else {
      var before, y := Interpolant(evals, scaInverse, lang, n - 1), evals[n - 1];
      InterpolantEval(points, evals, scaInverse, lang, n - 1, k);
      EvalPlus(before, Scale(Mul(scaInverse[n - 1], y), lang[n - 1]), x);
      BasisAt(points, scaInverse, lang, n - 1, y, k);
      Units(y);
      Units(Eval(before, x));
    }
  }

  /** One summand: the value at its own point, zero at the others. */
  lemma BasisAt(points: seq<Fp>, scaInverse: seq<Fp>, lang: seq<seq<Fp>>, j: nat, y: Fp, k: nat)
    requires LagrangeBasis(points, scaInverse, lang) && j < |points| && k < |points|
    ensures Eval(Scale(Mul(scaInverse[j], y), lang[j]), points[k]) == if k == j then y else 0
  {
    var x := points[k];
    EvalScale(Mul(scaInverse[j], y), lang[j], x);
    OthersPolyEval(points, j, |points|, x);
    if k == j {
      BasisAtOwn(Others(points, j, |points|, x), scaInverse[j], y);
    } else {
      OthersVanish(points, j, |points|, k);
      Units(Mul(scaInverse[j], y));
    }
  }

  lemma BasisAtOwn(o: Fp, i: Fp, y: Fp)
    requires Mul(o, i) == 1
    ensures Mul(Mul(i, y), o) == y
  {
    RingLaws();
    assert Mul(Mul(i, y), o) == Mul(y, Mul(o, i));
  }

  lemma {:induction false} InterpolantLength(points: seq<Fp>, evals: seq<Fp>, scaInverse: seq<Fp>, lang: seq<seq<Fp>>,
                                             n: nat)
    requires LagrangeBasis(points, scaInverse, lang) && n <= |evals| && n <= |points| && |points| >= 1
    ensures |Interpolant(evals, scaInverse, lang, n)| <= |points|
  {
    if n > 0 {
      InterpolantLength(points, evals, scaInverse, lang, n - 1);
      OthersPolyLength(points, n - 1, |points|);
    }
  }
}
