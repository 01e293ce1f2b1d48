/** Division of a multivariate polynomial by X_i - z_i, one variable after the other
    (divide_at_point of marlin_pst13_pc/mod.rs). */
module PointDivision {
  import opened PrimeField
  import opened SparsePolynomials

  /** binary_search_by on a term: the index of variable i. */
  function Find(t: Term, i: nat): (r: Option<nat>)
    ensures r.Some? ==> r.value < |t| && t[r.value].0 == i
  {
    if t == [] then None
    else if t[0].0 == i then Some(0)
    else match Find(t[1..], i) case None => None case Some(k) => Some(k + 1)
  }

  function Lowered(t: Term, k: nat): Term
    requires k < |t| && t[k].1 > 1
  {
    t[k := (t[k].0, t[k].1 - 1)]
  }

  function Removed(t: Term, k: nat): Term
    requires k < |t|
  {
    t[..k] + t[k + 1..]
  }

  /** The quotient terms of c * t, whose k-th variable is divided out. */
  function QuotientTerms(c: Fp, t: Term, k: nat, z: Fp): Poly
    requires k < |t| && t[k].1 > 0
    decreases if k < |t| then t[k].1 else 0
  {
    if t[k].1 == 1 then [(c, Removed(t, k))]
    else [(c, Lowered(t, k))] + QuotientTerms(Mul(c, z), Lowered(t, k), k, z)
  }

  function RemainderCoefficient(c: Fp, power: nat, z: Fp): Fp
    requires power > 0
    decreases power
  {
    if power == 1 then Mul(z, c) else RemainderCoefficient(Mul(c, z), power - 1, z)
  }

  /** One pass: quotient and remainder terms by X_i - z, constants left out. */
  function Pass(p: Poly, i: nat, z: Fp): (Poly, Poly)
    requires forall k :: 0 <= k < |p| ==> PositivePowers(p[k].1)
  {
    if p == [] then ([], []) else
      var n := |p| - 1;
      var (q, r) := Pass(p[..n], i, z);
      var (c, t) := p[n];
      assert PositivePowers(t);
      if t == [] then (q, r)
      else match Find(t, i)
        case None => (q, r + [(c, t)])
        case Some(k) => (q + QuotientTerms(c, t, k, z), r + [(RemainderCoefficient(c, t[k].1, z), Removed(t, k))])
  }

  predicate PositivePowers(t: Term) {
    forall k :: 0 <= k < |t| ==> t[k].1 > 0
  }

  /** All passes from variable i on. */
  function Quotients(p: Poly, i: nat, point: seq<Fp>, s: Shape): (r: seq<Poly>)
    requires i <= s.vars && Fits(p, i, s)
    ensures |r| == s.vars - i
    decreases s.vars - i
  {
    if i == s.vars then [] else
      PowersPositive(p, i, s);
      PassFits(p, i, At(point, i), s);
      var (q, r) := Pass(p, i, At(point, i));
      FitsFromCoefficients(r, i + 1, s);
      [FromCoefficients(q)] + Quotients(FromCoefficients(r), i + 1, point, s)
  }

  // ----- one term

  lemma {:induction false} ValidPositive(t: Term, lo: nat, n: nat)
    requires Valid(t, lo, n)
    ensures PositivePowers(t)
  {
    if t != [] {
      ValidPositive(t[1..], t[0].0 + 1, n);
      assert forall k :: 1 <= k < |t| ==> t[k] == t[1..][k - 1];
    }
  }

  lemma PowersPositive(p: Poly, lo: nat, s: Shape)
    requires Fits(p, lo, s)
    ensures forall k :: 0 <= k < |p| ==> PositivePowers(p[k].1)
  {
    forall k | 0 <= k < |p| ensures PositivePowers(p[k].1) {
      FitsPrefix(p, k, lo, s);
      ValidPositive(p[k].1, lo, s.vars);
    }
  }

  lemma {:induction false} EvalLowered(t: Term, k: nat, x: seq<Fp>)
    requires k < |t| && t[k].1 > 1
    ensures EvalTerm(t, x) == Mul(At(x, t[k].0), EvalTerm(Lowered(t, k), x))
  {
    var v, t' := At(x, t[k].0), Lowered(t, k);
    if k == 0 {
      assert t'[1..] == t[1..];
      MulAssociates(v, Pow(v, t[0].1 - 1), EvalTerm(t[1..], x));
    } else {
      assert t'[1..] == Lowered(t[1..], k - 1);
      EvalLowered(t[1..], k - 1, x);
      MulSwaps(Pow(At(x, t[0].0), t[0].1), v, EvalTerm(Lowered(t[1..], k - 1), x));
    }
  }

  lemma {:induction false} EvalRemoved(t: Term, k: nat, x: seq<Fp>)
    requires k < |t| && t[k].1 == 1
    ensures EvalTerm(t, x) == Mul(At(x, t[k].0), EvalTerm(Removed(t, k), x))
  {
    var v, t' := At(x, t[k].0), Removed(t, k);
    if k == 0 {
      assert t' == t[1..];
      assert Pow(v, 1) == v by { assert Pow(v, 0) == 1; Units(v); }
    } else {
      assert t'[1..] == Removed(t[1..], k - 1);
      EvalRemoved(t[1..], k - 1, x);
      MulSwaps(Pow(At(x, t[0].0), t[0].1), v, EvalTerm(Removed(t[1..], k - 1), x));
    }
  }

  lemma SplitStep(c: Fp, v: Fp, z: Fp, y: Fp)
    ensures Mul(c, Mul(v, y)) == Add(Mul(Sub(v, z), Mul(c, y)), Mul(Mul(c, z), y))
  {
    assert Mul(Sub(v, z), Mul(c, y)) == Add(Mul(c, Mul(v, y)), Neg(Mul(Mul(c, z), y))) by {
      assert Mul(Neg(z), Mul(c, y)) == Neg(Mul(Mul(c, z), y)) by { RingLaws(); }
      assert Mul(v, Mul(c, y)) == Mul(c, Mul(v, y)) by { RingLaws(); }
      Distributes(Mul(c, y), v, Neg(z));
      Commutes(Mul(c, y), v);
      Commutes(Mul(c, y), Neg(z));
      Commutes(Mul(c, y), Sub(v, z));
    }
    SubIff(Mul(c, Mul(v, y)), Mul(Mul(c, z), y), Mul(Sub(v, z), Mul(c, y)));
    Commutes(Mul(Sub(v, z), Mul(c, y)), Mul(Mul(c, z), y));
  }

  /** c * t == (X_v - z) * quotient + remainder, at every x. */
  lemma {:induction false} TermSplits(c: Fp, t: Term, k: nat, z: Fp, x: seq<Fp>)
    requires k < |t| && t[k].1 > 0
    ensures Mul(c, EvalTerm(t, x))
            == Add(Mul(Sub(At(x, t[k].0), z), EvalPoly(QuotientTerms(c, t, k, z), x)),
                   Mul(RemainderCoefficient(c, t[k].1, z), EvalTerm(Removed(t, k), x)))
    decreases t[k].1
  {
    var v := At(x, t[k].0);
    if t[k].1 == 1 {
      var y := EvalTerm(Removed(t, k), x);
      EvalRemoved(t, k, x);
      EvalOne(c, Removed(t, k), x);
      SplitStep(c, v, z, y);
      Commutes(c, z);
    } else {
      var t', c' := Lowered(t, k), Mul(c, z);
      var y, q := EvalTerm(t', x), EvalPoly(QuotientTerms(c', t', k, z), x);
      EvalLowered(t, k, x);
      TermSplits(c', t', k, z, x);
      assert Removed(t', k) == Removed(t, k);
      assert ([(c, t')] + QuotientTerms(c', t', k, z))[1..] == QuotientTerms(c', t', k, z);
      SplitStep(c, v, z, y);
      JoinSplits(Sub(v, z), Mul(c, y), q, Mul(RemainderCoefficient(c', t'[k].1, z), EvalTerm(Removed(t, k), x)));
    }
  }

  lemma JoinSplits(d: Fp, a: Fp, b: Fp, r: Fp)
    ensures Add(Mul(d, a), Add(Mul(d, b), r)) == Add(Mul(d, Add(a, b)), r)
  {
    Distributes(d, a, b);
    AddAssociates(Mul(d, a), Mul(d, b), r);
  }

  // ----- the terms that come out of it

  lemma {:induction false} LoweredFits(t: Term, k: nat, lo: nat, n: nat)
    requires k < |t| && t[k].1 > 1 && Valid(t, lo, n)
    ensures Valid(Lowered(t, k), lo, n) && TermDegree(Lowered(t, k)) == TermDegree(t) - 1
  {
    if k == 0 {
      assert Lowered(t, k)[1..] == t[1..];
    } else {
      LoweredFits(t[1..], k - 1, t[0].0 + 1, n);
      assert Lowered(t, k)[1..] == Lowered(t[1..], k - 1);
    }
  }

  lemma {:induction false} RemovedFits(t: Term, k: nat, lo: nat, n: nat)
    requires k < |t| && Valid(t, lo, n)
    ensures Valid(Removed(t, k), lo, n) && TermDegree(Removed(t, k)) == TermDegree(t) - t[k].1
    ensures k == 0 ==> Valid(Removed(t, k), t[0].0 + 1, n)
  {
    if k == 0 {
      assert Removed(t, k) == t[1..];
      ValidWeakens(t[1..], t[0].0 + 1, lo, n);
    } else {
      RemovedFits(t[1..], k - 1, t[0].0 + 1, n);
      assert Removed(t, k)[1..] == Removed(t[1..], k - 1);
    }
  }

  lemma {:induction false} QuotientTermsFit(c: Fp, t: Term, k: nat, z: Fp, lo: nat, s: Shape)
    requires k < |t| && t[k].1 > 0 && TermFits(t, lo, s)
    ensures Fits(QuotientTerms(c, t, k, z), lo, s.(degree := s.degree - 1))
    decreases t[k].1
  {
    var s' := s.(degree := s.degree - 1);
    if t[k].1 == 1 {
      RemovedFits(t, k, lo, s.vars);
      assert [(c, Removed(t, k))][1..] == [];
    } else {
      LoweredFits(t, k, lo, s.vars);
      var t' := Lowered(t, k);
      QuotientTermsFit(Mul(c, z), t', k, z, lo, s);
      assert ([(c, t')] + QuotientTerms(Mul(c, z), t', k, z))[1..] == QuotientTerms(Mul(c, z), t', k, z);
    }
  }

  /** Variable i can only come first in a term without variables below i. */
  lemma {:induction false} FoundFirst(t: Term, i: nat, n: nat)
    requires Valid(t, i, n) && t != []
    ensures Find(t, i).Some? ==> Find(t, i).value == 0
    ensures Find(t, i).None? ==> Valid(t, i + 1, n)
  {
    if t[0].0 > i { NotFound(t[1..], i, t[0].0 + 1, n); }
  }

  lemma {:induction false} NotFound(t: Term, i: nat, lo: nat, n: nat)
    requires Valid(t, lo, n) && i < lo
    ensures Find(t, i).None?
  {
    if t != [] { NotFound(t[1..], i, t[0].0 + 1, n); }
  }

  // ----- one pass

  function ConstantPart(p: Poly): Fp {
    if p == [] then 0 else
      var n := |p| - 1;
      Add(ConstantPart(p[..n]), if p[n].1 == [] then p[n].0 else 0)
  }

  /** After the pass over variable i the quotient has lower degree and the dividend is free of
      variables up to i. */
  lemma {:induction false} PassFits(p: Poly, i: nat, z: Fp, s: Shape)
    requires Fits(p, i, s)
    ensures forall k :: 0 <= k < |p| ==> PositivePowers(p[k].1)
    ensures Fits(Pass(p, i, z).0, i, s.(degree := s.degree - 1))
    ensures Fits(Pass(p, i, z).1, i + 1, s)
  {
    PowersPositive(p, i, s);
    if p != [] {
      var n := |p| - 1;
      FitsPrefix(p, n, i, s);
      PassFits(p[..n], i, z, s);
      var (q, r) := Pass(p[..n], i, z);
      var (c, t) := p[n];
      if t != [] { PassFitsLast(q, r, c, t, i, z, s); }
    }
  }

  lemma PassFitsLast(q: Poly, r: Poly, c: Fp, t: Term, i: nat, z: Fp, s: Shape)
    requires TermFits(t, i, s) && t != [] && PositivePowers(t)
    requires Fits(q, i, s.(degree := s.degree - 1)) && Fits(r, i + 1, s)
    ensures Find(t, i).None? ==> Fits(r + [(c, t)], i + 1, s)
    ensures Find(t, i).Some? ==>
              var k := Find(t, i).value;
              && Fits(q + QuotientTerms(c, t, k, z), i, s.(degree := s.degree - 1))
              && Fits(r + [(RemainderCoefficient(c, t[k].1, z), Removed(t, k))], i + 1, s)
  {
    FoundFirst(t, i, s.vars);
    match Find(t, i)
    case None =>
      OneFits(c, t, i + 1, s);
      FitsAppend(r, [(c, t)], i + 1, s);
    case Some(k) =>
      QuotientTermsFit(c, t, k, z, i, s);
      FitsAppend(q, QuotientTerms(c, t, k, z), i, s.(degree := s.degree - 1));
      RemovedFits(t, k, i, s.vars);
      OneFits(RemainderCoefficient(c, t[k].1, z), Removed(t, k), i + 1, s);
      FitsAppend(r, [(RemainderCoefficient(c, t[k].1, z), Removed(t, k))], i + 1, s);
  }

  lemma OneFits(c: Fp, t: Term, lo: nat, s: Shape)
    requires TermFits(t, lo, s)
    ensures Fits([(c, t)], lo, s)
  {
    assert [(c, t)][1..] == [];
  }

  lemma {:induction false} PassSplits(p: Poly, i: nat, z: Fp, x: seq<Fp>)
    requires forall k :: 0 <= k < |p| ==> PositivePowers(p[k].1)
    ensures EvalPoly(p, x)
            == Add(ConstantPart(p), Add(Mul(Sub(At(x, i), z), EvalPoly(Pass(p, i, z).0, x)),
                                        EvalPoly(Pass(p, i, z).1, x)))
  {
    if p == [] {
      Units(Sub(At(x, i), z));
      Units(0);
    } else {
      var n := |p| - 1;
      var (c, t) := p[n];
      PassSplits(p[..n], i, z, x);
      assert p == p[..n] + [(c, t)];
      EvalAppend(p[..n], [(c, t)], x);
      EvalOne(c, t, x);
      var (q, r) := Pass(p[..n], i, z);
      assert PositivePowers(t);
      PassSplitsLast(ConstantPart(p[..n]), q, r, c, t, i, z, x);
    }
  }

  lemma PassSplitsLast(e: Fp, q: Poly, r: Poly, c: Fp, t: Term, i: nat, z: Fp, x: seq<Fp>)
    requires PositivePowers(t)
    ensures var d := Sub(At(x, i), z);
            var before := Add(e, Add(Mul(d, EvalPoly(q, x)), EvalPoly(r, x)));
            var y := Mul(c, EvalTerm(t, x));
            && (t == [] ==> Add(before, y) == Add(Add(e, c), Add(Mul(d, EvalPoly(q, x)), EvalPoly(r, x))))
            && (t != [] && Find(t, i).None? ==>
                  Add(before, y) == Add(Add(e, 0), Add(Mul(d, EvalPoly(q, x)), EvalPoly(r + [(c, t)], x))))
            && (t != [] && Find(t, i).Some? ==>
                  var k := Find(t, i).value;
                  Add(before, y) == Add(Add(e, 0),
                    Add(Mul(d, EvalPoly(q + QuotientTerms(c, t, k, z), x)),
                        EvalPoly(r + [(RemainderCoefficient(c, t[k].1, z), Removed(t, k))], x))))
  {
    var d := Sub(At(x, i), z);
    if t == [] {
      Units(c);
      MoveConstant(e, Add(Mul(d, EvalPoly(q, x)), EvalPoly(r, x)), c);
    } else if Find(t, i).None? {
      EvalAppend(r, [(c, t)], x);
      EvalOne(c, t, x);
      MoveRemainder(e, Mul(d, EvalPoly(q, x)), EvalPoly(r, x), Mul(c, EvalTerm(t, x)));
    } else {
      var k := Find(t, i).value;
      var w := RemainderCoefficient(c, t[k].1, z);
      TermSplits(c, t, k, z, x);
      EvalAppend(q, QuotientTerms(c, t, k, z), x);
      EvalAppend(r, [(w, Removed(t, k))], x);
      EvalOne(w, Removed(t, k), x);
      MoveBoth(e, d, EvalPoly(q, x), EvalPoly(r, x), EvalPoly(QuotientTerms(c, t, k, z), x),
               Mul(w, EvalTerm(Removed(t, k), x)));
    }
  }

  lemma MoveConstant(e: Fp, a: Fp, c: Fp)
    ensures Add(Add(e, a), c) == Add(Add(e, c), a)
  {
    RingLaws();
  }

  lemma MoveRemainder(e: Fp, a: Fp, r: Fp, y: Fp)
    ensures Add(Add(e, Add(a, r)), y) == Add(Add(e, 0), Add(a, Add(r, y)))
  {
    RingLaws();
  }

  lemma MoveBoth(e: Fp, d: Fp, q: Fp, r: Fp, q': Fp, r': Fp)
    ensures Add(Add(e, Add(Mul(d, q), r)), Add(Mul(d, q'), r')) == Add(Add(e, 0), Add(Mul(d, Add(q, q')), Add(r, r')))
  {
    Distributes(d, q, q');
    Units(e);
    MoveFour(e, Mul(d, q), Mul(d, q'), r, r');
  }

  lemma MoveFour(e: Fp, a: Fp, a': Fp, r: Fp, r': Fp)
    ensures Add(Add(e, Add(a, r)), Add(a', r')) == Add(e, Add(Add(a, a'), Add(r, r')))
  {
    AddAssociates(e, Add(a, r), Add(a', r'));
    assert Add(Add(a, r), Add(a', r')) == Add(Add(a, a'), Add(r, r')) by { RingLaws(); }
  }

  // ----- all passes

  /** Sum of (x_j - z_j) * w_j(x) for j from i on. */
  function Telescoped(ws: seq<Poly>, i: nat, point: seq<Fp>, x: seq<Fp>): Fp {
    if ws == [] then 0
    else Add(Mul(Sub(At(x, i), At(point, i)), EvalPoly(ws[0], x)), Telescoped(ws[1..], i + 1, point, x))
  }

  lemma {:induction false} NoVariables(p: Poly, x: seq<Fp>, y: seq<Fp>, s: Shape)
    requires Fits(p, s.vars, s)
    ensures EvalPoly(p, x) == EvalPoly(p, y)
  {
    if p != [] {
      NoVariables(p[1..], x, y, s);
      assert p[0].1 == [];
    }
  }

  /** p(x) - p(z) is the sum of (x_j - z_j) * w_j(x), for every x. */
  lemma {:induction false} QuotientsTelescope(p: Poly, i: nat, point: seq<Fp>, s: Shape, x: seq<Fp>)
    requires i <= s.vars && Fits(p, i, s)
    ensures Sub(EvalPoly(p, x), EvalPoly(p, point)) == Telescoped(Quotients(p, i, point, s), i, point, x)
    decreases s.vars - i
  {
    if i == s.vars {
      NoVariables(p, x, point, s);
      SubZero(EvalPoly(p, x), EvalPoly(p, point));
    } else {
      var z := At(point, i);
      PassFits(p, i, z, s);
      var (q, r) := Pass(p, i, z);
      FitsFromCoefficients(r, i + 1, s);
      QuotientsTelescope(FromCoefficients(r), i + 1, point, s, x);
      PassSplits(p, i, z, x);
      PassSplits(p, i, z, point);
      EvalFromCoefficients(q, x);
      EvalFromCoefficients(r, x);
      EvalFromCoefficients(r, point);
      SubZero(z, z);
      Units(EvalPoly(q, point));
      Units(EvalPoly(r, point));
      Difference(ConstantPart(p), Mul(Sub(At(x, i), z), EvalPoly(q, x)), EvalPoly(r, x), EvalPoly(r, point));
      var rest := Quotients(FromCoefficients(r), i + 1, point, s);
      assert ([FromCoefficients(q)] + rest)[1..] == rest;
    }
  }

  lemma Difference(e: Fp, a: Fp, r: Fp, r': Fp)
    ensures Sub(Add(e, Add(a, r)), Add(e, r')) == Add(a, Sub(r, r'))
  {
    SubIff(Add(e, Add(a, r)), Add(e, r'), Add(a, Sub(r, r')));
    assert Add(r', Sub(r, r')) == r by { SubIff(r, r', Sub(r, r')); }
    assert Add(Add(e, r'), Add(a, Sub(r, r'))) == Add(e, Add(a, Add(r', Sub(r, r')))) by { RingLaws(); }
  }

  /** The j-th quotient uses variables from the j-th on only and has lower degree. */
  lemma {:induction false} QuotientsFit(p: Poly, i: nat, point: seq<Fp>, s: Shape, j: nat)
    requires i <= s.vars && Fits(p, i, s) && j < s.vars - i
    ensures Fits(Quotients(p, i, point, s)[j], i + j, s.(degree := s.degree - 1))
    decreases j
  {
    var z := At(point, i);
    PassFits(p, i, z, s);
    var (q, r) := Pass(p, i, z);
    FitsFromCoefficients(q, i, s.(degree := s.degree - 1));
    FitsFromCoefficients(r, i + 1, s);
    if j > 0 { QuotientsFit(FromCoefficients(r), i + 1, point, s, j - 1); }
  }

  // ----- divide_at_point

  /** The quotients of p at the point. */
  function DividedAtPoint(p: Poly, point: seq<Fp>, s: Shape): (r: seq<Poly>)
    requires Fits(p, 0, s)
    ensures |r| == s.vars
  {
    if IsZero(p) then seq(s.vars, i => []) else Quotients(p, 0, point, s)
  }

  /** p(x) - p(z) is the sum of (x_j - z_j) * w_j(x) at every x. */
  lemma DivisionIdentity(p: Poly, point: seq<Fp>, s: Shape, x: seq<Fp>)
    requires Fits(p, 0, s)
    ensures Sub(EvalPoly(p, x), EvalPoly(p, point)) == Telescoped(DividedAtPoint(p, point, s), 0, point, x)
  {
    if IsZero(p) {
      EvalZero(p, x);
      EvalZero(p, point);
      SubZero(0, 0);
      TelescopedZeros(DividedAtPoint(p, point, s), 0, point, x);
    } else {
      QuotientsTelescope(p, 0, point, s, x);
    }
  }

  lemma {:induction false} TelescopedZeros(ws: seq<Poly>, i: nat, point: seq<Fp>, x: seq<Fp>)
    requires forall j :: 0 <= j < |ws| ==> ws[j] == []
    ensures Telescoped(ws, i, point, x) == 0
  {
    if ws != [] {
      TelescopedZeros(ws[1..], i + 1, point, x);
      Units(Sub(At(x, i), At(point, i)));
      Units(0);
    }
  }

  /** The j-th quotient uses variables from the j-th on only and its degree is below the
      dividend's; the quotients of a constant are zero. */
  lemma DivisionFits(p: Poly, point: seq<Fp>, s: Shape, j: nat)
    requires Fits(p, 0, s) && j < s.vars
    ensures Fits(DividedAtPoint(p, point, s)[j], j, s.(degree := s.degree - 1))
    ensures s.degree == 0 ==> DividedAtPoint(p, point, s)[j] == []
  {
    if !IsZero(p) { QuotientsFit(p, 0, point, s, j); }
  }

  /** The inner loop: divides one term repeatedly; termVec shrinks in place. */
  method DivideTerm(coefficient: Fp, term: Term, i: nat, idx: nat, z: Fp, quotients: Poly, remainders: Poly)
    returns (quotientTerms: Poly, remainderTerms: Poly)
    requires idx < |term| && term[idx].0 == i && term[idx].1 > 0
    ensures quotientTerms == quotients + QuotientTerms(coefficient, term, idx, z)
    ensures remainderTerms
            == remainders + [(RemainderCoefficient(coefficient, term[idx].1, z), Removed(term, idx))]
  {
    quotientTerms, remainderTerms := quotients, remainders;
    var coeff: Fp, termVec: Term := coefficient, term;
    while termVec[idx].1 > 1
      invariant idx < |termVec| && termVec[idx].0 == i && termVec[idx].1 > 0
      invariant Removed(termVec, idx) == Removed(term, idx)
      invariant quotientTerms + QuotientTerms(coeff, termVec, idx, z)
                == quotients + QuotientTerms(coefficient, term, idx, z)
      invariant RemainderCoefficient(coeff, termVec[idx].1, z)
                == RemainderCoefficient(coefficient, term[idx].1, z)
      decreases termVec[idx].1
    {
      ghost var before := quotientTerms;
      ghost var rest := QuotientTerms(Mul(coeff, z), Lowered(termVec, idx), idx, z);
      termVec := termVec[idx := (i, termVec[idx].1 - 1)];
      quotientTerms := quotientTerms + [(coeff, termVec)];
      assert before + ([(coeff, termVec)] + rest) == quotientTerms + rest;
      coeff := Mul(coeff, z);
    }
    termVec := termVec[..idx] + termVec[idx + 1..];
    quotientTerms := quotientTerms + [(coeff, termVec)];
    remainderTerms := remainderTerms + [(Mul(z, coeff), termVec)];
  }

  /** The loop over the terms of the current dividend. */
  method DividePass(cur: Poly, i: nat, z: Fp) returns (quotientTerms: Poly, remainderTerms: Poly)
    requires forall k :: 0 <= k < |cur| ==> PositivePowers(cur[k].1)
    ensures (quotientTerms, remainderTerms) == Pass(cur, i, z)
  {
    quotientTerms, remainderTerms := [], [];
    for n := 0 to |cur|
      invariant (quotientTerms, remainderTerms) == Pass(cur[..n], i, z)
    {
      var (coeff, term) := cur[n];
      assert cur[..n + 1][..n] == cur[..n];
      assert PositivePowers(term);
      if term != [] {
        match Find(term, i)
        case Some(idx) =>
          quotientTerms, remainderTerms := DivideTerm(coeff, term, i, idx, z, quotientTerms, remainderTerms);
        case None =>
          remainderTerms := remainderTerms + [(coeff, term)];
      }
    }
    assert cur[..|cur|] == cur;
  }

  lemma PushAssociates(before: seq<Poly>, q: Poly, rest: seq<Poly>)
    ensures before + ([q] + rest) == before + [q] + rest
  {
  }

  /** divide_at_point, for a polynomial in numVars variables; s bounds its terms. */
  method DivideAtPoint(p: Poly, point: seq<Fp>, numVars: nat, ghost s: Shape) returns (quotients: seq<Poly>)
    requires Fits(p, 0, s) && s.vars == numVars <= |point|
    ensures quotients == DividedAtPoint(p, point, s)
  {
    if IsZero(p) {
      return seq(numVars, i => []);
    }
    quotients := [];
    var cur := p;
    for i := 0 to numVars
      invariant Fits(cur, i, s) && quotients + Quotients(cur, i, point, s) == Quotients(p, 0, point, s)
    {
      PowersPositive(cur, i, s);
      PassFits(cur, i, point[i], s);
      var quotientTerms, remainderTerms := DividePass(cur, i, point[i]);
      FitsFromCoefficients(remainderTerms, i + 1, s);
      ghost var rest := Quotients(FromCoefficients(remainderTerms), i + 1, point, s);
      PushAssociates(quotients, FromCoefficients(quotientTerms), rest);
      quotients := quotients + [FromCoefficients(quotientTerms)];
      cur := FromCoefficients(remainderTerms);
    }
  }
}
