/** The multivariate commitment scheme (marlin_pst13_pc/mod.rs): commit, open and check. */
module MarlinPST13 {
  import opened PrimeField
  import opened SparsePolynomials
  import opened PointDivision
  import opened MarlinPST13Keys

  /** A polynomial knows how many variables it has, used or not. */
  datatype MVPolynomial = MVPolynomial(numVars: nat, terms: Poly)
  datatype LabeledPolynomial = LabeledPolynomial(polynomial: MVPolynomial, hidingBound: Option<nat>)
  datatype Proof = Proof(w: seq<Fp>, randomV: Option<Fp>)

  /** The field elements squeezed from the sponge, in order. */
  type Squeezes = nat -> Fp

  function PolyDegree(p: Poly): nat {
    if p == [] then 0
    else if TermDegree(p[0].1) > PolyDegree(p[1..]) then TermDegree(p[0].1) else PolyDegree(p[1..])
  }

  /** What the library guarantees of a polynomial: its terms use its variables only. */
  ghost predicate WellFormed(p: MVPolynomial, degree: nat, width: nat) {
    Fits(p.terms, 0, Shape(p.numVars, degree, width))
  }

  lemma {:induction false} ValidWidens(t: Term, lo: nat, n: nat, n': nat)
    requires Valid(t, lo, n) && n <= n'
    ensures Valid(t, lo, n')
  {
    if t != [] { ValidWidens(t[1..], t[0].0 + 1, n, n'); }
  }

  lemma {:induction false} FitsWidens(p: Poly, lo: nat, s: Shape, s': Shape)
    requires Fits(p, lo, s) && s.vars <= s'.vars && s.degree <= s'.degree && s.width <= s'.width
    ensures Fits(p, lo, s')
  {
    if p != [] {
      ValidWidens(p[0].1, lo, s.vars, s'.vars);
      FitsWidens(p[1..], lo, s, s');
    }
  }

  lemma {:induction false} FitsLower(p: Poly, lo: nat, lo': nat, s: Shape)
    requires Fits(p, lo, s) && lo' <= lo
    ensures Fits(p, lo', s)
  {
    if p != [] {
      ValidWeakens(p[0].1, lo, lo', s.vars);
      FitsLower(p[1..], lo, lo', s);
    }
  }

  // ----- committing

  /** The multi-scalar multiplication over looked-up powers; None where a look-up fails. */
  function CommitTerms(table: map<Term, Fp>, p: Poly): Option<Fp> {
    if p == [] then Some(0)
    else if p[0].1 !in table then None
    else match CommitTerms(table, p[1..])
      case None => None
      case Some(rest) => Some(Add(Mul(table[p[0].1], p[0].0), rest))
  }

  function BlindingPower(ck: CommitterKey, t: Term): Option<Fp> {
    if t == [] then Some(ck.gammaG)
    else if t[0].0 < |ck.powersOfGammaG| && 1 <= TermDegree(t) <= |ck.powersOfGammaG[t[0].0]|
    then Some(ck.powersOfGammaG[t[0].0][TermDegree(t) - 1])
    else None
  }

  function CommitBlinding(ck: CommitterKey, p: Poly): Option<Fp> {
    if p == [] then Some(0)
    else match BlindingPower(ck, p[0].1)
      case None => None
      case Some(power) =>
        match CommitBlinding(ck, p[1..])
        case None => None
        case Some(rest) => Some(Add(Mul(power, p[0].0), rest))
  }

  /** Every look-up succeeds and the result is the value at the trapdoor. */
  lemma {:induction false} CommitIsValue(ck: CommitterKey, p: Poly, s: Shape, td: Trapdoor)
    requires HonestTable(ck.powersOfG, ck.numVars, ck.supportedDegree, td)
    requires Fits(p, 0, s) && s.vars <= ck.numVars && s.degree <= ck.supportedDegree
    ensures CommitTerms(ck.powersOfG, p) == Some(Mul(td.g, EvalPoly(p, td.betas)))
  {
    if p == [] {
      Units(td.g);
    } else {
      CommitIsValue(ck, p[1..], s, td);
      ValidWidens(p[0].1, 0, s.vars, ck.numVars);
      TermValue(td.g, EvalTerm(p[0].1, td.betas), p[0].0, EvalPoly(p[1..], td.betas));
    }
  }

  lemma TermValue(g: Fp, y: Fp, c: Fp, rest: Fp)
    ensures Add(Mul(Mul(g, y), c), Mul(g, rest)) == Mul(g, Add(Mul(c, y), rest))
  {
    RingLaws();
  }

  /** The same for a blinding polynomial, whose terms have one variable at most. */
  lemma {:induction false} BlindingIsValue(ck: CommitterKey, p: Poly, s: Shape, td: Trapdoor)
    requires HonestBlinding(ck.powersOfGammaG, ck.numVars, ck.supportedDegree, td) && ck.gammaG == td.gammaG
    requires Fits(p, 0, s) && s.vars <= ck.numVars && s.degree <= ck.supportedDegree + 1 && s.width <= 1
    ensures CommitBlinding(ck, p) == Some(Mul(td.gammaG, EvalPoly(p, td.betas)))
  {
    if p == [] {
      Units(td.gammaG);
    } else {
      BlindingIsValue(ck, p[1..], s, td);
      BlindingPowerValue(ck, p[0].1, s, td);
      TermValue(td.gammaG, EvalTerm(p[0].1, td.betas), p[0].0, EvalPoly(p[1..], td.betas));
    }
  }

  lemma {:induction false} BlindingPowerValue(ck: CommitterKey, t: Term, s: Shape, td: Trapdoor)
    requires HonestBlinding(ck.powersOfGammaG, ck.numVars, ck.supportedDegree, td) && ck.gammaG == td.gammaG
    requires TermFits(t, 0, s) && s.vars <= ck.numVars && s.degree <= ck.supportedDegree + 1 && s.width <= 1
    ensures BlindingPower(ck, t) == Some(Mul(td.gammaG, EvalTerm(t, td.betas)))
  {
    if t == [] {
      Units(td.gammaG);
    } else {
      var v := t[0].0;
      assert t[1..] == [] && TermDegree(t) == t[0].1 && Valid(t, 0, s.vars);
      assert EvalTerm(t[1..], td.betas) == 1;
      assert HonestPowers(ck.powersOfGammaG[v], At(td.betas, v), ck.supportedDegree, td.gammaG);
      Units(Pow(At(td.betas, v), t[0].1));
    }
  }

  /** commit for one polynomial; coin is the random blinding polynomial it would sample. */
  function CommitOne(ck: CommitterKey, p: LabeledPolynomial, coin: MVPolynomial): Outcome<(Fp, MVPolynomial)> {
    if PolyDegree(p.polynomial.terms) > ck.supportedDegree then Err else
      match CommitTerms(ck.powersOfG, p.polynomial.terms)
      case None => Panic
      case Some(plain) =>
        if p.hidingBound.Some? && (p.hidingBound.value == 0 || p.hidingBound.value >= ck.supportedDegree + 1)
        then Err
        else
          var rand := if p.hidingBound.Some? then coin else MVPolynomial(0, []);
          match CommitBlinding(ck, rand.terms)
          case None => Panic
          case Some(blinding) => Ok((Add(plain, blinding), rand))
  }

  ghost predicate FirstRejected(ck: CommitterKey, ps: seq<LabeledPolynomial>, coins: seq<MVPolynomial>, i: nat,
                                err: bool)
    requires i < |ps| == |coins|
  {
    && (if err then CommitOne(ck, ps[i], coins[i]).Err? else CommitOne(ck, ps[i], coins[i]).Panic?)
    && forall j :: 0 <= j < i ==> CommitOne(ck, ps[j], coins[j]).Ok?
  }

  /** commit: stops at the first polynomial that is rejected. */
  method Commit(ck: CommitterKey, ps: seq<LabeledPolynomial>, coins: seq<MVPolynomial>)
    returns (r: Outcome<(seq<Fp>, seq<MVPolynomial>)>)
    requires |coins| == |ps|
    ensures r.Ok? <==> forall i :: 0 <= i < |ps| ==> CommitOne(ck, ps[i], coins[i]).Ok?
    ensures r.Ok? ==> |r.value.0| == |r.value.1| == |ps|
    ensures r.Ok? ==> forall i :: 0 <= i < |ps| ==> CommitOne(ck, ps[i], coins[i]) == Ok((r.value.0[i], r.value.1[i]))
    ensures r.Err? ==> exists i :: 0 <= i < |ps| && FirstRejected(ck, ps, coins, i, true)
    ensures r.Panic? ==> exists i :: 0 <= i < |ps| && FirstRejected(ck, ps, coins, i, false)
  {
    var comms: seq<Fp>, states: seq<MVPolynomial> := [], [];
    for i := 0 to |ps|
      invariant |comms| == |states| == i
      invariant forall j :: 0 <= j < i ==> CommitOne(ck, ps[j], coins[j]) == Ok((comms[j], states[j]))
    {
      match CommitOne(ck, ps[i], coins[i])
      case Err =>
        assert FirstRejected(ck, ps, coins, i, true);
        return Err;
      case Panic =>
        assert FirstRejected(ck, ps, coins, i, false);
        return Panic;
      case Ok((comm, rand)) =>
        comms := comms + [comm];
        states := states + [rand];
    }
    return Ok((comms, states));
  }

  /** A random blinding polynomial of degree bound + 1 in all variables of the key. */
  ghost predicate IsCoin(ck: CommitterKey, p: LabeledPolynomial, coin: MVPolynomial) {
    p.hidingBound.Some? ==> coin.numVars == ck.numVars && WellFormed(coin, p.hidingBound.value + 1, 1)
  }

  /** The polynomial lives in at most the variables of the key. */
  ghost predicate IsInput(ck: CommitterKey, p: LabeledPolynomial) {
    p.polynomial.numVars <= ck.numVars && WellFormed(p.polynomial, PolyDegree(p.polynomial.terms), p.polynomial.numVars)
  }

  /** The terms use the variables of the key only, whatever number the polynomial claims to have. */
  ghost predicate TermsIn(p: Poly, n: nat) {
    p == [] || (Valid(p[0].1, 0, n) && TermsIn(p[1..], n))
  }

  lemma {:induction false} FitsIsIn(p: Poly, s: Shape, n: nat)
    requires Fits(p, 0, s) && s.vars <= n
    ensures TermsIn(p, n)
  {
    if p != [] {
      ValidWidens(p[0].1, 0, s.vars, n);
      FitsIsIn(p[1..], s, n);
    }
  }

  /** A look-up fails exactly for a term in a variable that the key does not have. */
  lemma {:induction false} LookUpsSucceed(ck: CommitterKey, p: Poly, td: Trapdoor)
    requires HonestTable(ck.powersOfG, ck.numVars, ck.supportedDegree, td) && PolyDegree(p) <= ck.supportedDegree
    ensures CommitTerms(ck.powersOfG, p)
            == if TermsIn(p, ck.numVars) then Some(Mul(td.g, EvalPoly(p, td.betas))) else None
  {
    if p == [] {
      Units(td.g);
    } else {
      LookUpsSucceed(ck, p[1..], td);
      TermValue(td.g, EvalTerm(p[0].1, td.betas), p[0].0, EvalPoly(p[1..], td.betas));
    }
  }

  /** What commit answers for any polynomial: an error for too large a degree, a panic for a variable
      that the key does not have, an error for a hiding bound out of range, and otherwise the value
      at the trapdoor with its blinding. */
  lemma CommitOneIsValue(ck: CommitterKey, vk: VerifierKey, p: LabeledPolynomial, coin: MVPolynomial, td: Trapdoor)
    requires HonestKeys(ck, vk, td) && IsCoin(ck, p, coin)
    ensures var r, f := CommitOne(ck, p, coin), p.polynomial.terms;
            && (r.Panic? <==> PolyDegree(f) <= ck.supportedDegree && !TermsIn(f, ck.numVars))
            && (r.Ok? <==> PolyDegree(f) <= ck.supportedDegree && TermsIn(f, ck.numVars)
                           && (p.hidingBound.Some? ==> 1 <= p.hidingBound.value <= ck.supportedDegree))
            && (r.Ok? ==> r.value.0 == Add(Mul(td.g, EvalPoly(f, td.betas)),
                                           Mul(td.gammaG, EvalPoly(r.value.1.terms, td.betas))))
    ensures IsInput(ck, p) ==> TermsIn(p.polynomial.terms, ck.numVars)
  {
    var f := p.polynomial;
    if IsInput(ck, p) { FitsIsIn(f.terms, Shape(f.numVars, PolyDegree(f.terms), f.numVars), ck.numVars); }
    if PolyDegree(f.terms) <= ck.supportedDegree {
      LookUpsSucceed(ck, f.terms, td);
      if p.hidingBound.None? {
        BlindingIsValue(ck, [], Shape(0, 0, 0), td);
      } else if p.hidingBound.value <= ck.supportedDegree {
        BlindingIsValue(ck, coin.terms, Shape(ck.numVars, p.hidingBound.value + 1, 1), td);
      }
    }
  }

  // ----- linear combinations

  function ScaleTerms(c: Fp, p: Poly): Poly {
    if p == [] then [] else [(Mul(c, p[0].0), p[0].1)] + ScaleTerms(c, p[1..])
  }

  /** p += (c, q). */
  function AddScaled(p: MVPolynomial, c: Fp, q: MVPolynomial): MVPolynomial {
    MVPolynomial(if p.numVars < q.numVars then q.numVars else p.numVars,
                 FromCoefficients(p.terms + ScaleTerms(c, q.terms)))
  }

  /** The combination of the first n polynomials. */
  function CombinePolys(ps: seq<MVPolynomial>, xi: Squeezes, n: nat): MVPolynomial
    requires n <= |ps|
  {
    if n == 0 then MVPolynomial(0, []) else AddScaled(CombinePolys(ps, xi, n - 1), xi(n - 1), ps[n - 1])
  }

  /** The sum of the first n values, each times its challenge. */
  function Weighted(values: seq<Fp>, xi: Squeezes, n: nat): Fp
    requires n <= |values|
  {
    if n == 0 then 0 else Add(Weighted(values, xi, n - 1), Mul(values[n - 1], xi(n - 1)))
  }

  lemma {:induction false} EvalScaled(c: Fp, p: Poly, x: seq<Fp>)
    ensures EvalPoly(ScaleTerms(c, p), x) == Mul(c, EvalPoly(p, x))
  {
    if p == [] {
      Units(c);
    } else {
      EvalScaled(c, p[1..], x);
      var rest := ScaleTerms(c, p[1..]);
      assert ([(Mul(c, p[0].0), p[0].1)] + rest)[1..] == rest;
      MulAssociates(c, p[0].0, EvalTerm(p[0].1, x));
      Distributes(c, Mul(p[0].0, EvalTerm(p[0].1, x)), EvalPoly(p[1..], x));
    }
  }

  lemma {:induction false} FitsScaled(c: Fp, p: Poly, lo: nat, s: Shape)
    requires Fits(p, lo, s)
    ensures Fits(ScaleTerms(c, p), lo, s)
  {
    if p != [] {
      FitsScaled(c, p[1..], lo, s);
      var rest := ScaleTerms(c, p[1..]);
      assert ([(Mul(c, p[0].0), p[0].1)] + rest)[1..] == rest;
    }
  }

  /** The combination evaluates to the combination of the values. */
  lemma {:induction false} EvalCombined(ps: seq<MVPolynomial>, xi: Squeezes, n: nat, x: seq<Fp>, values: seq<Fp>)
    requires n <= |values| == |ps| && forall i :: 0 <= i < |ps| ==> values[i] == EvalPoly(ps[i].terms, x)
    ensures EvalPoly(CombinePolys(ps, xi, n).terms, x) == Weighted(values, xi, n)
  {
    if n > 0 {
      var before, c, q := CombinePolys(ps, xi, n - 1), xi(n - 1), ps[n - 1];
      EvalCombined(ps, xi, n - 1, x, values);
      EvalFromCoefficients(before.terms + ScaleTerms(c, q.terms), x);
      EvalAppend(before.terms, ScaleTerms(c, q.terms), x);
      EvalScaled(c, q.terms, x);
      Commutes(c, values[n - 1]);
    }
  }

  /** What the caller of open has to supply: well-formed polynomials in the variables of the
      point. */
  ghost predicate OpenInputs(ps: seq<MVPolynomial>, n: nat, degree: nat, width: nat) {
    forall i :: 0 <= i < |ps| ==> ps[i].numVars <= n && WellFormed(ps[i], degree, width)
  }

  lemma {:induction false} CombinedFits(ps: seq<MVPolynomial>, xi: Squeezes, n: nat, vars: nat, degree: nat, width: nat)
    requires n <= |ps| && OpenInputs(ps, vars, degree, width)
    ensures CombinePolys(ps, xi, n).numVars <= vars && WellFormed(CombinePolys(ps, xi, n), degree, width)
    ensures forall i :: 0 <= i < n ==> ps[i].numVars <= CombinePolys(ps, xi, n).numVars
  {
    if n > 0 {
      CombinedFits(ps, xi, n - 1, vars, degree, width);
      AddScaledFits(CombinePolys(ps, xi, n - 1), xi(n - 1), ps[n - 1], degree, width);
    }
  }

  lemma AddScaledFits(p: MVPolynomial, c: Fp, q: MVPolynomial, degree: nat, width: nat)
    requires WellFormed(p, degree, width) && WellFormed(q, degree, width)
    ensures WellFormed(AddScaled(p, c, q), degree, width)
  {
    var s := Shape(AddScaled(p, c, q).numVars, degree, width);
    FitsWidens(p.terms, 0, Shape(p.numVars, degree, width), s);
    FitsWidens(q.terms, 0, Shape(q.numVars, degree, width), s);
    FitsScaled(c, q.terms, 0, s);
    FitsAppend(p.terms, ScaleTerms(c, q.terms), 0, s);
    FitsFromCoefficients(p.terms + ScaleTerms(c, q.terms), 0, s);
  }

  /** The combined commitment is the commitment of the combinations. */
  lemma {:induction false} WeightedOpens(comms: seq<Fp>, vs: seq<Fp>, rs: seq<Fp>, xi: Squeezes, n: nat, g: Fp,
                                         gamma: Fp)
    requires n <= |comms| == |vs| == |rs|
    requires forall i :: 0 <= i < |comms| ==> comms[i] == Add(Mul(g, vs[i]), Mul(gamma, rs[i]))
    ensures Weighted(comms, xi, n) == Add(Mul(g, Weighted(vs, xi, n)), Mul(gamma, Weighted(rs, xi, n)))
  {
    if n == 0 {
      Units(g);
      Units(gamma);
      Units(0);
    } else {
      WeightedOpens(comms, vs, rs, xi, n - 1, g, gamma);
      WeightedStep(g, gamma, Weighted(vs, xi, n - 1), Weighted(rs, xi, n - 1), vs[n - 1], rs[n - 1], xi(n - 1));
    }
  }

  lemma WeightedStep(g: Fp, gamma: Fp, a: Fp, b: Fp, v: Fp, r: Fp, x: Fp)
    ensures Add(Add(Mul(g, a), Mul(gamma, b)), Mul(Add(Mul(g, v), Mul(gamma, r)), x))
            == Add(Mul(g, Add(a, Mul(v, x))), Mul(gamma, Add(b, Mul(r, x))))
  {
    var ga, gb, gv, gr := Mul(g, a), Mul(gamma, b), Mul(g, Mul(v, x)), Mul(gamma, Mul(r, x));
    Distributes(g, a, Mul(v, x));
    Distributes(gamma, b, Mul(r, x));
    assert Mul(Add(Mul(g, v), Mul(gamma, r)), x) == Add(gv, gr) by { RingLaws(); }
    assert Add(Add(ga, gb), Add(gv, gr)) == Add(Add(ga, gv), Add(gb, gr)) by { RingLaws(); }
  }

  // ----- opening

  /** The commitments to the witness polynomials; None where a look-up fails. */
  function WitnessCommitments(table: map<Term, Fp>, ws: seq<Poly>): (r: Option<seq<Fp>>)
    ensures r.Some? ==> |r.value| == |ws|
  {
    if ws == [] then Some([]) else
      match CommitTerms(table, ws[0])
      case None => None
      case Some(w) =>
        match WitnessCommitments(table, ws[1..])
        case None => None
        case Some(rest) => Some([w] + rest)
  }

  /** Adds the hiding witness of the same index to every witness commitment. */
  function AddHiding(ck: CommitterKey, w: seq<Fp>, hs: seq<Poly>): (r: Option<seq<Fp>>)
    ensures r.Some? ==> |r.value| == |w|
  {
    if w == [] then Some([])
    else if hs == [] then None
    else match CommitBlinding(ck, hs[0])
      case None => None
      case Some(h) =>
        match AddHiding(ck, w[1..], hs[1..])
        case None => None
        case Some(rest) => Some([Add(w[0], h)] + rest)
  }

  /** What open does with the combined polynomial p and blinding r. */
  function OpenCombined(ck: CommitterKey, p: MVPolynomial, r: MVPolynomial, point: seq<Fp>, s: Shape, t: Shape):
    Option<Proof>
    requires Fits(p.terms, 0, s) && Fits(r.terms, 0, t)
  {
    match WitnessCommitments(ck.powersOfG, DividedAtPoint(p.terms, point, s))
    case None => None
    case Some(w) =>
      if IsZero(r.terms) then Some(Proof(w, None)) else
        match AddHiding(ck, w, DividedAtPoint(r.terms, point, t))
        case None => None
        case Some(w') => Some(Proof(w', Some(EvalPoly(r.terms, point))))
  }

  predicate DegreesOk(ck: CommitterKey, ps: seq<LabeledPolynomial>, n: nat)
    requires n <= |ps|
  {
    n == 0 || (DegreesOk(ck, ps, n - 1) && PolyDegree(ps[n - 1].polynomial.terms) <= ck.supportedDegree)
  }

  lemma {:induction false} RejectedOnce(ck: CommitterKey, ps: seq<LabeledPolynomial>, j: nat, n: nat)
    requires j < n <= |ps| && PolyDegree(ps[j].polynomial.terms) > ck.supportedDegree
    ensures !DegreesOk(ck, ps, n)
  {
    if j < n - 1 { RejectedOnce(ck, ps, j, n - 1); }
  }

  /** The loop of open that combines polynomials and blindings; None for a degree that is too
      large. */
  method CombineForOpening(ck: CommitterKey, ps: seq<LabeledPolynomial>, states: seq<MVPolynomial>, xi: Squeezes)
    returns (result: Option<(MVPolynomial, MVPolynomial)>)
    requires |ps| == |states|
    ensures result.None? <==> !DegreesOk(ck, ps, |ps|)
    ensures result.Some? ==> result.value == (CombinePolys(Polynomials(ps), xi, |ps|), CombinePolys(states, xi, |ps|))
  {
    var p, r := MVPolynomial(0, []), MVPolynomial(0, []);
    ghost var fs := Polynomials(ps);
    for j := 0 to |ps|
      invariant p == CombinePolys(fs, xi, j)
      invariant r == CombinePolys(states, xi, j)
      invariant DegreesOk(ck, ps, j)
    {
      var f := ps[j].polynomial;
      if PolyDegree(f.terms) > ck.supportedDegree {
        RejectedOnce(ck, ps, j, |ps|);
        return None;
      }
      assert fs[j] == f;
      p := AddScaled(p, xi(j), f);
      r := AddScaled(r, xi(j), states[j]);
    }
    return Some((p, r));
  }

  /** open; degree, width and blinding bound the polynomials and the states. */
  method Open(ck: CommitterKey, ps: seq<LabeledPolynomial>, states: seq<MVPolynomial>, point: seq<Fp>, xi: Squeezes,
              ghost degree: nat, ghost width: nat, ghost blinding: nat)
    returns (result: Outcome<Proof>)
    requires |ps| == |states|
    requires OpenInputs(Polynomials(ps), |point|, degree, width) && OpenInputs(states, |point|, blinding, 1)
    ensures result.Err? <==> !DegreesOk(ck, ps, |ps|)
    ensures result.Ok? ==> IsOpening(ck, Polynomials(ps), states, point, xi, degree, width, blinding,
                                     Some(result.value))
    ensures result.Panic? ==> IsOpening(ck, Polynomials(ps), states, point, xi, degree, width, blinding, None)
  {
    CombinedFits(Polynomials(ps), xi, |ps|, |point|, degree, width);
    CombinedFits(states, xi, |ps|, |point|, blinding, 1);
    var combined := CombineForOpening(ck, ps, states, xi);
    if combined.None? {
      return Err;
    }
    var (p, r) := combined.value;
    result := FinishOpen(ck, p, r, point, Shape(p.numVars, degree, width), Shape(r.numVars, blinding, 1));
  }

  /** The proof, or the panic, that open ends in. */
  ghost predicate IsOpening(ck: CommitterKey, ps: seq<MVPolynomial>, states: seq<MVPolynomial>, point: seq<Fp>,
                            xi: Squeezes, degree: nat, width: nat, blinding: nat, proof: Option<Proof>) {
    var p, r := CombinePolys(ps, xi, |ps|), CombinePolys(states, xi, |states|);
    && WellFormed(p, degree, width) && WellFormed(r, blinding, 1)
    && proof == OpenCombined(ck, p, r, point, Shape(p.numVars, degree, width), Shape(r.numVars, blinding, 1))
  }

  function Polynomials(ps: seq<LabeledPolynomial>): (r: seq<MVPolynomial>)
    ensures |r| == |ps| && forall i :: 0 <= i < |ps| ==> r[i] == ps[i].polynomial
  {
    seq(|ps|, i requires 0 <= i < |ps| => ps[i].polynomial)
  }

  /** The rest of open, after the combination. */
  method FinishOpen(ck: CommitterKey, p: MVPolynomial, r: MVPolynomial, point: seq<Fp>, ghost s: Shape, ghost t: Shape)
    returns (result: Outcome<Proof>)
    requires Fits(p.terms, 0, s) && Fits(r.terms, 0, t) && p.numVars == s.vars && r.numVars == t.vars
    requires p.numVars <= |point| && r.numVars <= |point|
    ensures result == match OpenCombined(ck, p, r, point, s, t)
                      case None => Panic
                      case Some(proof) => Ok(proof)
  {
    var witnesses := DivideAtPoint(p.terms, point, p.numVars, s);
    var w := WitnessCommitments(ck.powersOfG, witnesses);
    if w.None? {
      return Panic;
    }
    if IsZero(r.terms) {
      return Ok(Proof(w.value, None));
    }
    var hidingWitnesses := DivideAtPoint(r.terms, point, r.numVars, t);
    var hidden := AddHiding(ck, w.value, hidingWitnesses);
    if hidden.None? {
      return Panic;
    }
    return Ok(Proof(hidden.value, Some(EvalPoly(r.terms, point))));
  }

  // ----- checking

  /** The product of pairings on the right-hand side: w_j with (beta_j - z_j) * h. */
  function PairingProduct(w: seq<Fp>, betaH: seq<Fp>, h: Fp, point: seq<Fp>, j: nat): Fp {
    if w == [] then 0
    else Add(Mul(w[0], Sub(At(betaH, j), Mul(h, At(point, j)))), PairingProduct(w[1..], betaH, h, point, j + 1))
  }

  /** check, once commitments and values are combined. */
  predicate CheckCombined(vk: VerifierKey, comm: Fp, point: seq<Fp>, value: Fp, proof: Proof) {
    var inner := Sub(comm, Mul(vk.g, value));
    var inner' := if proof.randomV.Some? then Sub(inner, Mul(vk.gammaG, proof.randomV.value)) else inner;
    Mul(inner', vk.h) == PairingProduct(proof.w, vk.betaH, vk.h, point, 0)
  }

  /** What check answers: a panic where a witness has no element of the key or no coordinate. */
  function CheckOutcome(vk: VerifierKey, comm: Fp, point: seq<Fp>, value: Fp, proof: Proof): Outcome<bool> {
    if |proof.w| > |vk.betaH| || |proof.w| > |point| then Panic else Ok(CheckCombined(vk, comm, point, value, proof))
  }

  /** check; Panic where it would index out of range. */
  method Check(vk: VerifierKey, comms: seq<Fp>, point: seq<Fp>, values: seq<Fp>, proof: Proof, xi: Squeezes)
    returns (r: Outcome<bool>)
    requires |comms| == |values|
    ensures r == CheckOutcome(vk, Weighted(comms, xi, |comms|), point, Weighted(values, xi, |values|), proof)
  {
    var combinedComm: Fp, combinedValue: Fp := 0, 0;
    for i := 0 to |comms|
      invariant combinedComm == Weighted(comms, xi, i) && combinedValue == Weighted(values, xi, i)
    {
      combinedComm := Add(combinedComm, Mul(comms[i], xi(i)));
      combinedValue := Add(combinedValue, Mul(values[i], xi(i)));
    }
    var inner := Sub(combinedComm, Mul(vk.g, combinedValue));
    if proof.randomV.Some? {
      inner := Sub(inner, Mul(vk.gammaG, proof.randomV.value));
    }
    var lhs := Mul(inner, vk.h);
    if |proof.w| > |vk.betaH| || |proof.w| > |point| {
      return Panic;
    }
    r := Ok(lhs == PairingProduct(proof.w, vk.betaH, vk.h, point, 0));
  }

  // ----- polynomials that claim more variables than the key

  lemma {:induction false} VariablesAddUp(ps: seq<MVPolynomial>, xi: Squeezes, n: nat, i: nat)
    requires i < n <= |ps|
    ensures ps[i].numVars <= CombinePolys(ps, xi, n).numVars
  {
    if i < n - 1 { VariablesAddUp(ps, xi, n - 1, i); }
  }

  /** check panics on whatever open returns for polynomials one of which claims more variables than
      the key has: there is a witness for each of them. */
  lemma {:induction false} CheckPanicsBeyondKey(ck: CommitterKey, vk: VerifierKey, td: Trapdoor, ps: seq<MVPolynomial>,
                                                states: seq<MVPolynomial>, point: seq<Fp>, xi: Squeezes, degree: nat,
                                                width: nat, blinding: nat, proof: Proof, comm: Fp, value: Fp, i: nat)
    requires HonestKeys(ck, vk, td) && i < |ps| && ps[i].numVars > vk.numVars
    requires IsOpening(ck, ps, states, point, xi, degree, width, blinding, Some(proof))
    ensures |proof.w| > vk.numVars && CheckOutcome(vk, comm, point, value, proof) == Panic
  {
    VariablesAddUp(ps, xi, |ps|, i);
  }
}
