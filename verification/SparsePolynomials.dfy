/** Sparse multivariate polynomials: the library types behind marlin_pst13_pc.  A term is a
    list of variables with their powers, a polynomial a list of coefficients with terms. */
module SparsePolynomials {
  import opened PrimeField

  type Term = seq<(nat, nat)>
  type Poly = seq<(Fp, Term)>

  /** The variables of a term rise strictly, from lo up to n, and their powers are positive. */
  ghost predicate Valid(t: Term, lo: nat, n: nat) {
    t == [] || (lo <= t[0].0 < n && t[0].1 > 0 && Valid(t[1..], t[0].0 + 1, n))
  }

  function TermDegree(t: Term): nat {
    if t == [] then 0 else t[0].1 + TermDegree(t[1..])
  }

  function At(x: seq<Fp>, v: nat): Fp {
    if v < |x| then x[v] else 0
  }

  function EvalTerm(t: Term, x: seq<Fp>): Fp {
    if t == [] then 1 else Mul(Pow(At(x, t[0].0), t[0].1), EvalTerm(t[1..], x))
  }

  function EvalPoly(p: Poly, x: seq<Fp>): Fp {
    if p == [] then 0 else Add(Mul(p[0].0, EvalTerm(p[0].1, x)), EvalPoly(p[1..], x))
  }

  /** Bounds on the terms of a polynomial: the number of variables it lives in, the degree
      and the number of variables in one term. */
  datatype Shape = Shape(vars: nat, degree: int, width: nat)

  ghost predicate TermFits(t: Term, lo: nat, s: Shape) {
    Valid(t, lo, s.vars) && TermDegree(t) <= s.degree && |t| <= s.width
  }

  /** Every term fits and uses variables from lo on only. */
  ghost predicate Fits(p: Poly, lo: nat, s: Shape) {
    p == [] || (TermFits(p[0].1, lo, s) && Fits(p[1..], lo, s))
  }

  lemma {:induction false} EvalAppend(p: Poly, q: Poly, x: seq<Fp>)
    ensures EvalPoly(p + q, x) == Add(EvalPoly(p, x), EvalPoly(q, x))
  {
    if p == [] {
      assert p + q == q;
      Units(EvalPoly(q, x));
    } else {
      assert (p + q)[1..] == p[1..] + q;
      EvalAppend(p[1..], q, x);
      AddAssociates(Mul(p[0].0, EvalTerm(p[0].1, x)), EvalPoly(p[1..], x), EvalPoly(q, x));
    }
  }

  lemma EvalOne(c: Fp, t: Term, x: seq<Fp>)
    ensures EvalPoly([(c, t)], x) == Mul(c, EvalTerm(t, x))
  {
    assert [(c, t)][1..] == [];
    Units(Mul(c, EvalTerm(t, x)));
  }

  lemma {:induction false} FitsAppend(p: Poly, q: Poly, lo: nat, s: Shape)
    requires Fits(p, lo, s) && Fits(q, lo, s)
    ensures Fits(p + q, lo, s)
  {
    if p == [] {
      assert p + q == q;
    } else {
      assert (p + q)[1..] == p[1..] + q;
      FitsAppend(p[1..], q, lo, s);
    }
  }

  lemma {:induction false} FitsPrefix(p: Poly, k: nat, lo: nat, s: Shape)
    requires Fits(p, lo, s) && k < |p|
    ensures Fits(p[..k], lo, s) && TermFits(p[k].1, lo, s)
  {
    if k > 0 {
      FitsPrefix(p[1..], k - 1, lo, s);
      assert p[..k][1..] == p[1..][..k - 1];
    }
  }

  lemma {:induction false} ValidWeakens(t: Term, lo: nat, lo': nat, n: nat)
    requires Valid(t, lo, n) && lo' <= lo
    ensures Valid(t, lo', n)
  {
  }

  // ----- from_coefficients_vec: equal terms are added up, zero coefficients dropped

  function Insert(p: Poly, c: Fp, t: Term): Poly {
    if p == [] then [(c, t)]
    else if p[0].1 == t then [(Add(p[0].0, c), t)] + p[1..]
    else [p[0]] + Insert(p[1..], c, t)
  }

  function InsertAll(raw: Poly): Poly {
    if raw == [] then [] else Insert(InsertAll(raw[..|raw| - 1]), raw[|raw| - 1].0, raw[|raw| - 1].1)
  }

  function DropZeros(p: Poly): Poly {
    if p == [] then []
    else if p[0].0 == 0 then DropZeros(p[1..])
    else [p[0]] + DropZeros(p[1..])
  }

  function FromCoefficients(raw: Poly): Poly {
    DropZeros(InsertAll(raw))
  }

  lemma {:induction false} EvalInsert(p: Poly, c: Fp, t: Term, x: seq<Fp>)
    ensures EvalPoly(Insert(p, c, t), x) == Add(EvalPoly(p, x), Mul(c, EvalTerm(t, x)))
  {
    if p == [] {
      EvalOne(c, t, x);
      Units(Mul(c, EvalTerm(t, x)));
    } else if p[0].1 == t {
      assert ([(Add(p[0].0, c), t)] + p[1..])[1..] == p[1..];
      AddToFactor(p[0].0, c, EvalTerm(t, x), EvalPoly(p[1..], x));
    } else {
      EvalInsert(p[1..], c, t, x);
      assert ([p[0]] + Insert(p[1..], c, t))[1..] == Insert(p[1..], c, t);
      AddAssociates(Mul(p[0].0, EvalTerm(p[0].1, x)), EvalPoly(p[1..], x), Mul(c, EvalTerm(t, x)));
    }
  }

  lemma {:induction false} EvalInsertAll(raw: Poly, x: seq<Fp>)
    ensures EvalPoly(InsertAll(raw), x) == EvalPoly(raw, x)
  {
    if raw != [] {
      var n := |raw| - 1;
      EvalInsertAll(raw[..n], x);
      EvalInsert(InsertAll(raw[..n]), raw[n].0, raw[n].1, x);
      assert raw == raw[..n] + [(raw[n].0, raw[n].1)];
      EvalAppend(raw[..n], [(raw[n].0, raw[n].1)], x);
      EvalOne(raw[n].0, raw[n].1, x);
    }
  }

  lemma {:induction false} EvalDropZeros(p: Poly, x: seq<Fp>)
    ensures EvalPoly(DropZeros(p), x) == EvalPoly(p, x)
  {
    if p != [] {
      EvalDropZeros(p[1..], x);
      if p[0].0 == 0 {
        Units(EvalTerm(p[0].1, x));
        Units(EvalPoly(p[1..], x));
      } else {
        assert ([p[0]] + DropZeros(p[1..]))[1..] == DropZeros(p[1..]);
      }
    }
  }

  /** Normalising does not change the polynomial. */
  lemma EvalFromCoefficients(raw: Poly, x: seq<Fp>)
    ensures EvalPoly(FromCoefficients(raw), x) == EvalPoly(raw, x)
  {
    EvalInsertAll(raw, x);
    EvalDropZeros(InsertAll(raw), x);
  }

  lemma {:induction false} FitsInsert(p: Poly, c: Fp, t: Term, lo: nat, s: Shape)
    requires Fits(p, lo, s) && TermFits(t, lo, s)
    ensures Fits(Insert(p, c, t), lo, s)
  {
    if p == [] {
      assert [(c, t)][1..] == [];
    } else if p[0].1 == t {
      assert ([(Add(p[0].0, c), t)] + p[1..])[1..] == p[1..];
    } else {
      FitsInsert(p[1..], c, t, lo, s);
      assert ([p[0]] + Insert(p[1..], c, t))[1..] == Insert(p[1..], c, t);
    }
  }

  lemma {:induction false} FitsInsertAll(raw: Poly, lo: nat, s: Shape)
    requires Fits(raw, lo, s)
    ensures Fits(InsertAll(raw), lo, s)
  {
    if raw != [] {
      var n := |raw| - 1;
      FitsPrefix(raw, n, lo, s);
      FitsInsertAll(raw[..n], lo, s);
      FitsInsert(InsertAll(raw[..n]), raw[n].0, raw[n].1, lo, s);
    }
  }

  lemma {:induction false} FitsDropZeros(p: Poly, lo: nat, s: Shape)
    requires Fits(p, lo, s)
    ensures Fits(DropZeros(p), lo, s)
  {
    if p != [] {
      FitsDropZeros(p[1..], lo, s);
      if p[0].0 != 0 { assert ([p[0]] + DropZeros(p[1..]))[1..] == DropZeros(p[1..]); }
    }
  }

  lemma FitsFromCoefficients(raw: Poly, lo: nat, s: Shape)
    requires Fits(raw, lo, s)
    ensures Fits(FromCoefficients(raw), lo, s)
  {
    FitsInsertAll(raw, lo, s);
    FitsDropZeros(InsertAll(raw), lo, s);
  }

  // ----- the zero polynomial

  predicate IsZero(p: Poly) {
    p == [] || (p[0].0 == 0 && IsZero(p[1..]))
  }

  lemma {:induction false} EvalZero(p: Poly, x: seq<Fp>)
    requires IsZero(p)
    ensures EvalPoly(p, x) == 0
  {
    if p != [] {
      EvalZero(p[1..], x);
      Units(EvalTerm(p[0].1, x));
      Units(0);
    }
  }
}
