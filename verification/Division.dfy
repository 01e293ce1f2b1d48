/** Division of a coefficient stream by a monic polynomial, one coefficient at a time, as the
    streaming prover does it, and the polynomials it divides by. */
module Division {
  import opened PrimeField
  import opened Vectors
  import opened Polynomials

  /** vanishing_polynomial (streaming_kzg/mod.rs). */
  function Vanishing(points: seq<Fp>): (z: seq<Fp>)
    ensures |z| == |points| + 1
  {
    if points == [] then [1] else
      TimesLength(Vanishing(points[..|points| - 1]), [Neg(points[|points| - 1]), 1]);
      Times(Vanishing(points[..|points| - 1]), [Neg(points[|points| - 1]), 1])
  }

  ghost predicate Monic(z: seq<Fp>, m: nat) {
    |z| == m + 1 && z[m] == 1
  }

  lemma {:induction false} VanishingMonic(points: seq<Fp>)
    ensures Monic(Vanishing(points), |points|)
  {
    if points != [] {
      var v, n := Vanishing(points[..|points| - 1]), |points|;
      VanishingMonic(points[..n - 1]);
      var a := Neg(points[n - 1]);
      CoefTimes(v, [a, 1], n);
      CoefTimes(v, [1], n - 1);
      TimesLength(v, [a, 1]);
      Units(1); Units(0); Units(a);
    }
  }

  lemma {:induction false} TimesLength(f: seq<Fp>, g: seq<Fp>)
    requires |f| > 0
    ensures |Times(f, g)| == if g == [] then 0 else |f| + |g| - 1
  {
    if g != [] { TimesLength(f, g[1..]); }
  }

  /** The product over the points of x - p. */
  function Product(points: seq<Fp>, x: Fp): Fp {
    if points == [] then 1 else
      Mul(Product(points[..|points| - 1], x), Sub(x, points[|points| - 1]))
  }

  lemma {:induction false} VanishingEval(points: seq<Fp>, x: Fp)
    ensures Eval(Vanishing(points), x) == Product(points, x)
  {
    if points == [] {
      Units(x);
      Units(1);
    } else {
      var n := |points|;
      var a := Neg(points[n - 1]);
      VanishingEval(points[..n - 1], x);
      EvalTimes(Vanishing(points[..n - 1]), [a, 1], x);
      assert Eval([a, 1], x) == Add(a, x) by {
        assert [a, 1][1..] == [1] && [1][1..] == [];
        assert Eval([1], x) == 1 by { Units(x); Units(1); }
        Units(x);
      }
      Commutes(a, x);
    }
  }

  function Tail(f: seq<Fp>): seq<Fp> {
    if f == [] then [] else f[1..]
  }

  lemma CoefTimes(f: seq<Fp>, g: seq<Fp>, k: nat)
    ensures Coef(Times(f, g), k)
            == Add(Mul(Coef(g, 0), Coef(f, k)), if k == 0 then 0 else Coef(Times(f, Tail(g)), k - 1))
  {
    if g == [] {
      Units(Coef(f, k));
      Units(0);
    } else {
      CoefPlus(Scale(g[0], f), [0] + Times(f, g[1..]), k);
      CoefScale(g[0], f, k);
    }
  }

  lemma {:induction false} TimesPolyEq(f: seq<Fp>, g: seq<Fp>, h: seq<Fp>)
    requires PolyEq(g, h)
    ensures PolyEq(Times(f, g), Times(f, h))
    decreases |g| + |h|
  {
    if g != [] || h != [] {
      forall k: nat ensures Coef(Tail(g), k) == Coef(Tail(h), k) { assert Coef(g, k + 1) == Coef(h, k + 1); }
      TimesPolyEq(f, Tail(g), Tail(h));
      forall k: nat ensures Coef(Times(f, g), k) == Coef(Times(f, h), k) {
        CoefTimes(f, g, k);
        CoefTimes(f, h, k);
        assert Coef(g, 0) == Coef(h, 0);
        assert k > 0 ==> Coef(Times(f, Tail(g)), k - 1) == Coef(Times(f, Tail(h)), k - 1);
      }
    }
  }

  // ----- uniqueness of quotient and remainder

  /** Multiples of a monic polynomial of degree m are determined by their coefficients from
      degree m on. */
  lemma {:induction false} QuotientUnique(z: seq<Fp>, m: nat, p: seq<Fp>, q: seq<Fp>)
    requires Monic(z, m)
    requires forall k: nat :: k >= m ==> Coef(Times(z, p), k) == Coef(Times(z, q), k)
    ensures PolyEq(p, q)
    decreases |p| + |q|
  {
    if p != [] || q != [] {
      var p', q' := Tail(p), Tail(q);
      forall k: nat | k >= m ensures Coef(Times(z, p'), k) == Coef(Times(z, q'), k) {
        HigherCoef(z, m, p, k + 1);
        HigherCoef(z, m, q, k + 1);
        assert Coef(Times(z, p), k + 1) == Coef(Times(z, q), k + 1);
      }
      QuotientUnique(z, m, p', q');
      assert Coef(p, 0) == Coef(q, 0) by { LowestCoef(z, m, p, q); }
      forall k: nat ensures Coef(p, k) == Coef(q, k) {
        assert k > 0 ==> Coef(p', k - 1) == Coef(q', k - 1);
      }
    }
  }

  lemma HigherCoef(z: seq<Fp>, m: nat, p: seq<Fp>, k: nat)
    requires Monic(z, m) && k > m
    ensures Coef(Times(z, p), k) == Coef(Times(z, Tail(p)), k - 1)
  {
    CoefTimes(z, p, k);
    Units(Coef(p, 0));
    Units(Coef(Times(z, Tail(p)), k - 1));
  }

  lemma LowestCoef(z: seq<Fp>, m: nat, p: seq<Fp>, q: seq<Fp>)
    requires Monic(z, m) && PolyEq(Tail(p), Tail(q)) && Coef(Times(z, p), m) == Coef(Times(z, q), m)
    ensures Coef(p, 0) == Coef(q, 0)
  {
    CoefTimes(z, p, m);
    CoefTimes(z, q, m);
    Units(Coef(p, 0));
    Units(Coef(q, 0));
    TimesPolyEq(z, Tail(p), Tail(q));
    if m > 0 {
      assert Coef(Times(z, Tail(p)), m - 1) == Coef(Times(z, Tail(q)), m - 1);
      AddCancels(Coef(p, 0), Coef(q, 0), Coef(Times(z, Tail(p)), m - 1));
    } else {
      AddCancels(Coef(p, 0), Coef(q, 0), 0);
    }
  }

  lemma AddCancels(a: Fp, b: Fp, c: Fp)
    requires Add(a, c) == Add(b, c)
    ensures a == b
  {
    assert Add(Add(a, c), Neg(c)) == a by { RingLaws(); }
    assert Add(Add(b, c), Neg(c)) == b by { RingLaws(); }
  }

  /** f == z * q + r as polynomials, with r of degree less than that of z. */
  ghost predicate IsDivision(z: seq<Fp>, m: nat, f: seq<Fp>, q: seq<Fp>, r: seq<Fp>) {
    Monic(z, m) && |r| <= m && PolyEq(f, Plus(Times(z, q), r))
  }

  lemma DivisionUnique(z: seq<Fp>, m: nat, f: seq<Fp>, q: seq<Fp>, r: seq<Fp>, q': seq<Fp>, r': seq<Fp>)
    requires IsDivision(z, m, f, q, r) && IsDivision(z, m, f, q', r')
    ensures PolyEq(q, q') && PolyEq(r, r')
  {
    forall k: nat | k >= m ensures Coef(Times(z, q), k) == Coef(Times(z, q'), k) {
      SameAt(z, f, q, r, q', r', k);
      AddCancels(Coef(Times(z, q), k), Coef(Times(z, q'), k), 0);
    }
    QuotientUnique(z, m, q, q');
    TimesPolyEq(z, q, q');
    forall k: nat ensures Coef(r, k) == Coef(r', k) {
      SameAt(z, f, q, r, q', r', k);
      assert Coef(Times(z, q), k) == Coef(Times(z, q'), k);
      Commutes(Coef(Times(z, q), k), Coef(r, k));
      Commutes(Coef(Times(z, q), k), Coef(r', k));
      AddCancels(Coef(r, k), Coef(r', k), Coef(Times(z, q), k));
    }
  }

  lemma SameAt(z: seq<Fp>, f: seq<Fp>, q: seq<Fp>, r: seq<Fp>, q': seq<Fp>, r': seq<Fp>, k: nat)
    requires PolyEq(f, Plus(Times(z, q), r)) && PolyEq(f, Plus(Times(z, q'), r'))
    ensures Add(Coef(Times(z, q), k), Coef(r, k)) == Add(Coef(Times(z, q'), k), Coef(r', k))
  {
    assert Coef(f, k) == Coef(Plus(Times(z, q), r), k) == Coef(Plus(Times(z, q'), r'), k);
    CoefPlus(Times(z, q), r, k);
    CoefPlus(Times(z, q'), r', k);
  }

  // ----- division of a stream

  /** The deque after a new coefficient: q times the lower coefficients of z is taken from d. */
  function Reduce(d: seq<Fp>, z: seq<Fp>, q: Fp): (r: seq<Fp>)
    requires |d| <= |z|
    ensures |r| == |d|
  {
    if d == [] then [] else [Sub(d[0], Mul(z[|d| - 1], q))] + Reduce(d[1..], z, q)
  }

  lemma {:induction false} ReduceIndex(d: seq<Fp>, z: seq<Fp>, q: Fp, i: nat)
    requires |d| <= |z| && i < |d|
    ensures Reduce(d, z, q)[i] == Sub(d[i], Mul(z[|d| - 1 - i], q))
  {
    if i > 0 { ReduceIndex(d[1..], z, q, i - 1); }
  }

  /** The coefficient of degree k in a list that starts with the highest degree. */
  function CoefTop(s: seq<Fp>, k: nat): Fp {
    if k < |s| then s[|s| - 1 - k] else 0
  }

  lemma CoefRev(s: seq<Fp>, k: nat)
    ensures Coef(Rev(s), k) == CoefTop(s, k)
  {
    if k < |s| { RevIndex(s, k); }
  }

  /** Quotient and remainder of the stream s, all with the highest degree first; the
      quotient has as many coefficients as the stream, the first m of them zero. */
  function Divide(z: seq<Fp>, s: seq<Fp>): (d: (seq<Fp>, seq<Fp>))
    requires |z| >= 2
    ensures |d.0| == |s| && |d.1| == |z| - 1
  {
    var m := |z| - 1;
    if s == [] then ([], Zeros(m)) else
      var (q, r) := Divide(z, s[..|s| - 1]);
      (q + [r[0]], Reduce(r[1..] + [s[|s| - 1]], z, r[0]))
  }

  lemma SubThenAdd(l: Fp, z: Fp, d: Fp)
    ensures Add(Mul(l, z), Sub(d, Mul(z, l))) == d
  {
    RingLaws();
  }

  lemma MoveIn(a: Fp, x: Fp, b: Fp)
    ensures Add(Add(a, x), b) == Add(x, Add(a, b))
  {
    RingLaws();
  }

  lemma StepCoef(z: seq<Fp>, m: nat, r: seq<Fp>, c: Fp, k: nat)
    requires Monic(z, m) && m > 0 && |r| == m
    ensures Add(Mul(r[0], Coef(z, k)), CoefTop(Reduce(r[1..] + [c], z, r[0]), k))
            == if k == 0 then c else CoefTop(r, k - 1)
  {
    if k < m {
      var d := r[1..] + [c];
      ReduceIndex(d, z, r[0], m - 1 - k);
      SubThenAdd(r[0], z[k], d[m - 1 - k]);
    } else {
      Units(r[0]);
      Units(0);
    }
  }

  /** Streaming division is division. */
  lemma {:induction false} DivideCorrect(z: seq<Fp>, m: nat, s: seq<Fp>)
    requires Monic(z, m) && m > 0
    ensures IsDivision(z, m, Rev(s), Rev(Divide(z, s).0), Rev(Divide(z, s).1))
  {
    var (q, r) := Divide(z, s);
    if s == [] {
      forall k: nat ensures Coef(Rev(s), k) == Coef(Plus(Times(z, []), Rev(r)), k) {
        if k < m { RevIndex(r, k); }
      }
    } else {
      var s0, c := s[..|s| - 1], s[|s| - 1];
      var (q0, r0) := Divide(z, s0);
      DivideCorrect(z, m, s0);
      assert s == s0 + [c];
      RevAppend(s0, [c]);
      RevAppend(q0, [r0[0]]);
      assert Rev([c]) == [c] && Rev([r0[0]]) == [r0[0]];
      forall k: nat ensures Coef(Rev(s), k) == Coef(Plus(Times(z, Rev(q)), Rev(r)), k) {
        DivideStep(z, m, Rev(s0), Rev(q0), r0, c, k);
      }
    }
  }

  lemma DivideStep(z: seq<Fp>, m: nat, f: seq<Fp>, q: seq<Fp>, r: seq<Fp>, c: Fp, k: nat)
    requires Monic(z, m) && m > 0 && |r| == m && PolyEq(f, Plus(Times(z, q), Rev(r)))
    ensures Coef([c] + f, k) == Coef(Plus(Times(z, [r[0]] + q), Rev(Reduce(r[1..] + [c], z, r[0]))), k)
  {
    var r' := Reduce(r[1..] + [c], z, r[0]);
    CoefPlus(Times(z, [r[0]] + q), Rev(r'), k);
    CoefRev(r', k);
    CoefTimes(z, [r[0]] + q, k);
    assert Tail([r[0]] + q) == q;
    StepCoef(z, m, r, c, k);
    var a := Mul(r[0], Coef(z, k));
    if k == 0 {
      Units(a);
    } else {
      assert Coef(f, k - 1) == Coef(Plus(Times(z, q), Rev(r)), k - 1);
      CoefPlus(Times(z, q), Rev(r), k - 1);
      CoefRev(r, k - 1);
      MoveIn(a, Coef(Times(z, q), k - 1), CoefTop(r', k));
    }
  }

  /** The first m coefficients only fill the deque. */
  lemma {:induction false} DivideFills(z: seq<Fp>, m: nat, s: seq<Fp>)
    requires Monic(z, m) && m > 0 && |s| <= m
    ensures Divide(z, s) == (Zeros(|s|), Zeros(m - |s|) + s)
  {
    if s == [] {
      assert Zeros(m) + s == Zeros(m) && Zeros(0) == s;
    } else {
      var n := |s|;
      DivideFills(z, m, s[..n - 1]);
      var (q, r) := Divide(z, s[..n - 1]);
      assert r[0] == 0;
      var d := r[1..] + [s[n - 1]];
      ReduceByZero(d, z);
      assert d == Zeros(m - n) + s;
      assert q + [r[0]] == Zeros(n);
    }
  }

  lemma {:induction false} ReduceByZero(d: seq<Fp>, z: seq<Fp>)
    requires |d| <= |z|
    ensures Reduce(d, z, 0) == d
  {
    if d != [] {
      ReduceByZero(d[1..], z);
      Units(z[|d| - 1]);
      Units(d[0]);
    }
  }
}
