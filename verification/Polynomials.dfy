/** Dense univariate polynomials as lists of coefficients, lowest degree first.  Zero
    coefficients at the end of a list are not stripped; PolyEq compares two lists as
    polynomials. */
module Polynomials {
  import opened PrimeField
  import opened Vectors

  function Eval(f: seq<Fp>, x: Fp): Fp {
    if f == [] then 0 else Add(f[0], Mul(x, Eval(f[1..], x)))
  }

  /** Evaluation of a list that starts with the highest degree. */
  function Horner(s: seq<Fp>, x: Fp): Fp {
    if s == [] then 0 else Add(Mul(Horner(s[..|s| - 1], x), x), s[|s| - 1])
  }

  function Coef(f: seq<Fp>, k: nat): Fp {
    if k < |f| then f[k] else 0
  }

  ghost predicate PolyEq(f: seq<Fp>, g: seq<Fp>) {
    forall k: nat :: Coef(f, k) == Coef(g, k)
  }

  function Times(f: seq<Fp>, g: seq<Fp>): seq<Fp> {
    if g == [] then [] else Plus(Scale(g[0], f), [0] + Times(f, g[1..]))
  }

  /** s, s * x, s * x^2, ...: n terms. */
  function PowersFrom(s: Fp, x: Fp, n: nat): (r: seq<Fp>)
    ensures |r| == n
    decreases n
  {
    if n == 0 then [] else [s] + PowersFrom(Mul(s, x), x, n - 1)
  }

  /** powers (streaming_kzg/mod.rs): the first len powers of element. */
  method Powers(element: Fp, len: nat) returns (powers: seq<Fp>)
    ensures powers == PowersFrom(1, element, len)
  {
    powers := seq(len, i => 1);
    var i := 1;
    while i < len
      invariant |powers| == len && 1 <= i
      invariant forall j :: 0 <= j < i && j < len ==> powers[j] == Pow(element, j)
    {
      powers := powers[i := Mul(element, powers[i - 1])];
      i := i + 1;
    }
    forall j | 0 <= j < len ensures powers[j] == PowersFrom(1, element, len)[j] {
      PowersIndex(1, element, len, j);
      Units(Pow(element, j));
    }
  }

  lemma {:induction false} PowersIndex(s: Fp, x: Fp, n: nat, k: nat)
    requires k < n
    ensures PowersFrom(s, x, n)[k] == Mul(s, Pow(x, k))
    decreases n
  {
    if k == 0 {
      Units(s);
    } else {
      PowersIndex(Mul(s, x), x, n - 1, k - 1);
      MulAssociates(s, x, Pow(x, k - 1));
    }
  }

  /** Evaluation as a multi-scalar multiplication over the powers of the point. */
  lemma {:induction false} InnerPowers(s: Fp, x: Fp, n: nat, f: seq<Fp>)
    requires |f| <= n
    ensures Inner(PowersFrom(s, x, n), f) == Mul(s, Eval(f, x))
    decreases n
  {
    if f == [] {
      Units(s);
    } else {
      InnerPowers(Mul(s, x), x, n - 1, f[1..]);
      PullOut(s, f[0], x, Eval(f[1..], x));
    }
  }

  lemma {:induction false} HornerRev(f: seq<Fp>, x: Fp)
    ensures Horner(Rev(f), x) == Eval(f, x)
  {
    if f != [] {
      HornerRev(f[1..], x);
      assert Rev(f)[..|f| - 1] == Rev(f[1..]);
      Commutes(x, Eval(f[1..], x));
      Commutes(f[0], Mul(x, Eval(f[1..], x)));
    }
  }

  lemma {:induction false} EvalPlus(f: seq<Fp>, g: seq<Fp>, x: Fp)
    ensures Eval(Plus(f, g), x) == Add(Eval(f, x), Eval(g, x))
  {
    if f == [] {
      Units(Eval(g, x));
    } else if g == [] {
      Units(Eval(f, x));
    } else {
      EvalPlus(f[1..], g[1..], x);
      Distributes(x, Eval(f[1..], x), Eval(g[1..], x));
      FourSum(f[0], g[0], Mul(x, Eval(f[1..], x)), Mul(x, Eval(g[1..], x)));
    }
  }

  lemma {:induction false} EvalScale(k: Fp, f: seq<Fp>, x: Fp)
    ensures Eval(Scale(k, f), x) == Mul(k, Eval(f, x))
  {
    if f == [] {
      Units(k);
    } else {
      EvalScale(k, f[1..], x);
      MulSwaps(x, k, Eval(f[1..], x));
      Distributes(k, f[0], Mul(x, Eval(f[1..], x)));
    }
  }

  lemma {:induction false} EvalTimes(f: seq<Fp>, g: seq<Fp>, x: Fp)
    ensures Eval(Times(f, g), x) == Mul(Eval(f, x), Eval(g, x))
  {
    if g == [] {
      Units(Eval(f, x));
    } else {
      EvalTimes(f, g[1..], x);
      EvalPlus(Scale(g[0], f), [0] + Times(f, g[1..]), x);
      EvalScale(g[0], f, x);
      assert ([0] + Times(f, g[1..]))[1..] == Times(f, g[1..]);
      TimesStep(Eval(f, x), g[0], x, Eval(g[1..], x));
    }
  }

  lemma TimesStep(f: Fp, c: Fp, x: Fp, g: Fp)
    ensures Add(Mul(c, f), Add(0, Mul(x, Mul(f, g)))) == Mul(f, Add(c, Mul(x, g)))
  {
    RingLaws();
  }

  lemma {:induction false} EvalZero(f: seq<Fp>, x: Fp)
    requires PolyEq(f, [])
    ensures Eval(f, x) == 0
  {
    if f != [] {
      assert Coef(f, 0) == Coef([], 0);
      forall k: nat ensures Coef(f[1..], k) == Coef([], k) { assert Coef(f, k + 1) == Coef([], k + 1); }
      EvalZero(f[1..], x);
      Units(x);
      Units(0);
    }
  }

  lemma PolyEqTail(f: seq<Fp>, g: seq<Fp>)
    requires f != [] && g != [] && PolyEq(f, g)
    ensures f[0] == g[0] && PolyEq(f[1..], g[1..])
  {
    assert Coef(f, 0) == Coef(g, 0);
    forall k: nat ensures Coef(f[1..], k) == Coef(g[1..], k) { assert Coef(f, k + 1) == Coef(g, k + 1); }
  }

  lemma {:induction false} EvalPolyEq(f: seq<Fp>, g: seq<Fp>, x: Fp)
    requires PolyEq(f, g)
    ensures Eval(f, x) == Eval(g, x)
  {
    if f == [] {
      EvalZero(g, x);
    } else if g == [] {
      EvalZero(f, x);
    } else {
      PolyEqTail(f, g);
      EvalPolyEq(f[1..], g[1..], x);
    }
  }

  lemma {:induction false} InnerZero(a: seq<Fp>, f: seq<Fp>)
    requires PolyEq(f, [])
    ensures Inner(a, f) == 0
  {
    if f != [] && a != [] {
      assert Coef(f, 0) == Coef([], 0);
      forall k: nat ensures Coef(f[1..], k) == Coef([], k) { assert Coef(f, k + 1) == Coef([], k + 1); }
      InnerZero(a[1..], f[1..]);
      Units(a[0]);
      Units(0);
    }
  }

  /** Stripping zero coefficients does not change a commitment. */
  lemma {:induction false} InnerPolyEq(a: seq<Fp>, f: seq<Fp>, g: seq<Fp>)
    requires PolyEq(f, g)
    ensures Inner(a, f) == Inner(a, g)
  {
    if f == [] {
      InnerZero(a, g);
    } else if g == [] {
      InnerZero(a, f);
    } else if a != [] {
      PolyEqTail(f, g);
      InnerPolyEq(a[1..], f[1..], g[1..]);
    }
  }

  lemma {:induction false} CoefPlus(f: seq<Fp>, g: seq<Fp>, k: nat)
    ensures Coef(Plus(f, g), k) == Add(Coef(f, k), Coef(g, k))
  {
    if f == [] {
      Units(Coef(g, k));
    } else if g == [] {
      Units(Coef(f, k));
    } else if k > 0 {
      CoefPlus(f[1..], g[1..], k - 1);
    }
  }

  lemma {:induction false} CoefScale(c: Fp, f: seq<Fp>, k: nat)
    ensures Coef(Scale(c, f), k) == Mul(c, Coef(f, k))
  {
    if f == [] {
      Units(c);
    } else if k > 0 {
      CoefScale(c, f[1..], k - 1);
    }
  }

  lemma {:induction false} EvalConcat(f: seq<Fp>, g: seq<Fp>, x: Fp)
    ensures Eval(f + g, x) == Add(Eval(f, x), Mul(Pow(x, |f|), Eval(g, x)))
  {
    if f == [] {
      assert f + g == g;
      Units(Eval(g, x));
    } else {
      assert (f + g)[1..] == f[1..] + g;
      EvalConcat(f[1..], g, x);
      ConcatStep(f[0], x, Eval(f[1..], x), Pow(x, |f| - 1), Eval(g, x));
    }
  }

  lemma ConcatStep(c: Fp, x: Fp, a: Fp, p: Fp, b: Fp)
    ensures Add(c, Mul(x, Add(a, Mul(p, b)))) == Add(Add(c, Mul(x, a)), Mul(Mul(x, p), b))
  {
    RingLaws();
  }

  /** Multiplying by a power of X puts zeros in front. */
  lemma {:induction false} EvalShifted(p: seq<Fp>, d: nat, x: Fp)
    ensures Eval(Zeros(d) + p, x) == Mul(Pow(x, d), Eval(p, x))
  {
    EvalConcat(Zeros(d), p, x);
    forall k: nat ensures Coef(Zeros(d), k) == Coef([], k) {
    }
    EvalZero(Zeros(d), x);
    Units(Mul(Pow(x, d), Eval(p, x)));
  }
}
