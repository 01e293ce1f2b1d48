/** Multilinear extensions and their eq-tables, as multilinear_pc/mod.rs uses them.  A polynomial
    in nv variables is the list of its values on the hypercube; the first variable is the
    lowest bit of the index. */
module MultilinearExtensions {
  import opened PrimeField
  import opened Numbers
  import opened Vectors
  import opened Polynomials

  // ----- the polynomial that is one where its arguments agree

  /** eq(t, bit) for one variable. */
  function EqBit(t: Fp, bit: bool): Fp {
    if bit then t else Sub(1, t)
  }

  /** eq(t, x) for the bits of x, lowest first. */
  function EqAt(t: seq<Fp>, x: nat): Fp {
    if t == [] then 1 else Mul(EqBit(t[0], x % 2 == 1), EqAt(t[1..], x / 2))
  }

  function EqTable(t: seq<Fp>): (r: seq<Fp>)
    ensures |r| == Pow2(|t|) && forall x :: 0 <= x < |r| ==> r[x] == EqAt(t, x)
  {
    seq(Pow2(|t|), x requires 0 <= x => EqAt(t, x))
  }

  // ----- multilinear extensions

  /** Fixes the first variable to z. */
  function FixFirst(f: seq<Fp>, z: Fp): (r: seq<Fp>)
    ensures |r| == |f| / 2
    ensures forall b :: 0 <= b < |r| ==> r[b] == Add(Mul(f[2 * b], Sub(1, z)), Mul(f[2 * b + 1], z))
  {
    seq(|f| / 2, b requires 0 <= b < |f| / 2 => Add(Mul(f[2 * b], Sub(1, z)), Mul(f[2 * b + 1], z)))
  }

  /** The value of the multilinear extension at a point. */
  function Value(f: seq<Fp>, z: seq<Fp>): Fp
    requires |f| == Pow2(|z|)
    decreases |z|
  {
    if z == [] then f[0] else Value(FixFirst(f, z[0]), z[1..])
  }

  /** The slope in the first variable. */
  function Slope(f: seq<Fp>): (r: seq<Fp>)
    ensures |r| == |f| / 2
    ensures forall b :: 0 <= b < |r| ==> r[b] == Sub(f[2 * b + 1], f[2 * b])
  {
    seq(|f| / 2, b requires 0 <= b < |f| / 2 => Sub(f[2 * b + 1], f[2 * b]))
  }

  /** A new first variable that does not matter. */
  function Doubled(q: seq<Fp>): (r: seq<Fp>)
    ensures |r| == 2 * |q| && forall x :: 0 <= x < |r| ==> r[x] == q[x / 2]
  {
    seq(2 * |q|, x requires 0 <= x < 2 * |q| => q[x / 2])
  }

  // ----- the eq-table evaluates

  /** The sum of eq(t, y) * f[y] over y from x on. */
  function SumFrom(t: seq<Fp>, f: seq<Fp>, x: nat): Fp
    decreases |f| - x
  {
    if x >= |f| then 0 else Add(Mul(EqAt(t, x), f[x]), SumFrom(t, f, x + 1))
  }

  lemma {:induction false} InnerIsSum(t: seq<Fp>, f: seq<Fp>, x: nat)
    requires |f| == Pow2(|t|) && x <= |f|
    ensures Inner(EqTable(t)[x..], f[x..]) == SumFrom(t, f, x)
    decreases |f| - x
  {
    if x < |f| {
      InnerIsSum(t, f, x + 1);
      assert EqTable(t)[x..][1..] == EqTable(t)[x + 1..] && f[x..][1..] == f[x + 1..];
    }
  }

  lemma {:induction false} SumPairs(t: seq<Fp>, f: seq<Fp>, b: nat)
    requires t != [] && |f| % 2 == 0 && 2 * b <= |f|
    ensures SumFrom(t, f, 2 * b) == SumFrom(t[1..], FixFirst(f, t[0]), b)
    decreases |f| - b
  {
    if 2 * b < |f| {
      SumPairs(t, f, b + 1);
      EqPair(t, b);
      PairAlgebra(EqAt(t[1..], b), t[0], f[2 * b], f[2 * b + 1], SumFrom(t, f, 2 * b + 2));
    }
  }

  lemma EqPair(t: seq<Fp>, b: nat)
    requires t != []
    ensures EqAt(t, 2 * b) == Mul(Sub(1, t[0]), EqAt(t[1..], b))
    ensures EqAt(t, 2 * b + 1) == Mul(t[0], EqAt(t[1..], b))
  {
    assert (2 * b) / 2 == b && (2 * b + 1) / 2 == b;
  }

  lemma PairAlgebra(e: Fp, t: Fp, u: Fp, v: Fp, rest: Fp)
    ensures Add(Mul(Mul(Sub(1, t), e), u), Add(Mul(Mul(t, e), v), rest))
            == Add(Mul(e, Add(Mul(u, Sub(1, t)), Mul(v, t))), rest)
  {
    var s := Sub(1, t);
    assert Mul(e, Add(Mul(u, s), Mul(v, t))) == Add(Mul(Mul(s, e), u), Mul(Mul(t, e), v)) by { RingLaws(); }
    AddAssociates(Mul(Mul(s, e), u), Mul(Mul(t, e), v), rest);
  }

  lemma {:induction false} SumIsValue(t: seq<Fp>, f: seq<Fp>)
    requires |f| == Pow2(|t|)
    ensures SumFrom(t, f, 0) == Value(f, t)
    decreases |t|
  {
    if t == [] {
      assert EqAt(t, 0) == 1;
      Units(f[0]);
    } else {
      SumPairs(t, f, 0);
      SumIsValue(t[1..], FixFirst(f, t[0]));
    }
  }

  /** The inner product with an eq-table is the value of the extension. */
  lemma TableEvaluates(t: seq<Fp>, f: seq<Fp>)
    requires |f| == Pow2(|t|)
    ensures Inner(EqTable(t), f) == Value(f, t)
  {
    InnerIsSum(t, f, 0);
    SumIsValue(t, f);
    assert EqTable(t)[0..] == EqTable(t) && f[0..] == f;
  }

  // ----- one round of open

  lemma FixedTwice(f: seq<Fp>, t: Fp, z: Fp)
    ensures FixFirst(f, t) == Plus(FixFirst(f, z), Scale(Sub(t, z), Slope(f)))
  {
    var g := Plus(FixFirst(f, z), Scale(Sub(t, z), Slope(f)));
    forall b | 0 <= b < |f| / 2 ensures FixFirst(f, t)[b] == g[b] {
      CoefPlus(FixFirst(f, z), Scale(Sub(t, z), Slope(f)), b);
      ScaleIndex(Sub(t, z), Slope(f), b);
      LineAlgebra(f[2 * b], f[2 * b + 1], t, z);
    }
  }

  /** A line through two values, moved from z to t. */
  lemma LineAlgebra(u: Fp, v: Fp, t: Fp, z: Fp)
    ensures Add(Mul(u, Sub(1, t)), Mul(v, t))
            == Add(Add(Mul(u, Sub(1, z)), Mul(v, z)), Mul(Sub(t, z), Sub(v, u)))
  {
    Line(u, v, t);
    Line(u, v, z);
    var d := Sub(v, u);
    assert Add(Mul(z, d), Mul(Sub(t, z), d)) == Mul(t, d) by {
      SubIff(t, z, Sub(t, z));
      Commutes(z, d);
      Commutes(Sub(t, z), d);
      Commutes(t, d);
      Distributes(d, z, Sub(t, z));
    }
    AddAssociates(u, Mul(z, d), Mul(Sub(t, z), d));
  }

  lemma Line(u: Fp, v: Fp, t: Fp)
    ensures Add(Mul(u, Sub(1, t)), Mul(v, t)) == Add(u, Mul(t, Sub(v, u)))
  {
    assert Mul(u, Sub(1, t)) == Add(u, Neg(Mul(t, u))) by { RingLaws(); }
    assert Mul(t, Sub(v, u)) == Add(Mul(v, t), Neg(Mul(t, u))) by { RingLaws(); }
    assert Add(Add(u, Neg(Mul(t, u))), Mul(v, t)) == Add(u, Add(Mul(v, t), Neg(Mul(t, u)))) by { RingLaws(); }
  }

  /** r_k(t) - r_{k-1}(t) == (t_i - z_i) * q_k(t). */
  lemma RoundTelescopes(f: seq<Fp>, t: seq<Fp>, z: Fp)
    requires t != [] && |f| == Pow2(|t|)
    ensures Sub(Value(f, t), Value(FixFirst(f, z), t[1..])) == Mul(Sub(t[0], z), Value(Slope(f), t[1..]))
  {
    var t', d := t[1..], Sub(t[0], z);
    FixedTwice(f, t[0], z);
    TableEvaluates(t', FixFirst(f, t[0]));
    TableEvaluates(t', FixFirst(f, z));
    TableEvaluates(t', Slope(f));
    InnerLine(EqTable(t'), FixFirst(f, z), d, Slope(f));
    SubIff(Value(f, t), Value(FixFirst(f, z), t'), Mul(d, Value(Slope(f), t')));
  }

  lemma InnerLine(e: seq<Fp>, a: seq<Fp>, d: Fp, b: seq<Fp>)
    ensures Inner(e, Plus(a, Scale(d, b))) == Add(Inner(e, a), Mul(d, Inner(e, b)))
  {
    InnerPlusRight(a, Scale(d, b), e);
    InnerScale(d, b, e);
    InnerCommutes(b, e);
  }

  lemma DoubledValue(q: seq<Fp>, t: seq<Fp>)
    requires t != [] && 2 * |q| == Pow2(|t|)
    ensures Value(Doubled(q), t) == Value(q, t[1..])
  {
    FixDoubled(q, t[0]);
  }

  lemma FixDoubled(q: seq<Fp>, x: Fp)
    ensures FixFirst(Doubled(q), x) == q
  {
    forall b | 0 <= b < |q| ensures FixFirst(Doubled(q), x)[b] == q[b] {
      assert (2 * b) / 2 == b && (2 * b + 1) / 2 == b;
      Line(q[b], q[b], x);
      SubZero(q[b], q[b]);
      Units(x);
      Units(q[b]);
    }
  }
}
