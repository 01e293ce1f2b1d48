/** The succinct check polynomial of the inner-product argument (ipa_pc/data_structures.rs):
    the product over the rounds of 1 + u_i * X^(2^(log_d - i)). */
module CheckPolynomial {
  import opened PrimeField
  import opened Numbers
  import opened Vectors
  import opened Polynomials

  /** Its coefficients: the first challenge belongs to the upper half. */
  function Coeffs(ch: seq<Fp>): (r: seq<Fp>)
    ensures |r| == Pow2(|ch|)
  {
    if ch == [] then [1] else
      var r := Coeffs(ch[1..]);
      r + Scale(ch[0], r)
  }

  /** Its value at x. */
  function ProductAt(ch: seq<Fp>, x: Fp): Fp {
    if ch == [] then 1 else
      Mul(Add(1, Mul(Pow(x, Pow2(|ch| - 1)), ch[0])), ProductAt(ch[1..], x))
  }

  /** The log-size product evaluates the exponentially long polynomial. */
  lemma {:induction false} ProductIsEvaluation(ch: seq<Fp>, x: Fp)
    ensures Eval(Coeffs(ch), x) == ProductAt(ch, x)
  {
    if ch == [] {
      assert Coeffs(ch)[1..] == [];
      Units(x);
      Units(1);
    } else {
      var r, e := Coeffs(ch[1..]), Pow(x, Pow2(|ch| - 1));
      ProductIsEvaluation(ch[1..], x);
      EvalConcat(r, Scale(ch[0], r), x);
      EvalScale(ch[0], r, x);
      ProductStep(Eval(r, x), e, ch[0]);
    }
  }

  lemma ProductStep(v: Fp, e: Fp, c: Fp)
    ensures Add(v, Mul(e, Mul(c, v))) == Mul(Add(1, Mul(e, c)), v)
  {
    Commutes(Add(1, Mul(e, c)), v);
    Distributes(v, 1, Mul(e, c));
    Units(v);
    Commutes(v, Mul(e, c));
    MulAssociates(e, c, v);
  }

  /** evaluate. */
  method Evaluate(challenges: seq<Fp>, point: Fp) returns (product: Fp)
    ensures product == ProductAt(challenges, point)
    ensures product == Eval(Coeffs(challenges), point)
  {
    var logD := |challenges|;
    product := 1;
    Units(ProductAt(challenges, point));
    for i := 0 to logD
      invariant Mul(product, ProductAt(challenges[i..], point)) == ProductAt(challenges, point)
    {
      var elemDegree := Pow2(logD - (i + 1));
      var elem := Pow(point, elemDegree);
      var factor := Add(1, Mul(elem, challenges[i]));
      assert challenges[i..][1..] == challenges[i + 1..];
      MulAssociates(product, factor, ProductAt(challenges[i + 1..], point));
      product := Mul(product, factor);
    }
    Units(product);
    ProductIsEvaluation(challenges, point);
  }

  // ----- the in-place computation of the coefficients

  /** Multiplies every second block of length e by c. */
  function ScaleOdd(s: seq<Fp>, e: nat, c: Fp): (r: seq<Fp>)
    requires e > 0
    ensures |r| == |s|
  {
    if |s| < 2 * e then s else s[..e] + Scale(c, s[e..2 * e]) + ScaleOdd(s[2 * e..], e, c)
  }

  /** All passes over the vector, the first with the longest blocks. */
  function Passes(s: seq<Fp>, ch: seq<Fp>): (r: seq<Fp>)
    ensures |r| == |s|
    decreases |ch|
  {
    if ch == [] then s else Passes(ScaleOdd(s, Pow2(|ch| - 1), ch[0]), ch[1..])
  }

  lemma {:induction false} ScaleOddSplit(a: seq<Fp>, b: seq<Fp>, e: nat, c: Fp, q: nat)
    requires e > 0 && |a| == q * (2 * e)
    ensures ScaleOdd(a + b, e, c) == ScaleOdd(a, e, c) + ScaleOdd(b, e, c)
  {
    if q == 0 {
      assert a + b == b;
    } else {
      TakeBlock(q, 2 * e);
      var a' := a[2 * e..];
      assert (a + b)[..e] == a[..e] && (a + b)[e..2 * e] == a[e..2 * e] && (a + b)[2 * e..] == a' + b;
      ScaleOddSplit(a', b, e, c, q - 1);
    }
  }

  lemma TakeBlock(q: nat, l: nat)
    requires q > 0
    ensures q * l == l + (q - 1) * l && q * l >= l
  {
  }

  lemma {:induction false} ScaleScale(k: Fp, c: Fp, s: seq<Fp>)
    ensures Scale(c, Scale(k, s)) == Scale(k, Scale(c, s))
  {
    if s != [] {
      ScaleScale(k, c, s[1..]);
      MulAssociates(c, k, s[0]);
      MulAssociates(k, c, s[0]);
      Commutes(c, k);
    }
  }

  lemma {:induction false} ScaleOddScale(k: Fp, s: seq<Fp>, e: nat, c: Fp)
    requires e > 0
    ensures ScaleOdd(Scale(k, s), e, c) == Scale(k, ScaleOdd(s, e, c))
    decreases |s|
  {
    if |s| >= 2 * e {
      var x, y, z := s[..e], s[e..2 * e], s[2 * e..];
      assert s == x + (y + z);
      ScaleAppend(k, x, y + z);
      ScaleAppend(k, y, z);
      var t := Scale(k, s);
      assert t[..e] == Scale(k, x) && t[e..2 * e] == Scale(k, y) && t[2 * e..] == Scale(k, z);
      ScaleScale(k, c, y);
      ScaleOddScale(k, z, e, c);
      ScaleAppend(k, x + Scale(c, y), ScaleOdd(z, e, c));
      ScaleAppend(k, x, Scale(c, y));
    }
  }

  lemma Regroup(q: nat, e: nat)
    ensures q * (2 * e) == (2 * q) * e
  {
  }

  lemma {:induction false} PassesSplit(a: seq<Fp>, b: seq<Fp>, ch: seq<Fp>, q: nat)
    requires |a| == q * Pow2(|ch|)
    ensures Passes(a + b, ch) == Passes(a, ch) + Passes(b, ch)
    decreases |ch|
  {
    if ch != [] {
      var e := Pow2(|ch| - 1);
      Regroup(q, e);
      ScaleOddSplit(a, b, e, ch[0], q);
      PassesSplit(ScaleOdd(a, e, ch[0]), ScaleOdd(b, e, ch[0]), ch[1..], 2 * q);
    }
  }

  lemma {:induction false} PassesScale(k: Fp, s: seq<Fp>, ch: seq<Fp>)
    ensures Passes(Scale(k, s), ch) == Scale(k, Passes(s, ch))
    decreases |ch|
  {
    if ch != [] {
      ScaleOddScale(k, s, Pow2(|ch| - 1), ch[0]);
      PassesScale(k, ScaleOdd(s, Pow2(|ch| - 1), ch[0]), ch[1..]);
    }
  }

  function Ones(n: nat): (r: seq<Fp>)
    ensures |r| == n && forall i :: 0 <= i < n ==> r[i] == 1
  {
    seq(n, i => 1)
  }

  /** The passes over a vector of ones build the coefficients. */
  lemma {:induction false} PassesBuildCoeffs(ch: seq<Fp>)
    ensures Passes(Ones(Pow2(|ch|)), ch) == Coeffs(ch)
  {
    if ch == [] {
      assert Ones(1) == [1];
    } else {
      var e := Pow2(|ch| - 1);
      var o, all := Ones(e), Ones(2 * e);
      assert all[..e] == o && all[e..2 * e] == o && all[2 * e..] == [];
      assert ScaleOdd(all, e, ch[0]) == o + Scale(ch[0], o);
      PassesSplit(o, Scale(ch[0], o), ch[1..], 1);
      PassesScale(ch[0], o, ch[1..]);
      PassesBuildCoeffs(ch[1..]);
    }
  }

  ghost predicate MultipleOf(n: int, l: nat)
    requires l > 0
    decreases n
  {
    n == 0 || (n >= l && MultipleOf(n - l, l))
  }

  lemma {:induction false} ProductIsMultiple(q: nat, l: nat)
    requires l > 0
    ensures MultipleOf(q * l, l)
  {
    if q > 0 {
      TakeBlock(q, l);
      ProductIsMultiple(q - 1, l);
    }
  }

  /** The blocks before position pos are done. */
  ghost predicate DoneUpTo(s: seq<Fp>, pos: int, e: nat, c: Fp, whole: seq<Fp>)
    requires e > 0
  {
    0 <= pos <= |s| && s[..pos] + ScaleOdd(s[pos..], e, c) == whole
  }

  lemma OddBlock(x: seq<Fp>, y: seq<Fp>, z: seq<Fp>, e: nat, c: Fp)
    requires e > 0 && |x| == |y| == e
    ensures ScaleOdd(x + y + z, e, c) == x + Scale(c, y) + ScaleOdd(z, e, c)
  {
    var s := x + y + z;
    assert s[..e] == x && s[e..2 * e] == y && s[2 * e..] == z;
  }

  lemma BlockStep(s: seq<Fp>, pos: nat, e: nat, c: Fp, whole: seq<Fp>, t: seq<Fp>)
    requires e > 0 && DoneUpTo(s, pos, e, c, whole) && pos + 2 * e <= |s|
    requires t == s[..pos + e] + Scale(c, s[pos + e..pos + 2 * e]) + s[pos + 2 * e..]
    ensures DoneUpTo(t, pos + 2 * e, e, c, whole)
  {
    var x, y, z := s[pos..pos + e], s[pos + e..pos + 2 * e], s[pos + 2 * e..];
    assert s[pos..] == x + y + z;
    OddBlock(x, y, z, e, c);
    var head := s[..pos] + x + Scale(c, y);
    assert t == head + z by { assert s[..pos + e] == s[..pos] + x; }
    assert t[..pos + 2 * e] == head && t[pos + 2 * e..] == z;
    AppendRegroups(s[..pos], x, Scale(c, y), ScaleOdd(z, e, c));
  }

  /** The two inner loops of compute_coeffs: one pass over all pairs of blocks. */
  method ScaleBlocks(coeffs: array<Fp>, elemDegree: nat, challenge: Fp)
    requires elemDegree > 0 && MultipleOf(coeffs.Length, 2 * elemDegree)
    modifies coeffs
    ensures coeffs[..] == ScaleOdd(old(coeffs[..]), elemDegree, challenge)
  {
    ghost var e, whole := elemDegree, ScaleOdd(coeffs[..], elemDegree, challenge);
    var start := elemDegree;
    while start < coeffs.Length
      invariant e <= start <= coeffs.Length + e && MultipleOf(coeffs.Length - (start - e), 2 * e)
      invariant DoneUpTo(coeffs[..], start - e, e, challenge, whole)
    {
      ScaleNextBlock(coeffs, start, elemDegree, challenge, whole);
      start := start + elemDegree * 2;
    }
    assert coeffs[..][..start - e] == coeffs[..];
  }

  method ScaleNextBlock(coeffs: array<Fp>, start: nat, elemDegree: nat, challenge: Fp, ghost whole: seq<Fp>)
    requires 0 < elemDegree <= start && start + elemDegree <= coeffs.Length
    requires DoneUpTo(coeffs[..], start - elemDegree, elemDegree, challenge, whole)
    modifies coeffs
    ensures DoneUpTo(coeffs[..], start + elemDegree, elemDegree, challenge, whole)
  {
    ghost var before := coeffs[..];
    ScaleBlock(coeffs, start, elemDegree, challenge);
    BlockStep(before, start - elemDegree, elemDegree, challenge, whole, coeffs[..]);
  }

  method ScaleBlock(coeffs: array<Fp>, start: nat, elemDegree: nat, challenge: Fp)
    requires start + elemDegree <= coeffs.Length
    modifies coeffs
    ensures var s, end := old(coeffs[..]), start + elemDegree;
            coeffs[..] == s[..start] + Scale(challenge, s[start..end]) + s[end..]
  {
    ghost var s := coeffs[..];
    for offset := 0 to elemDegree
      invariant forall k :: 0 <= k < coeffs.Length && !(start <= k < start + offset) ==> coeffs[k] == s[k]
      invariant forall k :: start <= k < start + offset ==> coeffs[k] == Mul(s[k], challenge)
    {
      coeffs[start + offset] := Mul(coeffs[start + offset], challenge);
    }
    ghost var block := s[start..start + elemDegree];
    forall k | 0 <= k < elemDegree ensures coeffs[start + k] == Scale(challenge, block)[k] {
      ScaleIndex(challenge, block, k);
      Commutes(block[k], challenge);
    }
  }

  lemma PassFits(logD: nat, i: nat)
    requires i < logD
    ensures MultipleOf(Pow2(logD), 2 * Pow2(logD - (i + 1)))
  {
    Pow2Add(i, logD - i);
    ProductIsMultiple(Pow2(i), Pow2(logD - i));
  }

  /** compute_coeffs: three nested loops over one vector. */
  method ComputeCoeffs(challenges: seq<Fp>) returns (result: seq<Fp>)
    ensures result == Coeffs(challenges)
  {
    var logD := |challenges|;
    var coeffs := new Fp[Pow2(logD)](_ => 1);
    assert coeffs[..] == Ones(Pow2(logD));
    for i := 0 to logD
      invariant Passes(coeffs[..], challenges[i..]) == Passes(Ones(Pow2(logD)), challenges)
    {
      var elemDegree := Pow2(logD - (i + 1));
      assert challenges[i..][1..] == challenges[i + 1..];
      PassFits(logD, i);
      ScaleBlocks(coeffs, elemDegree, challenges[i]);
    }
    PassesBuildCoeffs(challenges);
    result := coeffs[..];
  }
}
