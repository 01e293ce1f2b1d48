/** Vectors of field elements.  The inner product is also the multi-scalar multiplication
    of the commitment schemes: bases times scalars, stopping at the shorter list. */
module Vectors {
  import opened PrimeField

  function Zeros(n: nat): (z: seq<Fp>)
    ensures |z| == n && forall i :: 0 <= i < n ==> z[i] == 0
  {
    seq(n, i => 0)
  }

  function Rev(s: seq<Fp>): (r: seq<Fp>)
    ensures |r| == |s|
  {
    if s == [] then [] else Rev(s[1..]) + [s[0]]
  }

  function Inner(a: seq<Fp>, b: seq<Fp>): Fp {
    if a == [] || b == [] then 0 else Add(Mul(a[0], b[0]), Inner(a[1..], b[1..]))
  }

  function Scale(k: Fp, a: seq<Fp>): (r: seq<Fp>)
    ensures |r| == |a|
  {
    if a == [] then [] else [Mul(k, a[0])] + Scale(k, a[1..])
  }

  /** The sum of two coefficient lists; the shorter one is extended with zeros. */
  function Plus(a: seq<Fp>, b: seq<Fp>): (r: seq<Fp>)
    ensures |r| == if |a| < |b| then |b| else |a|
  {
    if a == [] then b
    else if b == [] then a
    else [Add(a[0], b[0])] + Plus(a[1..], b[1..])
  }

  function Sum(s: seq<Fp>): Fp {
    if s == [] then 0 else Add(s[0], Sum(s[1..]))
  }

  // ----- sums

  lemma {:induction false} SumPush(s: seq<Fp>, x: Fp)
    ensures Sum(s + [x]) == Add(Sum(s), x)
  {
    if s == [] {
      assert ([x])[1..] == [] && [] + [x] == [x];
      Units(x);
    } else {
      assert (s + [x])[1..] == s[1..] + [x];
      SumPush(s[1..], x);
      AddAssociates(s[0], Sum(s[1..]), x);
    }
  }

  lemma {:induction false} SumNext(s: seq<Fp>, n: nat)
    requires 0 < n <= |s|
    ensures Sum(s[..n]) == Add(Sum(s[..n - 1]), s[n - 1])
  {
    SumPush(s[..n - 1], s[n - 1]);
    assert s[..n] == s[..n - 1] + [s[n - 1]];
  }

  // ----- reversal

  lemma {:induction false} RevAppend(a: seq<Fp>, b: seq<Fp>)
    ensures Rev(a + b) == Rev(b) + Rev(a)
  {
    if a == [] {
      assert a + b == b;
    } else {
      assert (a + b)[1..] == a[1..] + b;
      RevAppend(a[1..], b);
    }
  }

  lemma {:induction false} RevRev(a: seq<Fp>)
    ensures Rev(Rev(a)) == a
  {
    if a != [] {
      RevAppend(Rev(a[1..]), [a[0]]);
      RevRev(a[1..]);
      assert Rev([a[0]]) == [a[0]];
    }
  }

  lemma {:induction false} RevIndex(a: seq<Fp>, i: nat)
    requires i < |a|
    ensures Rev(a)[i] == a[|a| - 1 - i]
  {
    if i < |a| - 1 { RevIndex(a[1..], i); }
  }

  lemma RevSuffix(a: seq<Fp>, n: nat)
    requires n <= |a|
    ensures Rev(a)[|a| - n..] == Rev(a[..n])
  {
    assert a == a[..n] + a[n..];
    RevAppend(a[..n], a[n..]);
  }

  lemma AppendAssociates(a: seq<Fp>, b: seq<Fp>, c: seq<Fp>)
    ensures a + (b + c) == a + b + c
  {
  }

  lemma AppendRegroups(a: seq<Fp>, b: seq<Fp>, c: seq<Fp>, d: seq<Fp>)
    ensures a + (b + c + d) == a + b + c + d
  {
  }

  // ----- inner products

  lemma {:induction false} InnerAppend(a: seq<Fp>, b: seq<Fp>, c: seq<Fp>, d: seq<Fp>)
    requires |a| == |c|
    ensures Inner(a + b, c + d) == Add(Inner(a, c), Inner(b, d))
  {
    if a == [] {
      assert a + b == b && c + d == d;
      Units(Inner(b, d));
    } else {
      assert (a + b)[1..] == a[1..] + b && (c + d)[1..] == c[1..] + d;
      InnerAppend(a[1..], b, c[1..], d);
      AddAssociates(Mul(a[0], c[0]), Inner(a[1..], c[1..]), Inner(b, d));
    }
  }

  lemma {:induction false} InnerCommutes(a: seq<Fp>, b: seq<Fp>)
    ensures Inner(a, b) == Inner(b, a)
  {
    if a != [] && b != [] {
      InnerCommutes(a[1..], b[1..]);
      Commutes(a[0], b[0]);
    }
  }

  lemma ScaleStep(k: Fp, a: Fp, b: Fp, rest: Fp)
    ensures Add(Mul(Mul(k, a), b), Mul(k, rest)) == Mul(k, Add(Mul(a, b), rest))
    ensures Add(Mul(b, Mul(k, a)), Mul(k, rest)) == Mul(k, Add(Mul(b, a), rest))
  {
    MulAssociates(k, a, b);
    MulSwaps(b, k, a);
    Distributes(k, Mul(a, b), rest);
    Distributes(k, Mul(b, a), rest);
  }

  lemma {:induction false} InnerScale(k: Fp, a: seq<Fp>, b: seq<Fp>)
    ensures Inner(Scale(k, a), b) == Mul(k, Inner(a, b))
    ensures Inner(b, Scale(k, a)) == Mul(k, Inner(b, a))
  {
    if a == [] || b == [] {
      Units(k);
    } else {
      InnerScale(k, a[1..], b[1..]);
      ScaleStep(k, a[0], b[0], Inner(a[1..], b[1..]));
      ScaleStep(k, a[0], b[0], Inner(b[1..], a[1..]));
    }
  }

  lemma PlusStep(a: Fp, b: Fp, c: Fp, p: Fp, q: Fp)
    ensures Add(Mul(Add(a, b), c), Add(p, q)) == Add(Add(Mul(a, c), p), Add(Mul(b, c), q))
  {
    RingLaws();
  }

  lemma {:induction false} InnerPlus(a: seq<Fp>, b: seq<Fp>, c: seq<Fp>)
    ensures Inner(Plus(a, b), c) == Add(Inner(a, c), Inner(b, c))
  {
    if a == [] {
      Units(Inner(b, c));
    } else if b == [] {
      Units(Inner(a, c));
    } else if c == [] {
      Units(0);
    } else {
      InnerPlus(a[1..], b[1..], c[1..]);
      PlusStep(a[0], b[0], c[0], Inner(a[1..], c[1..]), Inner(b[1..], c[1..]));
    }
  }

  lemma InnerPlusRight(a: seq<Fp>, b: seq<Fp>, c: seq<Fp>)
    ensures Inner(c, Plus(a, b)) == Add(Inner(c, a), Inner(c, b))
  {
    InnerPlus(a, b, c);
    InnerCommutes(c, Plus(a, b));
    InnerCommutes(c, a);
    InnerCommutes(c, b);
  }

  lemma {:induction false} InnerZeros(n: nat, b: seq<Fp>)
    ensures Inner(Zeros(n), b) == 0 && Inner(b, Zeros(n)) == 0
  {
    if n > 0 && b != [] {
      assert Zeros(n)[1..] == Zeros(n - 1);
      InnerZeros(n - 1, b[1..]);
      Units(b[0]);
      Units(0);
    }
  }

  lemma {:induction false} InnerCut(a: seq<Fp>, b: seq<Fp>, n: nat)
    requires |b| <= n <= |a|
    ensures Inner(a, b) == Inner(a[..n], b)
  {
    if b != [] {
      assert a[..n][1..] == a[1..][..n - 1];
      InnerCut(a[1..], b[1..], n - 1);
    }
  }

  lemma {:induction false} InnerRev(a: seq<Fp>, b: seq<Fp>)
    requires |a| == |b|
    ensures Inner(Rev(a), Rev(b)) == Inner(a, b)
  {
    if a != [] {
      InnerRev(a[1..], b[1..]);
      InnerAppend(Rev(a[1..]), [a[0]], Rev(b[1..]), [b[0]]);
      assert Inner([a[0]], [b[0]]) == Mul(a[0], b[0]) by { Units(Mul(a[0], b[0])); }
      Commutes(Mul(a[0], b[0]), Inner(a[1..], b[1..]));
    }
  }

  lemma InnerPush(a: seq<Fp>, b: seq<Fp>, x: Fp, y: Fp)
    requires |a| == |b|
    ensures Inner(a + [x], b + [y]) == Add(Inner(a, b), Mul(x, y))
  {
    InnerAppend(a, [x], b, [y]);
    Units(Mul(x, y));
  }

  lemma {:induction false} ScaleAppend(k: Fp, a: seq<Fp>, b: seq<Fp>)
    ensures Scale(k, a + b) == Scale(k, a) + Scale(k, b)
  {
    if a == [] {
      assert a + b == b;
    } else {
      assert (a + b)[1..] == a[1..] + b;
      ScaleAppend(k, a[1..], b);
    }
  }

  lemma {:induction false} InnerUpdate(a: seq<Fp>, b: seq<Fp>, i: nat, x: Fp)
    requires i < |a| && i < |b|
    ensures Inner(a, b[i := Add(b[i], x)]) == Add(Inner(a, b), Mul(a[i], x))
  {
    var b' := b[i := Add(b[i], x)];
    if i == 0 {
      assert b'[1..] == b[1..];
      Commutes(a[0], b'[0]);
      AddToFactor(b[0], x, a[0], Inner(a[1..], b[1..]));
      Commutes(a[0], b[0]);
      Commutes(a[0], x);
    } else {
      assert b'[1..] == b[1..][i - 1 := Add(b[i], x)];
      InnerUpdate(a[1..], b[1..], i - 1, x);
      AddAssociates(Mul(a[0], b[0]), Inner(a[1..], b[1..]), Mul(a[i], x));
    }
  }

  lemma {:induction false} ScaleIndex(c: Fp, f: seq<Fp>, i: nat)
    requires i < |f|
    ensures Scale(c, f)[i] == Mul(c, f[i])
  {
    if i > 0 { ScaleIndex(c, f[1..], i - 1); }
  }
}
