/** Arithmetic in a field of prime order.  The order P is an arbitrary prime: it has no
    value that a proof could use, so everything below holds in every prime field.

    A group of order P written additively is a one-dimensional space over this field, so
    group elements are represented by their discrete logarithms and share the type Fp:
    adding group elements is Add, multiplying one by a scalar is Mul, and the pairing of
    two group elements is the product of their logarithms. */
module PrimeField {

  datatype Option<+T> = None | Some(value: T)

  /** Ok and Err as in the source; Panic where it would unwrap a missing value, index out of
      range or fail an assertion. */
  datatype Outcome<+T> = Ok(value: T) | Err | Panic

  ghost predicate IsPrime(p: int) {
    p >= 2 && forall a, b :: 1 <= a < p && 1 <= b < p ==> a * b != p
  }

  type Modulus = p: int | IsPrime(p) witness 2

  const P: Modulus

  type Fp = x: int | 0 <= x < P witness 0

  // The operations are defined through quantifiers over Peek, so that a proof sees the
  // integer arithmetic behind them only where it mentions Peek.
  predicate Peek(x: int) { true }

  predicate IsResidue(n: int, r: Fp) {
    forall x :: 0 <= x < 1 && Peek(x) ==> r == n % P
  }

  predicate IsSum(a: Fp, b: Fp, r: Fp) {
    forall x :: 0 <= x < 1 && Peek(x) ==> r == Of(a + b)
  }

  predicate IsProduct(a: Fp, b: Fp, r: Fp) {
    forall x :: 0 <= x < 1 && Peek(x) ==> r == Of(a * b)
  }

  /** The residue class of an integer. */
  function Of(n: int): Fp {
    assert Peek(0);
    assert IsResidue(n, n % P);
    var r: Fp :| 0 <= r < P && IsResidue(n, r);
    r
  }

  function Add(a: Fp, b: Fp): Fp {
    assert Peek(0);
    assert IsSum(a, b, Of(a + b));
    var r: Fp :| 0 <= r < P && IsSum(a, b, r);
    r
  }

  function Mul(a: Fp, b: Fp): Fp {
    assert Peek(0);
    assert IsProduct(a, b, Of(a * b));
    var r: Fp :| 0 <= r < P && IsProduct(a, b, r);
    r
  }

  function Neg(a: Fp): Fp {
    if a == 0 then 0 else P - a
  }

  function Sub(a: Fp, b: Fp): Fp {
    Add(a, Neg(b))
  }

  /** The inverse of a field element; None where the source's inverse() has no value. */
  function Inverse(a: Fp): (r: Option<Fp>)
    ensures r.None? <==> a == 0
    ensures r.Some? ==> Mul(a, r.value) == 1
  {
    if a == 0 then
      None
    else
      InverseExists(a);
      InverseUnique(a);
      var x: Fp :| 0 <= x < P && Mul(a, x) == 1;
      Some(x)
  }

  function Pow(x: Fp, n: nat): Fp {
    if n == 0 then 1 else Mul(x, Pow(x, n - 1))
  }

  // ----- from integers to residues

  lemma SmallMultiple(k: int, p: int, d: int)
    requires k * p == d && -p < d < p
    ensures d == 0 && k == 0
  {
    assert k >= 1 ==> k * p >= p;
    assert k <= -1 ==> k * p <= -p;
  }

  lemma ModUnique(n: int, q: int, r: int)
    requires n == q * P + r && 0 <= r < P
    ensures n % P == r
  {
    SmallMultiple(q - n / P, P, n % P - r) by { assert (q - n / P) * P == n % P - r; }
  }

  lemma Quotient(n: int) returns (q: int)
    ensures n == Of(n) + q * P
  {
    assert Peek(0);
    q := n / P;
  }

  lemma OfShift(r: int, k: int)
    requires 0 <= r < P
    ensures Of(r + k * P) == r
  {
    assert Peek(0);
    ModUnique(r + k * P, k, r);
  }

  lemma OfFp(a: Fp)
    ensures Of(a) == a
  {
    OfShift(a, 0);
  }

  lemma OfAdd(m: int, n: int)
    ensures Add(Of(m), Of(n)) == Of(m + n)
  {
    var i := Quotient(m);
    var j := Quotient(n);
    var k := Quotient(Of(m) + Of(n));
    var s := Of(Of(m) + Of(n));
    SumOfMultiples(m, Of(m), i, n, Of(n), j, s, k, P);
    OfShift(s, i + j + k);
    assert Add(Of(m), Of(n)) == s by { assert Peek(0); }
  }

  lemma SumOfMultiples(m: int, a: int, i: int, n: int, b: int, j: int, s: int, k: int, p: int)
    requires m == a + i * p && n == b + j * p && a + b == s + k * p
    ensures m + n == s + (i + j + k) * p
  {
    assert (i + j + k) * p == i * p + j * p + k * p;
  }

  lemma OfMul(m: int, n: int)
    ensures Mul(Of(m), Of(n)) == Of(m * n)
  {
    var i := Quotient(m);
    var j := Quotient(n);
    var k := Quotient(Of(m) * Of(n));
    ProductOfMultiples(Of(m), i, Of(n), j, k, P);
    OfShift(Of(Of(m) * Of(n)), Of(m) * j + i * Of(n) + i * j * P + k);
    assert Peek(0);
  }

  lemma ProductOfMultiples(a: int, i: int, b: int, j: int, k: int, p: int)
    ensures (a + i * p) * (b + j * p) == (a * b - k * p) + (a * j + i * b + i * j * p + k) * p
  {
  }

  // ----- the field laws

  lemma Commutes(a: Fp, b: Fp)
    ensures Add(a, b) == Add(b, a)
    ensures Mul(a, b) == Mul(b, a)
  {
    assert Peek(0);
    assert a * b == b * a;
  }

  lemma AddAssociates(a: Fp, b: Fp, c: Fp)
    ensures Add(Add(a, b), c) == Add(a, Add(b, c))
  {
    OfFp(a); OfFp(b); OfFp(c);
    OfAdd(a, b); OfAdd(b, c); OfAdd(a + b, c); OfAdd(a, b + c);
  }

  lemma MulAssociates(a: Fp, b: Fp, c: Fp)
    ensures Mul(Mul(a, b), c) == Mul(a, Mul(b, c))
  {
    OfFp(a); OfFp(b); OfFp(c);
    OfMul(a, b); OfMul(b, c); OfMul(a * b, c); OfMul(a, b * c);
    assert (a * b) * c == a * (b * c);
  }

  lemma Distributes(a: Fp, b: Fp, c: Fp)
    ensures Mul(a, Add(b, c)) == Add(Mul(a, b), Mul(a, c))
  {
    OfFp(a); OfFp(b); OfFp(c);
    OfAdd(b, c); OfMul(a, b + c); OfMul(a, b); OfMul(a, c); OfAdd(a * b, a * c);
    assert a * (b + c) == a * b + a * c;
  }

  lemma Units(a: Fp)
    ensures Add(a, 0) == a && Add(0, a) == a && Add(a, Neg(a)) == 0
    ensures Mul(a, 1) == a && Mul(1, a) == a && Mul(a, 0) == 0 && Mul(0, a) == 0
  {
    assert Peek(0);
    OfFp(a); OfFp(0);
    assert a * 1 == a && a * 0 == 0;
    OfShift(0, 1);
  }

  lemma NegDistributes(a: Fp, b: Fp)
    ensures Neg(Add(a, b)) == Add(Neg(a), Neg(b))
    ensures Mul(a, Neg(b)) == Neg(Mul(a, b))
    ensures Neg(Neg(a)) == a
  {
    NegUnique(Add(a, b), Add(Neg(a), Neg(b))) by {
      Units(a); Units(b); Units(0);
      Commutes(Neg(a), Neg(b));
      AddAssociates(Add(a, b), Neg(b), Neg(a));
      AddAssociates(a, b, Neg(b));
    }
    NegUnique(Mul(a, b), Mul(a, Neg(b))) by {
      Distributes(a, b, Neg(b));
      Units(b); Units(a);
    }
  }

  lemma NegUnique(a: Fp, b: Fp)
    requires Add(a, b) == 0
    ensures b == Neg(a)
  {
    AddAssociates(Neg(a), a, b);
    Units(a); Units(b); Units(Neg(a));
    Commutes(a, Neg(a));
  }

  /** The laws of a commutative ring, for the solver to apply where a proof calls for them. */
  lemma RingLaws()
    ensures forall a: Fp, b: Fp {:trigger Add(a, b)} :: Add(a, b) == Add(b, a)
    ensures forall a: Fp, b: Fp {:trigger Mul(a, b)} :: Mul(a, b) == Mul(b, a)
    ensures forall a: Fp, b: Fp, c: Fp {:trigger Add(Add(a, b), c)} {:trigger Add(a, Add(b, c))} ::
              Add(Add(a, b), c) == Add(a, Add(b, c))
    ensures forall a: Fp, b: Fp, c: Fp {:trigger Mul(Mul(a, b), c)} {:trigger Mul(a, Mul(b, c))} ::
              Mul(Mul(a, b), c) == Mul(a, Mul(b, c))
    ensures forall a: Fp, b: Fp, c: Fp {:trigger Mul(a, Add(b, c))} ::
              Mul(a, Add(b, c)) == Add(Mul(a, b), Mul(a, c))
    ensures forall a: Fp {:trigger Add(a, 0)} {:trigger Add(0, a)} :: Add(a, 0) == a && Add(0, a) == a
    ensures forall a: Fp {:trigger Mul(a, 0)} {:trigger Mul(0, a)} :: Mul(a, 0) == 0 && Mul(0, a) == 0
    ensures forall a: Fp {:trigger Mul(a, 1)} {:trigger Mul(1, a)} :: Mul(a, 1) == a && Mul(1, a) == a
    ensures forall a: Fp {:trigger Neg(a)} :: Add(a, Neg(a)) == 0 && Neg(Neg(a)) == a
    ensures forall a: Fp, b: Fp {:trigger Neg(Add(a, b))} :: Neg(Add(a, b)) == Add(Neg(a), Neg(b))
    ensures forall a: Fp, b: Fp {:trigger Mul(a, Neg(b))} :: Mul(a, Neg(b)) == Neg(Mul(a, b))
  {
    forall a: Fp, b: Fp ensures Add(a, b) == Add(b, a) && Mul(a, b) == Mul(b, a) { Commutes(a, b); }
    forall a: Fp, b: Fp, c: Fp ensures Add(Add(a, b), c) == Add(a, Add(b, c)) { AddAssociates(a, b, c); }
    forall a: Fp, b: Fp, c: Fp ensures Mul(Mul(a, b), c) == Mul(a, Mul(b, c)) { MulAssociates(a, b, c); }
    forall a: Fp, b: Fp, c: Fp ensures Mul(a, Add(b, c)) == Add(Mul(a, b), Mul(a, c)) { Distributes(a, b, c); }
    forall a: Fp ensures Neg(Neg(a)) == a { Units(a); NegDistributes(a, a); }
    forall a: Fp { Units(a); }
    forall a: Fp, b: Fp
      ensures Neg(Add(a, b)) == Add(Neg(a), Neg(b)) && Mul(a, Neg(b)) == Neg(Mul(a, b))
    {
      NegDistributes(a, b);
    }
  }

  // ----- consequences

  lemma FourSum(a: Fp, b: Fp, c: Fp, d: Fp)
    ensures Add(Add(a, b), Add(c, d)) == Add(Add(a, c), Add(b, d))
  {
    RingLaws();
  }

  lemma MulSwaps(a: Fp, b: Fp, c: Fp)
    ensures Mul(a, Mul(b, c)) == Mul(b, Mul(a, c))
  {
    MulAssociates(a, b, c);
    Commutes(a, b);
    MulAssociates(b, a, c);
  }

  lemma NegTimes(a: Fp, b: Fp)
    ensures Mul(Neg(a), b) == Neg(Mul(a, b))
  {
    Commutes(Neg(a), b);
    NegDistributes(b, a);
    Commutes(a, b);
  }

  /** s a + (s x) e == s (a + x e). */
  lemma PullOut(s: Fp, a: Fp, x: Fp, e: Fp)
    ensures Add(Mul(s, a), Mul(Mul(s, x), e)) == Mul(s, Add(a, Mul(x, e)))
  {
    MulAssociates(s, x, e);
    Distributes(s, a, Mul(x, e));
  }

  /** (a + x) e + rest == (a e + rest) + x e. */
  lemma AddToFactor(a: Fp, x: Fp, e: Fp, rest: Fp)
    ensures Add(Mul(Add(a, x), e), rest) == Add(Add(Mul(a, e), rest), Mul(x, e))
  {
    RingLaws();
  }

  lemma InverseExists(a: Fp)
    requires a != 0
    ensures exists b: Fp :: Mul(a, b) == 1
    decreases a
  {
    if a == 1 {
      Units(a);
      assert Mul(a, 1) == 1;
    } else {
      // P == q * a + r with 0 < r < a, so the inverse of r times -q is an inverse of a
      var q, r := P / a, P % a;
      assert r == 0 ==> a * q == P;
      InverseExists(r);
      var c: Fp :| Mul(r, c) == 1;
      InverseStep(a, q, r, c);
    }
  }

  lemma InverseStep(a: Fp, q: int, r: Fp, c: Fp)
    requires q * a + r == P && Mul(r, c) == 1
    ensures Mul(a, Mul(Neg(Of(q)), c)) == 1
  {
    assert Add(Mul(Of(q), a), r) == 0 by {
      OfFp(a); OfFp(r);
      OfMul(q, a); OfAdd(q * a, r); OfShift(0, 1);
    }
    NegUnique(Mul(Of(q), a), r);
    assert Mul(a, Mul(Neg(Of(q)), c)) == Mul(r, c) by { RingLaws(); }
  }

  lemma InverseUnique(a: Fp)
    ensures forall x: Fp, y: Fp | Mul(a, x) == 1 && Mul(a, y) == 1 :: x == y
  {
    forall x: Fp, y: Fp | Mul(a, x) == 1 && Mul(a, y) == 1 ensures x == y {
      MulAssociates(x, a, y);
      Commutes(x, a);
      Units(x); Units(y);
    }
  }

  lemma NoZeroDivisors(a: Fp, b: Fp)
    requires Mul(a, b) == 0 && a != 0
    ensures b == 0
  {
    InverseExists(a);
    var c: Fp :| Mul(a, c) == 1;
    MulAssociates(c, a, b);
    Commutes(c, a);
    Units(c); Units(b);
  }

  lemma NonZeroProducts(a: Fp, b: Fp, c: Fp)
    requires a != 0 && b != 0 && c != 0
    ensures Mul(a, Mul(b, c)) != 0
  {
    if Mul(b, c) == 0 { NoZeroDivisors(b, c); }
    if Mul(a, Mul(b, c)) == 0 { NoZeroDivisors(a, Mul(b, c)); }
  }

  lemma SubZero(a: Fp, b: Fp)
    ensures Sub(a, b) == 0 <==> a == b
  {
    Units(a); Units(b);
    Commutes(a, Neg(b));
    if Sub(a, b) == 0 { NegUnique(Neg(b), a); NegDistributes(b, b); }
  }

  lemma SubIff(a: Fp, b: Fp, c: Fp)
    ensures Sub(a, b) == c <==> a == Add(b, c)
  {
    assert Add(b, Add(a, Neg(b))) == a by { RingLaws(); }
    assert Add(Add(b, c), Neg(b)) == c by { RingLaws(); }
  }

  lemma {:induction false} PowAdd(x: Fp, m: nat, n: nat)
    ensures Pow(x, m + n) == Mul(Pow(x, m), Pow(x, n))
  {
    if m == 0 {
      Units(Pow(x, n));
    } else {
      PowAdd(x, m - 1, n);
      MulAssociates(x, Pow(x, m - 1), Pow(x, n));
    }
  }
}
