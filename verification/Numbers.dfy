/** Powers of two and roundings, as the source computes them on machine words; the model
    does not bound them. */
module Numbers {

  function Pow2(n: nat): (p: nat)
    ensures p >= 1
  {
    if n == 0 then 1 else 2 * Pow2(n - 1)
  }

  /** Division rounding up: ceil_div of utils.rs. */
  function CeilDiv(x: nat, y: nat): nat
    requires y > 0
  {
    (x + y - 1) / y
  }

  function CeilHalf(n: nat, i: nat): nat {
    if i == 0 then n else (CeilHalf(n, i - 1) + 1) / 2
  }

  function FloorHalf(n: nat, i: nat): nat {
    if i == 0 then n else FloorHalf(n, i - 1) / 2
  }

  lemma DivUnique(n: int, d: int, q: int, r: int)
    requires d > 0 && n == q * d + r && 0 <= r < d
    ensures n / d == q && n % d == r
  {
    var q', r' := n / d, n % d;
    assert (q - q') * d == r' - r;
    assert q - q' >= 1 ==> (q - q') * d >= d;
    assert q' - q >= 1 ==> (q' - q) * d >= d;
  }

  lemma Halve(n: int, p: int, q: int, r: int)
    requires p > 0 && n == q * p + r && 0 <= r < p
    ensures n / (2 * p) == q / 2
  {
    var h := q / 2;
    if q == 2 * h {
      assert q * p == h * (2 * p);
      DivUnique(n, 2 * p, h, r);
    } else {
      assert q * p == h * (2 * p) + p by { assert q == 2 * h + 1; }
      DivUnique(n, 2 * p, h, p + r);
    }
  }

  /** Halving i times, rounding up each time, is one division by 2^i rounding up. */
  lemma {:induction false} CeilHalfIsCeilDiv(n: nat, i: nat)
    ensures CeilHalf(n, i) == CeilDiv(n, Pow2(i))
  {
    if i > 0 {
      CeilHalfIsCeilDiv(n, i - 1);
      CeilDivHalves(n, Pow2(i - 1));
    }
  }

  lemma CeilDivHalves(n: nat, p: nat)
    requires p > 0
    ensures (CeilDiv(n, p) + 1) / 2 == CeilDiv(n, 2 * p)
  {
    var t := n + p - 1;
    var q, r := t / p, t % p;
    assert t + p == (q + 1) * p + r by { assert t == q * p + r; }
    Halve(t + p, p, q + 1, r);
  }

  lemma {:induction false} FloorHalfIsDiv(n: nat, i: nat)
    ensures FloorHalf(n, i) == n / Pow2(i)
  {
    if i > 0 {
      FloorHalfIsDiv(n, i - 1);
      var p := Pow2(i - 1);
      Halve(n, p, n / p, n % p);
    }
  }

  lemma {:induction false} FloorHalfMonotone(m: nat, n: nat, i: nat)
    requires m <= n
    ensures FloorHalf(m, i) <= FloorHalf(n, i)
  {
    if i > 0 { FloorHalfMonotone(m, n, i - 1); }
  }

  ghost predicate HalvesEvenly(n: nat, depth: nat) {
    forall i :: 0 <= i < depth ==> FloorHalf(n, i) % 2 == 0
  }

  lemma {:induction false} HalvesOfMultiple(q: nat, m: nat, i: nat)
    requires i <= m
    ensures FloorHalf(q * Pow2(m), i) == q * Pow2(m - i)
  {
    if i > 0 {
      HalvesOfMultiple(q, m, i - 1);
      assert q * Pow2(m - i + 1) == 2 * (q * Pow2(m - i));
    }
  }

  lemma MultipleHalvesEvenly(q: nat, depth: nat)
    ensures HalvesEvenly(q * Pow2(depth), depth)
  {
    forall i | 0 <= i < depth ensures FloorHalf(q * Pow2(depth), i) % 2 == 0 {
      HalvesOfMultiple(q, depth, i);
      assert q * Pow2(depth - i) == 2 * (q * Pow2(depth - i - 1));
    }
  }

  /** The least number that makes n a multiple of 2^depth. */
  function Padding(n: nat, depth: nat): nat {
    if n % Pow2(depth) == 0 then 0 else Pow2(depth) - n % Pow2(depth)
  }

  lemma PaddingHalves(n: nat, depth: nat)
    ensures HalvesEvenly(Padding(n, depth) + n, depth)
    ensures FloorHalf(Padding(n, depth), depth) == 0
  {
    var p, pad := Pow2(depth), Padding(n, depth);
    var q := n / p;
    FloorHalfIsDiv(pad, depth);
    DivUnique(pad, p, 0, pad);
    if pad == 0 {
      assert n == q * p;
    } else {
      assert pad + n == (q + 1) * p by { assert n == q * p + n % p; }
      q := q + 1;
    }
    MultipleHalvesEvenly(q, depth);
  }

  /** The number formed by the i lowest bits of n. */
  function LowBits(n: nat, i: nat): nat {
    if i == 0 then 0 else LowBits(n, i - 1) + if FloorHalf(n, i - 1) % 2 == 1 then Pow2(i - 1) else 0
  }

  lemma {:induction false} SplitBits(n: nat, i: nat)
    ensures n == FloorHalf(n, i) * Pow2(i) + LowBits(n, i)
    ensures LowBits(n, i) < Pow2(i)
  {
    if i > 0 {
      SplitBits(n, i - 1);
      HalveProduct(FloorHalf(n, i - 1), Pow2(i - 1));
    }
  }

  lemma HalveProduct(h: int, p: int)
    ensures h * p == (h / 2) * (2 * p) + if h % 2 == 1 then p else 0
  {
    var k := h / 2;
    if h == 2 * k {
    } else {
      assert h == 2 * k + 1;
    }
  }

  lemma SmallQuotient(n: nat, h: nat, p: nat, l: nat)
    requires n == h * p + l && n < p
    ensures h == 0 && l == n
  {
    assert h >= 1 ==> h * p >= p;
  }

  lemma AllBits(n: nat, depth: nat)
    requires n < Pow2(depth)
    ensures FloorHalf(n, depth) == 0 && LowBits(n, depth) == n
  {
    SplitBits(n, depth);
    SmallQuotient(n, FloorHalf(n, depth), Pow2(depth), LowBits(n, depth));
  }

  lemma {:induction false} Pow2Add(i: nat, j: nat)
    ensures Pow2(i + j) == Pow2(i) * Pow2(j)
  {
    if i > 0 {
      Pow2Add(i - 1, j);
      assert 2 * (Pow2(i - 1) * Pow2(j)) == 2 * Pow2(i - 1) * Pow2(j);
    }
  }

  /** ark_std::log2: the least k with n <= 2^k. */
  function Log2(n: nat): nat {
    if n <= 1 then 0 else 1 + Log2((n + 1) / 2)
  }

  lemma {:induction false} Log2OfPower(k: nat)
    ensures Log2(Pow2(k)) == k
  {
    if k > 0 { Log2OfPower(k - 1); }
  }

  lemma {:induction false} Log2Covers(n: nat)
    ensures n <= Pow2(Log2(n))
  {
    if n > 1 { Log2Covers((n + 1) / 2); }
  }
}
