/** Dimensions and offsets of the Brakedown code (linear_codes/brakedown.rs). */
module BrakedownLayout {

  /** ceil_mul: the ceiling of a * num / den. */
  function CeilMul(a: nat, num: nat, den: nat): nat
    requires den > 0
  {
    (a * num + den - 1) / den
  }

  /** The default rates: alpha = 178/1000 and r = 1521/1000. */
  function CeilAlpha(n: nat): nat {
    CeilMul(n, 178, 1000)
  }

  function CeilR(n: nat): nat {
    CeilMul(n, 1521, 1000)
  }

  /** Multiplication by the two rates, and the choice of the numbers of nonzero entries, which
      may be any. */
  datatype Rates = Rates(alpha: nat -> nat, r: nat -> nat, cn: nat -> nat, dn: nat -> nat)

  /** Rows, columns and nonzero entries per row of one matrix. */
  datatype Dim = Dim(rows: nat, cols: nat, nnz: nat)

  function Min(a: nat, b: nat): nat {
    if a < b then a else b
  }

  // ----- what the rates have to satisfy

  /** From the base length on, messages shrink, and the code has room for both the message and
      the code of the shrunk message. */
  ghost predicate GoodRates(rates: Rates, baseLen: nat) {
    forall n: nat :: GoodAt(rates, baseLen, n)
  }

  ghost predicate GoodAt(rates: Rates, baseLen: nat, n: nat) {
    && n <= rates.r(n)
    && (n >= baseLen ==> rates.alpha(n) < n && n + rates.r(rates.alpha(n)) <= rates.r(n))
  }

  lemma AlphaShrinks(n: nat)
    requires n >= 2
    ensures CeilAlpha(n) < n
  {
  }

  lemma RoomForB(n: nat, a: int, b: int, c: int)
    requires n >= 11 && 1000 * a <= 178 * n + 999 && 1000 * b <= 1521 * a + 999 && 1000 * c >= 1521 * n
    ensures n + b <= c
  {
  }

  lemma CeilMulBounds(a: nat, num: nat, den: nat)
    requires den > 0
    ensures a * num <= den * CeilMul(a, num, den) <= a * num + den - 1
  {
  }

  /** The default rates are good from length two on. */
  lemma DefaultRatesGood(cn: nat -> nat, dn: nat -> nat, baseLen: nat)
    requires baseLen >= 2
    ensures GoodRates(Rates(CeilAlpha, CeilR, cn, dn), baseLen)
  {
    forall n: nat ensures GoodAt(Rates(CeilAlpha, CeilR, cn, dn), baseLen, n) {
      CeilMulBounds(n, 1521, 1000);
      if n >= 11 {
        AlphaShrinks(n);
        CeilMulBounds(n, 178, 1000);
        CeilMulBounds(CeilAlpha(n), 1521, 1000);
        RoomForB(n, CeilAlpha(n), CeilR(CeilAlpha(n)), CeilR(n));
      } else if n >= 2 {
        AlphaShrinks(n);
        ShortMessages(n);
      }
    }
  }

  lemma ShortMessages(n: nat)
    requires 2 <= n < 11
    ensures n + CeilR(CeilAlpha(n)) <= CeilR(n)
  {
    assert n == 2 || n == 3 || n == 4 || n == 5 || n == 6 || n == 7 || n == 8 || n == 9 || n == 10;
  }

  /** A message of length one neither shrinks nor leaves room. */
  lemma LengthOneFails()
    ensures CeilAlpha(1) == 1 && 1 + CeilR(CeilAlpha(1)) > CeilR(1)
  {
  }

  // ----- mat_size

  function ADim(n: nat, rates: Rates): Dim {
    Dim(n, rates.alpha(n), Min(rates.cn(n), rates.alpha(n)))
  }

  function ADims(n: nat, baseLen: nat, rates: Rates): (r: seq<Dim>)
    requires GoodRates(rates, baseLen)
    decreases n
  {
    assert GoodAt(rates, baseLen, n);
    if n < baseLen then [] else [ADim(n, rates)] + ADims(rates.alpha(n), baseLen, rates)
  }

  function BDim(a: Dim, rates: Rates): Dim
    requires a.rows + rates.r(a.cols) <= rates.r(a.rows)
  {
    var n := rates.r(a.cols);
    var m := rates.r(a.rows) - a.rows - n;
    Dim(n, m, Min(rates.dn(n), m))
  }

  ghost predicate RoomFor(aDims: seq<Dim>, rates: Rates) {
    forall i :: 0 <= i < |aDims| ==> aDims[i].rows + rates.r(aDims[i].cols) <= rates.r(aDims[i].rows)
  }

  function BDims(aDims: seq<Dim>, rates: Rates): (r: seq<Dim>)
    requires RoomFor(aDims, rates)
    ensures |r| == |aDims| && forall i :: 0 <= i < |r| ==> r[i] == BDim(aDims[i], rates)
  {
    seq(|aDims|, i requires 0 <= i < |aDims| => BDim(aDims[i], rates))
  }

  lemma {:induction false} ADimsRoom(n: nat, baseLen: nat, rates: Rates)
    requires GoodRates(rates, baseLen)
    ensures RoomFor(ADims(n, baseLen, rates), rates)
    decreases n
  {
    assert GoodAt(rates, baseLen, n);
    if n >= baseLen { ADimsRoom(rates.alpha(n), baseLen, rates); }
  }

  /** mat_size terminates and never underflows. */
  method MatSize(length: nat, baseLen: nat, rates: Rates) returns (aDims: seq<Dim>, bDims: seq<Dim>)
    requires GoodRates(rates, baseLen)
    ensures RoomFor(aDims, rates)
    ensures aDims == ADims(length, baseLen, rates) && bDims == BDims(aDims, rates)
  {
    aDims := [];
    var n: nat := length;
    while n >= baseLen
      invariant aDims + ADims(n, baseLen, rates) == ADims(length, baseLen, rates)
      decreases n
    {
      assert GoodAt(rates, baseLen, n);
      var m := rates.alpha(n);
      var c := rates.cn(n);
      c := if c < m then c else m;
      ghost var before := aDims;
      aDims := aDims + [Dim(n, m, c)];
      assert before + ([Dim(n, m, c)] + ADims(m, baseLen, rates)) == aDims + ADims(m, baseLen, rates);
      n := m;
    }
    assert aDims == ADims(length, baseLen, rates);
    ADimsRoom(length, baseLen, rates);
    bDims := BDims(aDims, rates);
  }

  /** As many nonzero entries as wanted, but no more than there are columns. */
  predicate Capped(nnz: nat, wanted: nat, cols: nat) {
    nnz <= wanted && nnz <= cols && (nnz == wanted || nnz == cols)
  }

  /** Level i takes the output of the one before it, which is not shorter than the base length. */
  ghost predicate IsLevel(aDims: seq<Dim>, n: nat, baseLen: nat, rates: Rates, i: nat)
    requires i < |aDims|
  {
    var a := aDims[i];
    && a.rows == (if i == 0 then n else aDims[i - 1].cols) && a.rows >= baseLen
    && a.cols == rates.alpha(a.rows) && Capped(a.nnz, rates.cn(a.rows), a.cols)
  }

  /** The levels go on until what is left is shorter than the base length. */
  lemma {:induction false} ADimsAre(n: nat, baseLen: nat, rates: Rates)
    requires GoodRates(rates, baseLen)
    ensures var aDims := ADims(n, baseLen, rates);
            && (forall i :: 0 <= i < |aDims| ==> IsLevel(aDims, n, baseLen, rates, i))
            && (if aDims == [] then n else aDims[|aDims| - 1].cols) < baseLen
    decreases n
  {
    assert GoodAt(rates, baseLen, n);
    if n >= baseLen {
      var m, aDims := rates.alpha(n), ADims(n, baseLen, rates);
      ADimsAre(m, baseLen, rates);
      var rest := ADims(m, baseLen, rates);
      assert aDims == [ADim(n, rates)] + rest;
      forall i | 0 <= i < |aDims| ensures IsLevel(aDims, n, baseLen, rates, i) {
        if i > 0 { assert IsLevel(rest, m, baseLen, rates, i - 1); }
      }
    }
  }

  /** The matrix of the way back takes the code of the shrunk message to what is missing from the code of
      the message. */
  lemma BDimsAre(aDims: seq<Dim>, rates: Rates, i: nat)
    requires RoomFor(aDims, rates) && i < |aDims|
    ensures var b := BDims(aDims, rates)[i];
            && b.rows == rates.r(aDims[i].cols) && aDims[i].rows + b.rows + b.cols == rates.r(aDims[i].rows)
            && Capped(b.nnz, rates.dn(b.rows), b.cols)
  {
  }

  // ----- the tables of new

  function SumRows(dims: seq<Dim>): nat {
    if dims == [] then 0 else dims[0].rows + SumRows(dims[1..])
  }

  function SumCols(dims: seq<Dim>): nat {
    if dims == [] then 0 else dims[0].cols + SumCols(dims[1..])
  }

  function CodewordLen(aDims: seq<Dim>, bDims: seq<Dim>): nat
    requires bDims != []
  {
    SumCols(bDims) + SumRows(aDims) + bDims[|bDims| - 1].rows
  }

  function ExtendedLength(m: nat, aDims: seq<Dim>, bDims: seq<Dim>, rates: Rates): nat
    requires |aDims| == |bDims|
  {
    if aDims == [] then rates.r(m) else CodewordLen(aDims, bDims)
  }

  /** The scan that adds up the rows. */
  function Starts(aDims: seq<Dim>, acc: nat): (r: seq<nat>)
    ensures |r| == |aDims|
  {
    if aDims == [] then [] else [acc + aDims[0].rows] + Starts(aDims[1..], acc + aDims[0].rows)
  }

  /** The scan that takes the columns away; a negative entry would be an underflow. */
  function Ends(bDims: seq<Dim>, acc: int): (r: seq<int>)
    ensures |r| == |bDims|
  {
    if bDims == [] then [] else [acc - bDims[0].cols] + Ends(bDims[1..], acc - bDims[0].cols)
  }

  /** Each matrix takes the output of the one before it. */
  ghost predicate Chained(aDims: seq<Dim>, m: nat) {
    aDims == [] || (aDims[0].rows == m && Chained(aDims[1..], aDims[0].cols))
  }

  lemma {:induction false} ADimsChained(n: nat, baseLen: nat, rates: Rates)
    requires GoodRates(rates, baseLen)
    ensures Chained(ADims(n, baseLen, rates), n)
    decreases n
  {
    assert GoodAt(rates, baseLen, n);
    if n >= baseLen {
      var rest := ADims(rates.alpha(n), baseLen, rates);
      ADimsChained(rates.alpha(n), baseLen, rates);
      assert ([ADim(n, rates)] + rest)[1..] == rest;
    }
  }

  /** The codeword is as long as the rate promises: r(m). */
  lemma {:induction false} LengthIsRate(aDims: seq<Dim>, rates: Rates, m: nat)
    requires RoomFor(aDims, rates) && Chained(aDims, m)
    ensures ExtendedLength(m, aDims, BDims(aDims, rates), rates) == rates.r(m)
    decreases |aDims|
  {
    if aDims != [] {
      var rest, bDims := aDims[1..], BDims(aDims, rates);
      assert RoomFor(rest, rates);
      assert bDims[1..] == BDims(rest, rates) && bDims[0] == BDim(aDims[0], rates);
      LengthIsRate(rest, rates, aDims[0].cols);
      var last := bDims[|bDims| - 1].rows;
      assert rest == [] ==> SumCols(bDims[1..]) == 0 && SumRows(rest) == 0 && last == rates.r(aDims[0].cols);
      assert rest != [] ==> last == bDims[1..][|rest| - 1].rows;
      assert SumCols(bDims[1..]) + SumRows(rest) + last == rates.r(aDims[0].cols);
    }
  }

  /** What encode relies on, for every level i. */
  ghost predicate LevelOk(aDims: seq<Dim>, bDims: seq<Dim>, start: seq<nat>, end: seq<int>, length: nat, m: nat, i: nat)
    requires i < |aDims| == |bDims| == |start| == |end|
  {
    && start[i] == (if i == 0 then m else start[i - 1] + aDims[i - 1].cols)
    && aDims[i].rows == (if i == 0 then m else aDims[i - 1].cols)
    && end[i] - start[i] == bDims[i].rows
    && end[i] + bDims[i].cols == (if i == 0 then length else end[i - 1])
    && aDims[i].rows <= start[i] && start[i] + aDims[i].cols <= end[i]
  }

  ghost predicate LayoutOk(aDims: seq<Dim>, bDims: seq<Dim>, start: seq<nat>, end: seq<int>, length: nat, m: nat) {
    && |aDims| == |bDims| == |start| == |end|
    && forall i :: 0 <= i < |aDims| ==> LevelOk(aDims, bDims, start, end, length, m, i)
  }

  /** The tables for the levels after acc elements, in terms of the remaining message length n. */
  ghost predicate OffsetsOk(aDims: seq<Dim>, bDims: seq<Dim>, start: seq<nat>, end: seq<int>, rates: Rates, n: nat,
                            acc: nat, i: nat)
    requires i < |aDims| == |bDims| == |start| == |end|
  {
    && start[i] == (if i == 0 then acc + n else start[i - 1] + aDims[i - 1].cols)
    && aDims[i].rows == (if i == 0 then n else aDims[i - 1].cols)
    && end[i] - start[i] == rates.r(aDims[i].cols) == bDims[i].rows
    && end[i] + bDims[i].cols == (if i == 0 then acc + rates.r(n) else end[i - 1])
    && acc + aDims[i].rows <= start[i]
  }

  lemma {:induction false} Offsets(aDims: seq<Dim>, bDims: seq<Dim>, start: seq<nat>, end: seq<int>, rates: Rates,
                                   n: nat, acc: nat, i: nat)
    requires RoomFor(aDims, rates) && Chained(aDims, n) && i < |aDims|
    requires bDims == BDims(aDims, rates) && start == Starts(aDims, acc) && end == Ends(bDims, acc + rates.r(n))
    ensures OffsetsOk(aDims, bDims, start, end, rates, n, acc, i)
    decreases i
  {
    if i == 0 {
      FirstOffsets(aDims, rates, n, acc);
    } else {
      RestOfTables(aDims, rates, n, acc);
      Offsets(aDims[1..], bDims[1..], start[1..], end[1..], rates, aDims[0].cols, acc + n, i - 1);
      OffsetsShift(aDims, bDims, start, end, rates, n, acc, i);
    }
  }

  lemma FirstOffsets(aDims: seq<Dim>, rates: Rates, n: nat, acc: nat)
    requires RoomFor(aDims, rates) && Chained(aDims, n) && aDims != []
    ensures OffsetsOk(aDims, BDims(aDims, rates), Starts(aDims, acc), Ends(BDims(aDims, rates), acc + rates.r(n)),
                      rates,
                      n, acc, 0)
  {
    assert BDims(aDims, rates)[0] == BDim(aDims[0], rates);
  }

  lemma RestOfTables(aDims: seq<Dim>, rates: Rates, n: nat, acc: nat)
    requires RoomFor(aDims, rates) && Chained(aDims, n) && aDims != []
    ensures var rest, n' := aDims[1..], aDims[0].cols;
            && RoomFor(rest, rates) && Chained(rest, n')
            && BDims(aDims, rates)[1..] == BDims(rest, rates)
            && Starts(aDims, acc)[1..] == Starts(rest, acc + n) && Starts(aDims, acc)[0] == acc + n
            && Ends(BDims(aDims, rates), acc + rates.r(n))[0] == acc + n + rates.r(n')
            && Ends(BDims(aDims, rates), acc + rates.r(n))[1..] == Ends(BDims(rest, rates), acc + n + rates.r(n'))
  {
    var bDims, rest := BDims(aDims, rates), aDims[1..];
    assert RoomFor(rest, rates);
    assert bDims[0] == BDim(aDims[0], rates) && bDims[1..] == BDims(rest, rates);
    assert acc + rates.r(n) - bDims[0].cols == acc + n + rates.r(aDims[0].cols);
  }

  /** One level further in. */
  lemma OffsetsShift(aDims: seq<Dim>, bDims: seq<Dim>, start: seq<nat>, end: seq<int>, rates: Rates, n: nat, acc: nat,
                     i: nat)
    requires 0 < i < |aDims| == |bDims| == |start| == |end|
    requires start[0] == acc + n && aDims[0].rows == n && end[0] == acc + n + rates.r(aDims[0].cols)
    requires OffsetsOk(aDims[1..], bDims[1..], start[1..], end[1..], rates, aDims[0].cols, acc + n, i - 1)
    ensures OffsetsOk(aDims, bDims, start, end, rates, n, acc, i)
  {
  }

  /** For every message length the tables fit together: no offset underflows and every slice
      that encode takes is in range. */
  lemma LayoutIsOk(m: nat, baseLen: nat, rates: Rates)
    requires GoodRates(rates, baseLen)
    ensures var aDims := ADims(m, baseLen, rates);
            && RoomFor(aDims, rates)
            && var bDims := BDims(aDims, rates);
               var length := ExtendedLength(m, aDims, bDims, rates);
               && length == rates.r(m) >= m
               && LayoutOk(aDims, bDims, Starts(aDims, 0), Ends(bDims, length), length, m)
  {
    var aDims := ADims(m, baseLen, rates);
    ADimsRoom(m, baseLen, rates);
    ADimsChained(m, baseLen, rates);
    LengthIsRate(aDims, rates, m);
    assert GoodAt(rates, baseLen, m);
    TablesOk(aDims, rates, m, baseLen);
  }

  lemma TablesOk(aDims: seq<Dim>, rates: Rates, m: nat, baseLen: nat)
    requires GoodRates(rates, baseLen) && RoomFor(aDims, rates) && Chained(aDims, m)
    ensures LayoutOk(aDims, BDims(aDims, rates), Starts(aDims, 0), Ends(BDims(aDims, rates), rates.r(m)), rates.r(m), m)
  {
    var bDims, start := BDims(aDims, rates), Starts(aDims, 0);
    var end := Ends(bDims, rates.r(m));
    forall i | 0 <= i < |aDims| ensures LevelOk(aDims, bDims, start, end, rates.r(m), m, i) {
      assert 0 + rates.r(m) == rates.r(m);
      Offsets(aDims, bDims, start, end, rates, m, 0, i);
      assert GoodAt(rates, baseLen, aDims[i].cols);
    }
  }
}
