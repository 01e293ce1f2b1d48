/** Matrices, linear row encoders and tensored points (linear_codes/mod.rs, utils.rs,
    univariate_ligero/mod.rs, linear_codes/utils.rs). */
module LinearCodes {
  import opened PrimeField
  import opened Numbers
  import opened Vectors
  import opened Polynomials
  import opened SparseMatrices
  import opened MultilinearExtensions

  /** A matrix by its rows. */
  datatype Matrix = Matrix(n: nat, m: nat, entries: seq<seq<Fp>>)

  ghost predicate Shaped(mat: Matrix) {
    |mat.entries| == mat.n && forall i :: 0 <= i < mat.n ==> |mat.entries[i]| == mat.m
  }

  function Column(mat: Matrix, j: nat): (r: seq<Fp>)
    requires Shaped(mat) && j < mat.m
    ensures |r| == mat.n && forall i :: 0 <= i < mat.n ==> r[i] == mat.entries[i][j]
  {
    seq(mat.n, i requires 0 <= i < mat.n => mat.entries[i][j])
  }

  function Columns(mat: Matrix): (r: seq<seq<Fp>>)
    requires Shaped(mat)
    ensures |r| == mat.m && forall j :: 0 <= j < mat.m ==> r[j] == Column(mat, j)
  {
    seq(mat.m, j requires 0 <= j < mat.m => Column(mat, j))
  }

  /** row_mul: v times the matrix. */
  function MatRowMul(mat: Matrix, v: seq<Fp>): (r: seq<Fp>)
    requires Shaped(mat)
    ensures |r| == mat.m && forall j :: 0 <= j < mat.m ==> r[j] == Inner(v, Column(mat, j))
  {
    seq(mat.m, j requires 0 <= j < mat.m => Inner(v, Column(mat, j)))
  }

  // ----- linear encoders

  type Encoder = seq<Fp> -> Outcome<seq<Fp>>

  /** Encodes messages of length m to codewords of length ext, linearly. */
  ghost predicate LinearEncoder(encode: Encoder, m: nat, ext: nat) {
    && (forall u :: |u| == m ==> EncodesTo(encode, u, ext))
    && (forall u, c, w :: |u| == |w| == m ==> EncodesMix(encode, u, c, w))
  }

  ghost predicate EncodesTo(encode: Encoder, u: seq<Fp>, ext: nat) {
    encode(u).Ok? && |encode(u).value| == ext
  }

  ghost predicate EncodesMix(encode: Encoder, u: seq<Fp>, c: Fp, w: seq<Fp>)
    requires |u| == |w|
  {
    encode(u).Ok? && encode(w).Ok? && |encode(u).value| == |encode(w).value|
    ==> encode(Mix(u, c, w)) == Ok(Mix(encode(u).value, c, encode(w).value))
  }

  /** The matrix with every row encoded. */
  ghost predicate Encoded(encode: Encoder, mat: Matrix, ext: Matrix) {
    && Shaped(mat) && Shaped(ext) && ext.n == mat.n
    && forall i :: 0 <= i < mat.n ==> encode(mat.entries[i]) == Ok(ext.entries[i])
  }

  /** The combination of the rows from i on. */
  function Combined(v: seq<Fp>, rows: seq<seq<Fp>>, m: nat): (r: seq<Fp>)
    requires |v| == |rows| && forall i :: 0 <= i < |rows| ==> |rows[i]| == m
    ensures |r| == m
  {
    if rows == [] then Zeros(m)
    else
      assert forall i :: 0 <= i < |rows[1..]| ==> rows[1..][i] == rows[i + 1];
      Mix(Combined(v[1..], rows[1..], m), v[0], rows[0])
  }

  lemma {:induction false} CombinedAt(v: seq<Fp>, rows: seq<seq<Fp>>, m: nat, j: nat, col: seq<Fp>)
    requires |v| == |rows| == |col| && j < m
    requires forall i :: 0 <= i < |rows| ==> |rows[i]| == m && col[i] == rows[i][j]
    ensures Combined(v, rows, m)[j] == Inner(v, col)
  {
    if rows != [] {
      assert forall i :: 0 <= i < |rows[1..]| ==> rows[1..][i] == rows[i + 1];
      CombinedAt(v[1..], rows[1..], m, j, col[1..]);
      Commutes(Inner(v[1..], col[1..]), Mul(v[0], col[0]));
    }
  }

  lemma RowMulIsCombined(mat: Matrix, v: seq<Fp>)
    requires Shaped(mat) && |v| == mat.n
    ensures MatRowMul(mat, v) == Combined(v, mat.entries, mat.m)
  {
    forall j | 0 <= j < mat.m ensures MatRowMul(mat, v)[j] == Combined(v, mat.entries, mat.m)[j] {
      CombinedAt(v, mat.entries, mat.m, j, Column(mat, j));
    }
  }

  lemma EncodeZeros(encode: Encoder, m: nat, ext: nat)
    requires LinearEncoder(encode, m, ext)
    ensures encode(Zeros(m)) == Ok(Zeros(ext))
  {
    var z := Zeros(m);
    assert EncodesTo(encode, z, ext) && EncodesMix(encode, z, 1, z);
    assert Mix(z, 1, z) == z by {
      Units(1);
      Units(0);
    }
    var e := encode(z).value;
    forall k | 0 <= k < ext ensures e[k] == 0 {
      assert e[k] == Mix(e, 1, e)[k] == Add(e[k], Mul(1, e[k]));
      Units(e[k]);
      SubIff(e[k], e[k], e[k]);
      SubZero(e[k], e[k]);
    }
    assert e == Zeros(ext);
  }

  /** Encoding a combination of rows is the combination of the encoded rows. */
  lemma {:induction false} EncodeCombined(encode: Encoder, v: seq<Fp>, rows: seq<seq<Fp>>, coded: seq<seq<Fp>>, m: nat,
                                          ext: nat)
    requires LinearEncoder(encode, m, ext) && |v| == |rows| == |coded|
    requires forall i :: 0 <= i < |rows| ==> |rows[i]| == m && encode(rows[i]) == Ok(coded[i])
    ensures forall i :: 0 <= i < |rows| ==> |coded[i]| == ext
    ensures encode(Combined(v, rows, m)) == Ok(Combined(v, coded, ext))
  {
    forall i | 0 <= i < |rows| ensures |coded[i]| == ext { assert EncodesTo(encode, rows[i], ext); }
    if rows == [] {
      EncodeZeros(encode, m, ext);
    } else {
      EncodeCombined(encode, v[1..], rows[1..], coded[1..], m, ext);
      assert EncodesMix(encode, Combined(v[1..], rows[1..], m), v[0], rows[0]);
    }
  }

  /** v times column j of the encoded matrix is entry j of the encoding of v times the matrix. */
  lemma EncodedColumn(encode: Encoder, mat: Matrix, ext: Matrix, v: seq<Fp>, j: nat)
    requires LinearEncoder(encode, mat.m, ext.m) && Encoded(encode, mat, ext) && |v| == mat.n && j < ext.m
    ensures encode(MatRowMul(mat, v)).Ok? && |encode(MatRowMul(mat, v)).value| == ext.m
    ensures Inner(v, Column(ext, j)) == encode(MatRowMul(mat, v)).value[j]
  {
    RowMulIsCombined(mat, v);
    EncodeCombined(encode, v, mat.entries, ext.entries, mat.m, ext.m);
    CombinedAt(v, ext.entries, ext.m, j, Column(ext, j));
  }

  // ----- the matrix of a polynomial

  /** resize with zeros. */
  function Resize(v: seq<Fp>, k: nat): (r: seq<Fp>)
    ensures |r| == k
  {
    if |v| >= k then v[..k] else v + Zeros(k - |v|)
  }

  /** new_from_flat: row by row. */
  function FromFlat(n: nat, m: nat, flat: seq<Fp>): Matrix
    requires |flat| == n * m
  {
    Matrix(n, m, seq(n, i requires 0 <= i < n => Row(flat, n, m, i)))
  }

  function Row(flat: seq<Fp>, n: nat, m: nat, i: nat): (r: seq<Fp>)
    requires |flat| == n * m && i < n
    ensures |r| == m && i * m + m <= |flat| && r == flat[i * m..i * m + m]
  {
    RowFits(n, m, i);
    flat[i * m..i * m + m]
  }

  lemma RowFits(n: nat, m: nat, i: nat)
    requires i < n
    ensures 0 <= i * m && i * m + m <= n * m
  {
    ScaledMonotone(i + 1, n, m);
    assert (i + 1) * m == i * m + m;
  }

  /** The product b^T M a, row by row. */
  function Bilinear(b: seq<Fp>, rows: seq<seq<Fp>>, a: seq<Fp>): Fp
    requires |b| == |rows|
  {
    if rows == [] then 0 else Add(Mul(b[0], Inner(rows[0], a)), Bilinear(b[1..], rows[1..], a))
  }

  lemma InnerMix(u: seq<Fp>, c: Fp, w: seq<Fp>, a: seq<Fp>)
    requires |u| == |w|
    ensures Inner(Mix(u, c, w), a) == Add(Inner(u, a), Mul(c, Inner(w, a)))
    decreases |u|
  {
    if u == [] || a == [] {
      Units(c);
      Units(0);
    } else {
      assert Mix(u, c, w)[1..] == Mix(u[1..], c, w[1..]);
      InnerMix(u[1..], c, w[1..], a[1..]);
      MixStep(u[0], w[0], c, a[0], Inner(u[1..], a[1..]), Inner(w[1..], a[1..]));
    }
  }

  lemma {:induction false} CombinedInner(v: seq<Fp>, rows: seq<seq<Fp>>, m: nat, a: seq<Fp>)
    requires |v| == |rows| && forall i :: 0 <= i < |rows| ==> |rows[i]| == m
    ensures Inner(Combined(v, rows, m), a) == Bilinear(v, rows, a)
  {
    if rows == [] {
      InnerZeros(m, a);
    } else {
      assert forall i :: 0 <= i < |rows[1..]| ==> rows[1..][i] == rows[i + 1];
      CombinedInner(v[1..], rows[1..], m, a);
      InnerMix(Combined(v[1..], rows[1..], m), v[0], rows[0], a);
      Commutes(Bilinear(v[1..], rows[1..], a), Mul(v[0], Inner(rows[0], a)));
    }
  }

  // ----- the tensor of a univariate point

  /** tensor of univariate_ligero: (1, z, ..., z^(left-1)) and (1, z^left, z^(2 left), ...). */
  method UnivariateTensor(z: Fp, left: nat, right: nat) returns (leftOut: seq<Fp>, rightOut: seq<Fp>)
    ensures leftOut == PowersFrom(1, z, left) && rightOut == PowersFrom(1, Pow(z, left), right)
  {
    leftOut := [];
    var powA: Fp := 1;
    for k := 0 to left
      invariant powA == Pow(z, k) && leftOut + PowersFrom(powA, z, left - k) == PowersFrom(1, z, left)
    {
      AppendAssociates(leftOut, [powA], PowersFrom(Mul(powA, z), z, left - k - 1));
      leftOut := leftOut + [powA];
      Commutes(powA, z);
      powA := Mul(powA, z);
    }
    rightOut := [];
    var powB: Fp := 1;
    for k := 0 to right
      invariant rightOut + PowersFrom(powB, powA, right - k) == PowersFrom(1, powA, right)
    {
      AppendAssociates(rightOut, [powB], PowersFrom(Mul(powB, powA), powA, right - k - 1));
      rightOut := rightOut + [powB];
      powB := Mul(powB, powA);
    }
  }

  lemma RowFirst(flat: seq<Fp>, n: nat, m: nat, i: nat)
    requires |flat| == n * m && i < n
    ensures 0 <= i * m <= (i + 1) * m <= |flat|
    ensures flat[i * m..] == Row(flat, n, m, i) + flat[(i + 1) * m..]
  {
    ScaledMonotone(i, n, m);
    ScaledMonotone(i + 1, n, m);
    assert (i + 1) * m == i * m + m;
  }

  /** b^T M a for a matrix given flat, from row i on. */
  lemma {:induction false} UnivariateRows(flat: seq<Fp>, n: nat, m: nat, z: Fp, i: nat, s: Fp)
    requires |flat| == n * m && i <= n
    ensures 0 <= i * m <= |flat|
    ensures Bilinear(PowersFrom(s, Pow(z, m), n - i), FromFlat(n, m, flat).entries[i..], PowersFrom(1, z, m))
            == Mul(s, Eval(flat[i * m..], z))
    decreases n - i
  {
    ScaledMonotone(i, n, m);
    if i == n {
      assert flat[i * m..] == [];
      Units(s);
    } else {
      var row, y := Row(flat, n, m, i), Pow(z, m);
      UnivariateRows(flat, n, m, z, i + 1, Mul(s, y));
      RowFirst(flat, n, m, i);
      EvalConcat(row, flat[(i + 1) * m..], z);
      var rows := FromFlat(n, m, flat).entries;
      assert rows[i..][0] == row && rows[i..][1..] == rows[i + 1..];
      InnerPowers(1, z, m, row);
      InnerCommutes(row, PowersFrom(1, z, m));
      Units(Eval(row, z));
      PullOut(s, Eval(row, z), y, Eval(flat[(i + 1) * m..], z));
    }
  }

  /** <b M, a> == b^T M a. */
  lemma RowMulInner(mat: Matrix, b: seq<Fp>, a: seq<Fp>)
    requires Shaped(mat) && |b| == mat.n
    ensures Inner(MatRowMul(mat, b), a) == Bilinear(b, mat.entries, a)
  {
    RowMulIsCombined(mat, b);
    CombinedInner(b, mat.entries, mat.m, a);
  }

  /** For a univariate polynomial the tensored point gives the value, padding and all. */
  lemma UnivariateValue(coeffs: seq<Fp>, flat: seq<Fp>, n: nat, m: nat, z: Fp)
    requires |flat| == n * m && |coeffs| <= |flat| && flat == Resize(coeffs, |flat|)
    ensures Inner(MatRowMul(FromFlat(n, m, flat), PowersFrom(1, Pow(z, m), n)), PowersFrom(1, z, m)) == Eval(coeffs, z)
  {
    RowMulInner(FromFlat(n, m, flat), PowersFrom(1, Pow(z, m), n), PowersFrom(1, z, m));
    UnivariateBilinear(flat, n, m, z);
    ResizedEval(coeffs, |flat|, z);
  }

  lemma ResizedEval(coeffs: seq<Fp>, k: nat, z: Fp)
    requires |coeffs| <= k
    ensures Eval(Resize(coeffs, k), z) == Eval(coeffs, z)
  {
    assert Resize(coeffs, k) == coeffs + Zeros(k - |coeffs|);
    PaddedEval(coeffs, k - |coeffs|, z);
  }

  lemma UnivariateBilinear(flat: seq<Fp>, n: nat, m: nat, z: Fp)
    requires |flat| == n * m
    ensures Bilinear(PowersFrom(1, Pow(z, m), n), FromFlat(n, m, flat).entries, PowersFrom(1, z, m)) == Eval(flat, z)
  {
    UnivariateRows(flat, n, m, z, 0, 1);
    var rows := FromFlat(n, m, flat).entries;
    assert 0 * m == 0 && flat[0..] == flat && rows[0..] == rows;
    Units(Eval(flat, z));
  }

  lemma PaddedEval(coeffs: seq<Fp>, k: nat, z: Fp)
    ensures Eval(coeffs + Zeros(k), z) == Eval(coeffs, z)
  {
    EvalConcat(coeffs, Zeros(k), z);
    forall j: nat ensures Coef(Zeros(k), j) == Coef([], j) {
    }
    EvalZero(Zeros(k), z);
    Units(Pow(z, |coeffs|));
    Units(Eval(coeffs, z));
  }

  // ----- the tensor of a multilinear point

  /** tensor_vec: doubles the layer for every value. */
  method TensorVec(values: seq<Fp>) returns (layer: seq<Fp>)
    ensures layer == EqTable(values)
  {
    var anti := seq(|values|, i requires 0 <= i < |values| => Sub(1, values[i]));
    layer := [1];
    EqTableEmpty();
    assert values[..0] == [];
    for i := 0 to |values|
      invariant layer == EqTable(values[..i])
    {
      var newLayer: seq<Fp> := [];
      for k := 0 to |layer|
        invariant |newLayer| == k && forall j :: 0 <= j < k ==> newLayer[j] == Mul(layer[j], anti[i])
      {
        newLayer := newLayer + [Mul(layer[k], anti[i])];
      }
      for k := 0 to |layer|
        invariant |newLayer| == |layer| + k
        invariant forall j :: 0 <= j < |layer| ==> newLayer[j] == Mul(layer[j], anti[i])
        invariant forall j :: 0 <= j < k ==> newLayer[|layer| + j] == Mul(layer[j], values[i])
      {
        newLayer := newLayer + [Mul(layer[k], values[i])];
      }
      EqTablePush(values[..i], values[i], newLayer);
      assert values[..i + 1] == values[..i] + [values[i]];
      layer := newLayer;
    }
    assert values[..|values|] == values;
  }

  lemma EqTableEmpty()
    ensures EqTable([]) == [1]
  {
  }

  /** One more variable, as the highest bit. */
  lemma {:induction false} EqTablePush(t: seq<Fp>, v: Fp, layer: seq<Fp>)
    requires |layer| == 2 * Pow2(|t|)
    requires forall j :: 0 <= j < Pow2(|t|) ==> layer[j] == Mul(EqTable(t)[j], Sub(1, v))
    requires forall j :: 0 <= j < Pow2(|t|) ==> layer[Pow2(|t|) + j] == Mul(EqTable(t)[j], v)
    ensures layer == EqTable(t + [v])
  {
    var p := Pow2(|t|);
    forall x | 0 <= x < |layer| ensures layer[x] == EqAt(t + [v], x) {
      if x < p {
        EqAtPush(t, v, x, false);
        assert layer[x] == Mul(EqTable(t)[x], Sub(1, v));
      } else {
        EqAtPush(t, v, x - p, true);
        assert layer[p + (x - p)] == Mul(EqTable(t)[x - p], v);
      }
    }
  }

  lemma {:induction false} EqAtPush(t: seq<Fp>, v: Fp, x: nat, high: bool)
    requires x < Pow2(|t|)
    ensures EqAt(t + [v], if high then Pow2(|t|) + x else x) == Mul(EqAt(t, x), EqBit(v, high))
    decreases |t|
  {
    var y := if high then Pow2(|t|) + x else x;
    if t == [] {
      assert (t + [v])[1..] == [];
      Units(EqBit(v, high));
    } else {
      assert (t + [v])[1..] == t[1..] + [v] && (t + [v])[0] == t[0];
      var p := Pow2(|t| - 1);
      assert y / 2 == (if high then p + x / 2 else x / 2) && y % 2 == x % 2;
      EqAtPush(t[1..], v, x / 2, high);
      MulAssociates(EqBit(t[0], x % 2 == 1), EqAt(t[1..], x / 2), EqBit(v, high));
    }
  }

  /** The values of the rows in the low variables. */
  function RowValues(f: seq<Fp>, n: nat, left: seq<Fp>): (r: seq<Fp>)
    requires |f| == n * Pow2(|left|)
    ensures |r| == n && forall i :: 0 <= i < n ==> r[i] == Value(Row(f, n, Pow2(|left|), i), left)
  {
    seq(n, i requires 0 <= i < n => Value(Row(f, n, Pow2(|left|), i), left))
  }

  lemma FixSlice(f: seq<Fp>, z: Fp, p: nat, h: nat)
    requires 2 * p + 2 * h <= |f|
    ensures FixFirst(f, z)[p..p + h] == FixFirst(f[2 * p..2 * p + 2 * h], z)
  {
  }

  lemma TwiceProduct(n: nat, h: nat)
    ensures n * (2 * h) == 2 * (n * h)
  {
  }

  lemma FixRow(f: seq<Fp>, n: nat, h: nat, z: Fp, i: nat)
    requires |f| == n * (2 * h) && i < n
    ensures |FixFirst(f, z)| == n * h
    ensures Row(FixFirst(f, z), n, h, i) == FixFirst(Row(f, n, 2 * h, i), z)
  {
    TwiceProduct(n, h);
    TwiceProduct(i, h);
    RowFits(n, h, i);
    FixSlice(f, z, i * h, h);
  }

  lemma FixRowValue(f: seq<Fp>, n: nat, left: seq<Fp>, p: nat, h: nat, i: nat)
    requires left != [] && p == Pow2(|left|) && h == Pow2(|left| - 1) && |f| == n * p && i < n
    ensures |FixFirst(f, left[0])| == n * h
    ensures Value(Row(f, n, p, i), left) == Value(Row(FixFirst(f, left[0]), n, h, i), left[1..])
  {
    FixRow(f, n, h, left[0], i);
  }

  lemma FixedLength(f: seq<Fp>, n: nat, left: seq<Fp>)
    requires left != [] && |f| == n * Pow2(|left|)
    ensures |FixFirst(f, left[0])| == n * Pow2(|left| - 1)
  {
    TwiceProduct(n, Pow2(|left| - 1));
  }

  lemma FixRows(f: seq<Fp>, n: nat, left: seq<Fp>)
    requires left != [] && |f| == n * Pow2(|left|)
    ensures |FixFirst(f, left[0])| == n * Pow2(|left| - 1)
    ensures RowValues(f, n, left) == RowValues(FixFirst(f, left[0]), n, left[1..])
  {
    FixedLength(f, n, left);
    forall i | 0 <= i < n ensures RowValues(f, n, left)[i] == RowValues(FixFirst(f, left[0]), n, left[1..])[i] {
      FixRowValue(f, n, left, Pow2(|left|), Pow2(|left| - 1), i);
    }
  }

  /** Fixing the low variables row by row and the high ones afterwards. */
  lemma {:induction false} ValueOfRows(f: seq<Fp>, n: nat, left: seq<Fp>, right: seq<Fp>)
    requires n == Pow2(|right|) && |f| == n * Pow2(|left|) == Pow2(|left + right|)
    ensures Value(f, left + right) == Value(RowValues(f, n, left), right)
    decreases |left|
  {
    if left == [] {
      assert left + right == right;
      RowsOfOne(f, n);
    } else {
      assert (left + right)[1..] == left[1..] + right;
      FixRows(f, n, left);
      assert |left[1..]| == |left| - 1 && |left[1..] + right| == |left + right| - 1;
      assert |FixFirst(f, left[0])| == Pow2(|left[1..] + right|);
      ValueOfRows(FixFirst(f, left[0]), n, left[1..], right);
    }
  }

  lemma RowsOfOne(f: seq<Fp>, n: nat)
    requires |f| == n
    ensures RowValues(f, n, []) == f
  {
    forall i | 0 <= i < n ensures RowValues(f, n, [])[i] == f[i] {
      assert Row(f, n, 1, i)[0] == f[i * 1];
    }
  }

  lemma {:induction false} BilinearIsInner(b: seq<Fp>, rows: seq<seq<Fp>>, a: seq<Fp>, values: seq<Fp>)
    requires |b| == |rows| == |values| && forall i :: 0 <= i < |rows| ==> values[i] == Inner(rows[i], a)
    ensures Bilinear(b, rows, a) == Inner(b, values)
  {
    if rows != [] { BilinearIsInner(b[1..], rows[1..], a, values[1..]); }
  }

  /** For a multilinear polynomial the tensored point gives the value. */
  lemma MultilinearValue(f: seq<Fp>, left: seq<Fp>, right: seq<Fp>)
    requires |f| == Pow2(|left + right|) && |f| == Pow2(|right|) * Pow2(|left|)
    ensures Inner(MatRowMul(FromFlat(Pow2(|right|), Pow2(|left|), f), EqTable(right)), EqTable(left))
            == Value(f, left + right)
  {
    var n, m := Pow2(|right|), Pow2(|left|);
    var mat, values := FromFlat(n, m, f), RowValues(f, n, left);
    RowMulInner(mat, EqTable(right), EqTable(left));
    forall i | 0 <= i < n ensures values[i] == Inner(mat.entries[i], EqTable(left)) {
      TableEvaluates(left, Row(f, n, m, i));
      InnerCommutes(EqTable(left), Row(f, n, m, i));
    }
    BilinearIsInner(EqTable(right), mat.entries, EqTable(left), values);
    TableEvaluates(right, values);
    ValueOfRows(f, n, left, right);
  }
}
