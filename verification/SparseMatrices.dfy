/** Sparse matrices in compressed column form (linear_codes/utils.rs). */
module SparseMatrices {
  import opened PrimeField
  import opened Vectors

  /** The entries of one column: row and value. */
  type Column = seq<(nat, Fp)>

  datatype SprsMat = SprsMat(n: nat, m: nat, d: nat, indPtr: seq<nat>, colInd: seq<nat>, val: seq<Fp>)

  // ----- columns, flattened

  function RowsOf(col: Column): (r: seq<nat>)
    ensures |r| == |col| && forall i :: 0 <= i < |r| ==> r[i] == col[i].0
  {
    seq(|col|, i requires 0 <= i < |col| => col[i].0)
  }

  function ValuesOf(col: Column): (r: seq<Fp>)
    ensures |r| == |col| && forall i :: 0 <= i < |r| ==> r[i] == col[i].1
  {
    seq(|col|, i requires 0 <= i < |col| => col[i].1)
  }

  function FlatRows(cols: seq<Column>): (r: seq<nat>)
    ensures |r| == Total(cols)
  {
    if cols == [] then [] else FlatRows(cols[..|cols| - 1]) + RowsOf(cols[|cols| - 1])
  }

  function FlatValues(cols: seq<Column>): (r: seq<Fp>)
    ensures |r| == Total(cols)
  {
    if cols == [] then [] else FlatValues(cols[..|cols| - 1]) + ValuesOf(cols[|cols| - 1])
  }

  function Total(cols: seq<Column>): nat {
    if cols == [] then 0 else Total(cols[..|cols| - 1]) + |cols[|cols| - 1]|
  }

  /** The matrix holds these columns. */
  ghost predicate Holds(mat: SprsMat, cols: seq<Column>) {
    && mat.m == |cols| && |mat.indPtr| == mat.m + 1
    && (forall j :: 0 <= j <= mat.m ==> mat.indPtr[j] == Total(cols[..j]))
    && mat.colInd == FlatRows(cols) && mat.val == FlatValues(cols)
  }

  /** The entries of the first k columns come first. */
  lemma {:induction false} FlatPrefix(cols: seq<Column>, k: nat)
    requires k <= |cols|
    ensures FlatRows(cols[..k]) <= FlatRows(cols) && FlatValues(cols[..k]) <= FlatValues(cols)
    decreases |cols|
  {
    if k == |cols| {
      assert cols[..k] == cols;
    } else {
      var n := |cols| - 1;
      FlatPrefix(cols[..n], k);
      assert cols[..n][..k] == cols[..k];
    }
  }

  lemma {:induction false} FlatPush(cols: seq<Column>, j: nat)
    requires j < |cols|
    ensures FlatRows(cols[..j + 1]) == FlatRows(cols[..j]) + RowsOf(cols[j])
    ensures FlatValues(cols[..j + 1]) == FlatValues(cols[..j]) + ValuesOf(cols[j])
  {
    assert cols[..j + 1][..j] == cols[..j];
  }

  lemma SliceOf<T>(a: seq<T>, b: seq<T>, all: seq<T>)
    requires a + b <= all
    ensures all[|a|..|a| + |b|] == b
  {
  }

  lemma {:induction false} FlatSlice(cols: seq<Column>, j: nat)
    requires j < |cols|
    ensures Total(cols[..j]) <= Total(cols[..j + 1]) <= Total(cols)
    ensures FlatRows(cols)[Total(cols[..j])..Total(cols[..j + 1])] == RowsOf(cols[j])
    ensures FlatValues(cols)[Total(cols[..j])..Total(cols[..j + 1])] == ValuesOf(cols[j])
  {
    FlatPrefix(cols, j + 1);
    FlatPush(cols, j);
    SliceOf(FlatRows(cols[..j]), RowsOf(cols[j]), FlatRows(cols));
    SliceOf(FlatValues(cols[..j]), ValuesOf(cols[j]), FlatValues(cols));
  }

  // ----- the product with a row vector

  function Dot(v: seq<Fp>, idx: seq<nat>, val: seq<Fp>): Fp
    requires forall i :: 0 <= i < |idx| ==> idx[i] < |v|
    decreases |idx|
  {
    if idx == [] || val == [] then 0
    else
      assert forall i :: 0 <= i < |idx[1..]| ==> idx[1..][i] == idx[i + 1];
      Add(Mul(v[idx[0]], val[0]), Dot(v, idx[1..], val[1..]))
  }

  ghost predicate RowsBelow(cols: seq<Column>, n: nat) {
    forall j :: 0 <= j < |cols| ==> ColumnBelow(cols[j], n)
  }

  ghost predicate ColumnBelow(col: Column, n: nat) {
    forall i :: 0 <= i < |col| ==> col[i].0 < n
  }

  /** Column j can be multiplied by a row vector of n elements without indexing out of range. */
  predicate ColumnOk(mat: SprsMat, n: nat, j: nat)
    requires |mat.indPtr| == mat.m + 1 && j < mat.m
  {
    && mat.indPtr[j] <= mat.indPtr[j + 1] <= |mat.colInd| && mat.indPtr[j + 1] <= |mat.val|
    && forall k :: mat.indPtr[j] <= k < mat.indPtr[j + 1] ==> mat.colInd[k] < n
  }

  /** The matrix multiplies row vectors of n elements. */
  predicate Multiplies(mat: SprsMat, n: nat) {
    |mat.indPtr| == mat.m + 1 && forall j :: 0 <= j < mat.m ==> ColumnOk(mat, n, j)
  }

  function ColumnProduct(mat: SprsMat, v: seq<Fp>, j: nat): Fp
    requires |mat.indPtr| == mat.m + 1 && j < mat.m && ColumnOk(mat, |v|, j)
  {
    Dot(v, mat.colInd[mat.indPtr[j]..mat.indPtr[j + 1]], mat.val[mat.indPtr[j]..mat.indPtr[j + 1]])
  }

  /** row_mul: None where the source would index out of range. */
  function RowMul(mat: SprsMat, v: seq<Fp>): (r: Option<seq<Fp>>)
    ensures r.Some? <==> Multiplies(mat, |v|)
    ensures r.Some? ==> |r.value| == mat.m && forall j :: 0 <= j < mat.m ==> r.value[j] == ColumnProduct(mat, v, j)
  {
    if Multiplies(mat, |v|) then Some(seq(mat.m, j requires 0 <= j < mat.m => ColumnProduct(mat, v, j))) else None
  }

  /** One column written out with its zeros; repeated rows add up. */
  function Dense(col: Column, n: nat): (r: seq<Fp>)
    requires ColumnBelow(col, n)
    ensures |r| == n
  {
    if col == [] then Zeros(n) else
      var (i, x) := col[0];
      assert forall k :: 0 <= k < |col[1..]| ==> col[1..][k] == col[k + 1];
      var rest := Dense(col[1..], n);
      rest[i := Add(rest[i], x)]
  }

  lemma {:induction false} DotIsDense(v: seq<Fp>, col: Column)
    requires ColumnBelow(col, |v|)
    ensures Dot(v, RowsOf(col), ValuesOf(col)) == Inner(v, Dense(col, |v|))
  {
    if col == [] {
      InnerZeros(|v|, v);
    } else {
      assert forall k :: 0 <= k < |col[1..]| ==> col[1..][k] == col[k + 1];
      DotIsDense(v, col[1..]);
      assert RowsOf(col)[1..] == RowsOf(col[1..]) && ValuesOf(col)[1..] == ValuesOf(col[1..]);
      InnerUpdate(v, Dense(col[1..], |v|), col[0].0, col[0].1);
      Commutes(Inner(v, Dense(col[1..], |v|)), Mul(v[col[0].0], col[0].1));
    }
  }

  /** row_mul is the dense vector-matrix product. */
  lemma RowMulIsDense(mat: SprsMat, cols: seq<Column>, v: seq<Fp>)
    requires Holds(mat, cols) && RowsBelow(cols, |v|)
    ensures RowMul(mat, v).Some? && |RowMul(mat, v).value| == |cols|
    ensures forall j :: 0 <= j < |cols| ==> RowMul(mat, v).value[j] == Inner(v, Dense(cols[j], |v|))
  {
    forall j | 0 <= j < |cols| ensures ColumnOk(mat, |v|, j) {
      ColumnIsOk(mat, cols, |v|, j);
    }
    forall j | 0 <= j < |cols| ensures RowMul(mat, v).value[j] == Inner(v, Dense(cols[j], |v|)) {
      assert cols[..j + 1][..j] == cols[..j];
      FlatSlice(cols, j);
      DotIsDense(v, cols[j]);
    }
  }

  lemma ColumnIsOk(mat: SprsMat, cols: seq<Column>, n: nat, j: nat)
    requires Holds(mat, cols) && RowsBelow(cols, n) && j < |cols|
    ensures ColumnOk(mat, n, j)
  {
    FlatSlice(cols, j);
    var lo, hi := mat.indPtr[j], mat.indPtr[j + 1];
    forall k | lo <= k < hi ensures mat.colInd[k] < n {
      assert mat.colInd[lo..hi][k - lo] == cols[j][k - lo].0;
      assert ColumnBelow(cols[j], n);
    }
  }

  lemma HoldsMultiplies(mat: SprsMat, cols: seq<Column>, n: nat)
    requires Holds(mat, cols) && RowsBelow(cols, n)
    ensures Multiplies(mat, n)
  {
    forall j | 0 <= j < mat.m ensures ColumnOk(mat, n, j) { ColumnIsOk(mat, cols, n, j); }
  }

  // ----- linearity

  /** u + c * w for vectors of equal length. */
  function Mix(u: seq<Fp>, c: Fp, w: seq<Fp>): (r: seq<Fp>)
    requires |u| == |w|
    ensures |r| == |u| && forall k :: 0 <= k < |r| ==> r[k] == Add(u[k], Mul(c, w[k]))
  {
    seq(|u|, k requires 0 <= k < |u| => Add(u[k], Mul(c, w[k])))
  }

  lemma {:induction false} DotMix(u: seq<Fp>, c: Fp, w: seq<Fp>, idx: seq<nat>, val: seq<Fp>)
    requires |u| == |w| && forall i :: 0 <= i < |idx| ==> idx[i] < |u|
    ensures Dot(Mix(u, c, w), idx, val) == Add(Dot(u, idx, val), Mul(c, Dot(w, idx, val)))
    decreases |idx|
  {
    if idx == [] || val == [] {
      Units(c);
      Units(0);
    } else {
      assert forall i :: 0 <= i < |idx[1..]| ==> idx[1..][i] == idx[i + 1];
      DotMix(u, c, w, idx[1..], val[1..]);
      MixStep(u[idx[0]], w[idx[0]], c, val[0], Dot(u, idx[1..], val[1..]), Dot(w, idx[1..], val[1..]));
    }
  }

  lemma MixStep(a: Fp, b: Fp, c: Fp, x: Fp, p: Fp, q: Fp)
    ensures Add(Mul(Add(a, Mul(c, b)), x), Add(p, Mul(c, q))) == Add(Add(Mul(a, x), p), Mul(c, Add(Mul(b, x), q)))
  {
    assert Mul(Add(a, Mul(c, b)), x) == Add(Mul(a, x), Mul(c, Mul(b, x))) by { RingLaws(); }
    Distributes(c, Mul(b, x), q);
    FourSum(Mul(a, x), Mul(c, Mul(b, x)), p, Mul(c, q));
  }

  /** row_mul is linear. */
  lemma RowMulMix(mat: SprsMat, u: seq<Fp>, c: Fp, w: seq<Fp>)
    requires |u| == |w| && Multiplies(mat, |u|)
    ensures RowMul(mat, Mix(u, c, w)).value == Mix(RowMul(mat, u).value, c, RowMul(mat, w).value)
  {
    assert Multiplies(mat, |w|);
    forall j | 0 <= j < mat.m
      ensures ColumnOk(mat, |u|, j)
      ensures ColumnProduct(mat, Mix(u, c, w), j) == Add(ColumnProduct(mat, u, j), Mul(c, ColumnProduct(mat, w, j)))
    {
      assert ColumnOk(mat, |u|, j);
      DotMix(u, c, w, mat.colInd[mat.indPtr[j]..mat.indPtr[j + 1]], mat.val[mat.indPtr[j]..mat.indPtr[j + 1]]);
    }
  }

  // ----- the constructors

  /** The first j + 1 pointers count the entries of the columns before them. */
  ghost predicate Pointers(indPtr: seq<nat>, list: seq<Column>, j: nat) {
    j < |indPtr| && j <= |list| && forall k :: 0 <= k <= j ==> indPtr[k] == Total(list[..k])
  }

  lemma NextPointer(indPtr: seq<nat>, list: seq<Column>, j: nat)
    requires Pointers(indPtr, list, j) && j < |list| && j + 1 < |indPtr|
    ensures Pointers(indPtr[j + 1 := |list[j]| + indPtr[j]], list, j + 1)
  {
    assert list[..j + 1][..j] == list[..j];
  }

  /** The inner loop: the entries of one column are appended and counted. */
  method PushColumn(column: Column, rows: seq<nat>, values: seq<Fp>)
    returns (colInd: seq<nat>, val: seq<Fp>, count: nat)
    ensures colInd == rows + RowsOf(column) && val == values + ValuesOf(column) && count == |column|
  {
    colInd, val, count := rows, values, 0;
    for i := 0 to |column|
      invariant count == i && colInd == rows + RowsOf(column)[..i] && val == values + ValuesOf(column)[..i]
    {
      count := count + 1;
      colInd := colInd + [column[i].0];
      val := val + [column[i].1];
    }
    assert RowsOf(column)[..|column|] == RowsOf(column) && ValuesOf(column)[..|column|] == ValuesOf(column);
  }

  /** new_from_columns; None where an assertion of the source fails. */
  method NewFromColumns(n: nat, m: nat, d: nat, list: seq<Column>) returns (r: Option<SprsMat>)
    ensures r.None? <==> |list| != m || (exists j :: 0 <= j < m && |list[j]| > n) || Total(list) > d * n
    ensures r.Some? ==> Holds(r.value, list) && r.value.n == n && r.value.d == d
  {
    if |list| != m {
      return None;
    }
    var indPtr: seq<nat> := seq(m + 1, j => 0);
    var colInd: seq<nat>, val: seq<Fp> := [], [];
    for j := 0 to m
      invariant |indPtr| == m + 1 && Pointers(indPtr, list, j)
      invariant colInd == FlatRows(list[..j]) && val == FlatValues(list[..j])
      invariant forall k :: 0 <= k < j ==> |list[k]| <= n
    {
      var count;
      colInd, val, count := PushColumn(list[j], colInd, val);
      if |list[j]| > n {
        return None;
      }
      NextPointer(indPtr, list, j);
      indPtr := indPtr[j + 1 := count + indPtr[j]];
      assert list[..j + 1][..j] == list[..j];
    }
    assert list[..m] == list;
    if indPtr[m] > d * n {
      return None;
    }
    return Some(SprsMat(n, m, d, indPtr, colInd, val));
  }

  /** The nonzero entries of a dense column, rows counted from i. */
  function NonZeros(s: seq<Fp>, i: nat): Column {
    if s == [] then []
    else if s[0] == 0 then NonZeros(s[1..], i + 1)
    else [(i, s[0])] + NonZeros(s[1..], i + 1)
  }

  lemma {:induction false} NonZerosPush(s: seq<Fp>, x: Fp, i: nat)
    ensures NonZeros(s + [x], i) == NonZeros(s, i) + if x == 0 then [] else [(i + |s|, x)]
  {
    if s == [] {
      assert s + [x] == [x] && [x][1..] == [];
    } else {
      assert (s + [x])[1..] == s[1..] + [x];
      NonZerosPush(s[1..], x, i + 1);
    }
  }

  lemma {:induction false} NonZerosBelow(s: seq<Fp>, i: nat)
    ensures forall k :: 0 <= k < |NonZeros(s, i)| ==> i <= NonZeros(s, i)[k].0 < i + |s|
  {
    if s != [] { NonZerosBelow(s[1..], i + 1); }
  }

  /** Writing the nonzero entries out again gives the column back. */
  lemma {:induction false} DenseNonZeros(s: seq<Fp>, i: nat, n: nat)
    requires i + |s| == n && ColumnBelow(NonZeros(s, i), n)
    ensures Dense(NonZeros(s, i), n) == Zeros(i) + s
  {
    if s == [] {
      assert Zeros(n) == Zeros(i) + s;
    } else {
      NonZerosBelow(s[1..], i + 1);
      DenseNonZeros(s[1..], i + 1, n);
      assert Zeros(i + 1) == Zeros(i) + [0];
      if s[0] != 0 {
        assert ([(i, s[0])] + NonZeros(s[1..], i + 1))[1..] == NonZeros(s[1..], i + 1);
        Units(s[0]);
      }
    }
  }

  /** The j-th run of n elements. */
  function FlatColumn(list: seq<Fp>, n: nat, j: nat): seq<Fp> {
    if (j + 1) * n <= |list| then
      assert j * n + n == (j + 1) * n;
      list[j * n..(j + 1) * n]
    else []
  }

  /** The columns of a matrix given flat, column after column. */
  function FlatColumns(list: seq<Fp>, n: nat, m: nat): (r: seq<Column>)
    ensures |r| == m && forall j :: 0 <= j < m ==> r[j] == NonZeros(FlatColumn(list, n, j), 0)
  {
    seq(m, j requires 0 <= j < m => NonZeros(FlatColumn(list, n, j), 0))
  }

  lemma FlatColumnLength(list: seq<Fp>, n: nat, m: nat, j: nat)
    requires |list| == m * n && j < m
    ensures |FlatColumn(list, n, j)| == n && 0 <= j * n && (j + 1) * n <= |list|
  {
    ScaledMonotone(j + 1, m, n);
    assert j * n + n == (j + 1) * n;
  }

  lemma ScaledMonotone(a: nat, b: nat, n: nat)
    requires a <= b
    ensures a * n <= b * n
  {
  }

  /** The inner loop of new_from_flat over one column. */
  method PushNonZeros(column: seq<Fp>, colInd: seq<nat>, val: seq<Fp>)
    returns (count: nat, colInd': seq<nat>, val': seq<Fp>)
    ensures count == |NonZeros(column, 0)|
    ensures colInd' == colInd + RowsOf(NonZeros(column, 0)) && val' == val + ValuesOf(NonZeros(column, 0))
  {
    count, colInd', val' := 0, colInd, val;
    for c := 0 to |column|
      invariant count == |NonZeros(column[..c], 0)|
      invariant colInd' == colInd + RowsOf(NonZeros(column[..c], 0))
      invariant val' == val + ValuesOf(NonZeros(column[..c], 0))
    {
      assert column[..c + 1] == column[..c] + [column[c]];
      NonZerosPush(column[..c], column[c], 0);
      if column[c] != 0 {
        count := count + 1;
        colInd' := colInd' + [c];
        val' := val' + [column[c]];
      }
    }
    assert column[..|column|] == column;
  }

  /** new_from_flat; None where an assertion of the source fails. */
  method NewFromFlat(n: nat, m: nat, d: nat, list: seq<Fp>) returns (r: Option<SprsMat>)
    ensures r.None? <==> |list| != m * n || Total(FlatColumns(list, n, m)) > d * n
    ensures r.Some? ==> Holds(r.value, FlatColumns(list, n, m)) && r.value.n == n && r.value.d == d
  {
    if |list| != m * n {
      return None;
    }
    ghost var cols := FlatColumns(list, n, m);
    var indPtr: seq<nat> := seq(m + 1, j => 0);
    var colInd: seq<nat>, val: seq<Fp> := [], [];
    for i := 0 to m
      invariant |indPtr| == m + 1 && Pointers(indPtr, cols, i)
      invariant colInd == FlatRows(cols[..i]) && val == FlatValues(cols[..i])
    {
      FlatColumnLength(list, n, m, i);
      var count;
      count, colInd, val := PushNonZeros(list[i * n..(i + 1) * n], colInd, val);
      NextPointer(indPtr, cols, i);
      indPtr := indPtr[i + 1 := count + indPtr[i]];
      assert cols[..i + 1][..i] == cols[..i];
    }
    assert cols[..m] == cols;
    if indPtr[m] > d * n {
      return None;
    }
    return Some(SprsMat(n, m, d, indPtr, colInd, val));
  }

  /** On a matrix given flat, row_mul is the product with the columns as they stand. */
  lemma FlatRowMul(mat: SprsMat, list: seq<Fp>, n: nat, m: nat, v: seq<Fp>)
    requires |list| == m * n && |v| == n && Holds(mat, FlatColumns(list, n, m))
    ensures RowMul(mat, v).Some? && |RowMul(mat, v).value| == m
    ensures forall j :: 0 <= j < m ==> RowMul(mat, v).value[j] == Inner(v, FlatColumn(list, n, j))
  {
    var cols := FlatColumns(list, n, m);
    forall j | 0 <= j < m ensures ColumnBelow(cols[j], n) && Dense(cols[j], n) == FlatColumn(list, n, j) {
      FlatColumnLength(list, n, m, j);
      NonZerosBelow(FlatColumn(list, n, j), 0);
      DenseNonZeros(FlatColumn(list, n, j), 0, n);
    }
    RowMulIsDense(mat, cols, v);
  }
}
