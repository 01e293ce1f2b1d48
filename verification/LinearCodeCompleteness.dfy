/** Honest openings over any linear code are accepted exactly with the true values
    (linear_codes/mod.rs). */
module LinearCodeCompleteness {
  import opened PrimeField
  import opened Numbers
  import opened Vectors
  import opened Polynomials
  import opened SparseMatrices
  import opened MultilinearExtensions
  import opened LinearCodes
  import opened LinearCodePCS
  import BrakedownCode
  import BrakedownProperties

  // ----- the checks on honest columns

  lemma {:induction false} PathsPass(h: Hashes, all: seq<int>, leaves: seq<int>, indices: seq<nat>, paths: seq<Path>)
    requires PathsVerify(h) && |leaves| == |indices| == |paths|
    requires forall i :: 0 <= i < |indices| ==> LeafAt(h, all, leaves[i], indices[i], paths[i])
    ensures CheckPaths(h, h.root(all), leaves, indices, paths) == None
    decreases |leaves|
  {
    if leaves != [] {
      assert LeafAt(h, all, leaves[0], indices[0], paths[0]);
      assert PathVerifies(h, all, indices[0]);
      forall i | 0 <= i < |indices| - 1 ensures LeafAt(h, all, leaves[1..][i], indices[1..][i], paths[1..][i]) {
        assert LeafAt(h, all, leaves[i + 1], indices[i + 1], paths[i + 1]);
      }
      PathsPass(h, all, leaves[1..], indices[1..], paths[1..]);
    }
  }

  ghost predicate LeafAt(h: Hashes, all: seq<int>, leaf: int, index: nat, path: Path) {
    index < |all| && leaf == all[index] && path == h.path(all, index)
  }

  /** A column that matches both codewords. */
  ghost predicate Matches(v: seq<Fp>, column: seq<Fp>, w: seq<Fp>, index: nat) {
    index < |w| && Inner(v, column) == w[index]
  }

  lemma {:induction false} ColumnsPass(b: seq<Fp>, columns: seq<seq<Fp>>, w: seq<Fp>, indices: seq<nat>)
    requires |columns| == |indices|
    requires forall i :: 0 <= i < |indices| ==> Matches(b, columns[i], w, indices[i])
    ensures CheckColumns(b, columns, w, indices) == None
  {
    if indices != [] {
      assert Matches(b, columns[0], w, indices[0]);
      forall i | 0 <= i < |indices| - 1 ensures Matches(b, columns[1..][i], w, indices[1..][i]) {
        assert Matches(b, columns[i + 1], w, indices[i + 1]);
      }
      ColumnsPass(b, columns[1..], w, indices[1..]);
    }
  }

  lemma {:induction false} BothPass(r: seq<Fp>, u: seq<Fp>, b: seq<Fp>, w: seq<Fp>, columns: seq<seq<Fp>>,
                                    indices: seq<nat>)
    requires |columns| == |indices|
    requires forall i :: 0 <= i < |indices| ==> Matches(r, columns[i], u, indices[i])
    requires forall i :: 0 <= i < |indices| ==> Matches(b, columns[i], w, indices[i])
    ensures CheckBoth(r, u, b, w, columns, indices) == None
  {
    if indices != [] {
      assert Matches(r, columns[0], u, indices[0]) && Matches(b, columns[0], w, indices[0]);
      forall i | 0 <= i < |indices| - 1
        ensures Matches(r, columns[1..][i], u, indices[1..][i]) && Matches(b, columns[1..][i], w, indices[1..][i])
      {
        assert Matches(r, columns[i + 1], u, indices[i + 1]) && Matches(b, columns[i + 1], w, indices[i + 1]);
      }
      BothPass(r, u, b, w, columns[1..], indices[1..]);
    }
  }

  // ----- one polynomial

  /** What the theorems assume of the external parts and of the encoder. */
  ghost predicate Honest(params: Params, coeffs: seq<Fp>, comm: Commitment, st: State) {
    && PathsVerify(params.hashes) && SqueezesEnough(params.sponge)
    && CommitOne(params, coeffs) == Some((comm, st))
    && LinearEncoder(params.encode, comm.nCols, comm.nExtCols) && comm.nExtCols > 0
  }

  lemma HonestState(params: Params, coeffs: seq<Fp>, comm: Commitment, st: State)
    requires Honest(params, coeffs, comm, st)
    ensures Encoded(params.encode, st.mat, st.ext)
    ensures comm.nRows == st.mat.n == st.ext.n && comm.nCols == st.mat.m && comm.nExtCols == st.ext.m
    ensures st.leaves == HashColumns(params.hashes, Columns(st.ext))
    ensures comm.root == params.hashes.root(Padded(st.leaves, params.hashes.pad))
    ensures (comm.nRows, comm.nCols) == params.dims(|coeffs|)
    ensures st.mat == FromFlat(comm.nRows, comm.nCols, Resize(coeffs, comm.nRows * comm.nCols))
  {
  }

  /** Every combination v of the rows: its encoding exists and the columns match it. */
  lemma CombinationMatches(params: Params, coeffs: seq<Fp>, comm: Commitment, st: State, v: seq<Fp>, indices: seq<nat>)
    requires Honest(params, coeffs, comm, st) && |v| == comm.nRows
    requires Shaped(st.ext) && forall i :: 0 <= i < |indices| ==> indices[i] < st.ext.m
    ensures Shaped(st.mat) && params.encode(MatRowMul(st.mat, v)).Ok?
    ensures forall i :: 0 <= i < |indices| ==>
              Matches(v, OpenedColumns(st.ext, indices)[i], params.encode(MatRowMul(st.mat, v)).value, indices[i])
  {
    HonestState(params, coeffs, comm, st);
    EncodeOk(params.encode, st.mat, st.ext, v);
    forall i | 0 <= i < |indices|
      ensures Matches(v, OpenedColumns(st.ext, indices)[i], params.encode(MatRowMul(st.mat, v)).value, indices[i])
    {
      EncodedColumn(params.encode, st.mat, st.ext, v, indices[i]);
    }
  }

  lemma EncodeOk(encode: Encoder, mat: Matrix, ext: Matrix, v: seq<Fp>)
    requires LinearEncoder(encode, mat.m, ext.m) && Shaped(mat)
    ensures encode(MatRowMul(mat, v)).Ok?
  {
    assert EncodesTo(encode, MatRowMul(mat, v), ext.m);
  }

  lemma OpenedPathsPass(params: Params, coeffs: seq<Fp>, comm: Commitment, st: State, indices: seq<nat>)
    requires Honest(params, coeffs, comm, st)
    requires Shaped(st.ext) && forall i :: 0 <= i < |indices| ==> indices[i] < st.ext.m
    ensures CheckPaths(params.hashes, comm.root, HashColumns(params.hashes, OpenedColumns(st.ext, indices)), indices,
                       OpenedPaths(params.hashes, Padded(st.leaves, params.hashes.pad), indices)) == None
  {
    HonestState(params, coeffs, comm, st);
    var h, columns := params.hashes, OpenedColumns(st.ext, indices);
    var all := Padded(st.leaves, h.pad);
    forall i | 0 <= i < |indices|
      ensures LeafAt(h, all, HashColumns(h, columns)[i], indices[i], OpenedPaths(h, all, indices)[i])
    {
      assert all[indices[i]] == st.leaves[indices[i]];
    }
    PathsPass(h, all, HashColumns(h, columns), indices, OpenedPaths(h, all, indices));
  }

  /** The value that the tensored point gives the committed matrix. */
  function TensorValue(params: Params, comm: Commitment, st: State, point: seq<Fp>): Fp
    requires Shaped(st.mat)
  {
    var (a, b) := params.tensor(point, comm.nCols, comm.nRows);
    Inner(MatRowMul(st.mat, b), a)
  }

  /** The codeword checks on what generate_proof opened. */
  lemma CodewordsPass(params: Params, coeffs: seq<Fp>, comm: Commitment, st: State, point: seq<Fp>, value: Fp,
                      proof: Proof, r: Option<seq<Fp>>, indices: seq<nat>)
    requires Honest(params, coeffs, comm, st) && Shaped(st.mat) && Shaped(st.ext)
    requires |params.tensor(point, comm.nCols, comm.nRows).1| == comm.nRows
    requires forall i :: 0 <= i < |indices| ==> indices[i] < st.ext.m
    requires proof.opening.v == MatRowMul(st.mat, params.tensor(point, comm.nCols, comm.nRows).1)
    requires proof.opening.columns == OpenedColumns(st.ext, indices)
    requires r.Some? <==> proof.wellFormedness.Some?
    requires r.Some? ==> |r.value| == comm.nRows && proof.wellFormedness.value == MatRowMul(st.mat, r.value)
    ensures CheckCodewords(params, comm, point, value, proof, r, indices)
            == Ok(TensorValue(params, comm, st, point) == value)
  {
    var b := params.tensor(point, comm.nCols, comm.nRows).1;
    CombinationMatches(params, coeffs, comm, st, b, indices);
    var w, columns := params.encode(proof.opening.v).value, proof.opening.columns;
    if r.Some? {
      CombinationMatches(params, coeffs, comm, st, r.value, indices);
      BothPass(r.value, params.encode(proof.wellFormedness.value).value, b, w, columns, indices);
    } else {
      ColumnsPass(b, columns, w, indices);
    }
  }

  /** One honest opening: check answers whether the value is the tensored one, and leaves the
      sponge where open left it. */
  lemma OneAccepted(params: Params, coeffs: seq<Fp>, comm: Commitment, st: State, point: seq<Fp>, value: Fp,
                    tr: Transcript, proof: Proof, tr': Transcript)
    requires Honest(params, coeffs, comm, st) && Shaped(st.mat) && Shaped(st.ext) && st.ext.m > 0
    requires |params.tensor(point, comm.nCols, comm.nRows).1| == comm.nRows
    requires OpenOne(params, comm, st, point, tr) == Ok((proof, tr'))
    ensures CheckOne(params, comm, point, value, proof, tr) == (Ok(TensorValue(params, comm, st, point) == value), tr')
  {
    HonestState(params, coeffs, comm, st);
    var tr1 := tr + [AbsorbedRoot(comm.root)];
    var b := params.tensor(point, comm.nCols, comm.nRows).1;
    var r := if params.wellFormedness then Some(params.sponge.elements(tr1, comm.nRows)) else None;
    var tr2 := if params.wellFormedness
               then tr1 + [SqueezedElements(comm.nRows), Absorbed(MatRowMul(st.mat, r.value))] else tr1;
    assert GenerateProof(params, b, st, tr2 + [Absorbed(point)]) == Ok((proof.opening, tr'));
    var t := params.queries(st.ext.m).value;
    var indices := Indices(params, tr2 + [Absorbed(point)] + [Absorbed(MatRowMul(st.mat, b))], st.ext.m, t).0;
    OpenedPathsPass(params, coeffs, comm, st, indices);
    CodewordsPass(params, coeffs, comm, st, point, value, proof, r, indices);
  }

  // ----- all polynomials

  ghost predicate AllHonest(params: Params, polys: seq<seq<Fp>>, comms: seq<Commitment>, states: seq<State>,
                            point: seq<Fp>) {
    && |polys| == |comms| == |states|
    && forall i :: 0 <= i < |comms| ==> HonestAt(params, polys[i], comms[i], states[i], point)
  }

  ghost predicate HonestAt(params: Params, coeffs: seq<Fp>, comm: Commitment, st: State, point: seq<Fp>) {
    && Honest(params, coeffs, comm, st) && Shaped(st.mat) && Shaped(st.ext) && st.ext.m > 0
    && |params.tensor(point, comm.nCols, comm.nRows).1| == comm.nRows
  }

  ghost predicate AllTrue(params: Params, comms: seq<Commitment>, states: seq<State>, point: seq<Fp>, values: seq<Fp>)
    requires |comms| == |states| == |values|
  {
    forall i :: 0 <= i < |comms| ==> TrueAt(params, comms[i], states[i], point, values[i])
  }

  ghost predicate TrueAt(params: Params, comm: Commitment, st: State, point: seq<Fp>, value: Fp) {
    Shaped(st.mat) && TensorValue(params, comm, st, point) == value
  }

  /** check on the proofs of open never errs: it answers whether all values are true, and if they
      are it leaves the sponge where open left it. */
  lemma {:induction false} OpeningsAccepted(params: Params, polys: seq<seq<Fp>>, comms: seq<Commitment>,
                                            states: seq<State>, point: seq<Fp>, values: seq<Fp>, tr: Transcript,
                                            proofs: seq<Proof>, tr': Transcript)
    requires AllHonest(params, polys, comms, states, point) && |values| == |comms| && AllShaped(states)
    requires OpenFrom(params, comms, states, point, tr) == Ok((proofs, tr'))
    ensures var r := CheckFrom(params, comms, point, values, proofs, tr);
            && r.Ok? && r.value.0 == AllTrue(params, comms, states, point, values)
            && (r.value.0 ==> r.value.1 == tr')
    decreases |comms|
  {
    if comms != [] {
      var (proof, tr1) := OpenOne(params, comms[0], states[0], point, tr).value;
      assert HonestAt(params, polys[0], comms[0], states[0], point);
      OneAccepted(params, polys[0], comms[0], states[0], point, values[0], tr, proof, tr1);
      FirstOpened(params, comms, states, point, tr, proofs, tr', proof, tr1);
      RestHonest(params, polys, comms, states, point);
      OpeningsAccepted(params, polys[1..], comms[1..], states[1..], point, values[1..], tr1, proofs[1..], tr');
      AllTrueSplits(params, comms, states, point, values);
      FirstChecked(params, comms, point, values, proofs, tr,
                   TrueAt(params, comms[0], states[0], point, values[0]), tr1);
    }
  }

  lemma {:induction false} FirstOpened(params: Params, comms: seq<Commitment>, states: seq<State>, point: seq<Fp>,
                                       tr: Transcript, proofs: seq<Proof>, tr': Transcript, proof: Proof,
                                       tr1: Transcript)
    requires |comms| == |states| && comms != [] && AllShaped(states)
    requires OpenFrom(params, comms, states, point, tr) == Ok((proofs, tr'))
    requires OpenOne(params, comms[0], states[0], point, tr) == Ok((proof, tr1))
    ensures proofs != [] && proofs[0] == proof && AllShaped(states[1..])
    ensures OpenFrom(params, comms[1..], states[1..], point, tr1) == Ok((proofs[1..], tr'))
  {
    assert forall i :: 0 <= i < |states[1..]| ==> states[1..][i] == states[i + 1];
  }

  lemma {:induction false} FirstChecked(params: Params, comms: seq<Commitment>, point: seq<Fp>, values: seq<Fp>,
                                        proofs: seq<Proof>, tr: Transcript, accepted: bool, tr1: Transcript)
    requires |comms| == |values| && comms != [] && proofs != []
    requires CheckOne(params, comms[0], point, values[0], proofs[0], tr) == (Ok(accepted), tr1)
    ensures CheckFrom(params, comms, point, values, proofs, tr)
            == if accepted then CheckFrom(params, comms[1..], point, values[1..], proofs[1..], tr1)
               else Ok((false, tr1))
  {
  }

  lemma RestHonest(params: Params, polys: seq<seq<Fp>>, comms: seq<Commitment>, states: seq<State>, point: seq<Fp>)
    requires AllHonest(params, polys, comms, states, point) && comms != []
    ensures AllHonest(params, polys[1..], comms[1..], states[1..], point)
  {
    forall i | 0 <= i < |comms| - 1 ensures HonestAt(params, polys[1..][i], comms[1..][i], states[1..][i], point) {
      assert HonestAt(params, polys[i + 1], comms[i + 1], states[i + 1], point);
    }
  }

  lemma AllTrueSplits(params: Params, comms: seq<Commitment>, states: seq<State>, point: seq<Fp>, values: seq<Fp>)
    requires |comms| == |states| == |values| && comms != []
    ensures AllTrue(params, comms, states, point, values)
            <==> TrueAt(params, comms[0], states[0], point, values[0])
                 && AllTrue(params, comms[1..], states[1..], point, values[1..])
  {
    if AllTrue(params, comms, states, point, values) {
      forall i | 0 <= i < |comms| - 1 ensures TrueAt(params, comms[1..][i], states[1..][i], point, values[1..][i]) {
        assert TrueAt(params, comms[i + 1], states[i + 1], point, values[i + 1]);
      }
    }
    if TrueAt(params, comms[0], states[0], point, values[0])
       && AllTrue(params, comms[1..], states[1..], point, values[1..])
    {
      forall i | 0 <= i < |comms| ensures TrueAt(params, comms[i], states[i], point, values[i]) {
        if i > 0 { assert TrueAt(params, comms[1..][i - 1], states[1..][i - 1], point, values[1..][i - 1]); }
      }
    }
  }

  // ----- the two tensors

  function LigeroTensor(point: seq<Fp>, left: nat, right: nat): (seq<Fp>, seq<Fp>)
    requires point != []
  {
    (PowersFrom(1, point[0], left), PowersFrom(1, Pow(point[0], left), right))
  }

  /** With the univariate tensor the value is that of the polynomial, if the matrix covers it. */
  lemma UnivariateTensorValue(params: Params, coeffs: seq<Fp>, comm: Commitment, st: State, point: seq<Fp>)
    requires Honest(params, coeffs, comm, st) && Shaped(st.mat) && point != []
    requires params.tensor(point, comm.nCols, comm.nRows) == LigeroTensor(point, comm.nCols, comm.nRows)
    requires |coeffs| <= comm.nRows * comm.nCols
    ensures TensorValue(params, comm, st, point) == Eval(coeffs, point[0])
  {
    HonestState(params, coeffs, comm, st);
    UnivariateValue(coeffs, Resize(coeffs, comm.nRows * comm.nCols), comm.nRows, comm.nCols, point[0]);
  }

  function MultilinearTensor(point: seq<Fp>, left: nat, right: nat): (seq<Fp>, seq<Fp>)
    requires Log2(left) <= |point|
  {
    (EqTable(point[..Log2(left)]), EqTable(point[Log2(left)..]))
  }

  /** With the multilinear tensor the value is that of the extension, for dimensions that are
      powers of two and multiply to the size of the hypercube. */
  lemma MultilinearTensorValue(params: Params, f: seq<Fp>, comm: Commitment, st: State, point: seq<Fp>, split: nat)
    requires Honest(params, f, comm, st) && Shaped(st.mat) && split <= |point| && |f| == Pow2(|point|)
    requires comm.nCols == Pow2(split) && comm.nRows == Pow2(|point| - split)
    requires Log2(comm.nCols) <= |point|
    requires params.tensor(point, comm.nCols, comm.nRows) == MultilinearTensor(point, comm.nCols, comm.nRows)
    ensures TensorValue(params, comm, st, point) == Value(f, point)
  {
    HonestState(params, f, comm, st);
    Log2OfPower(split);
    PointSplits(f, comm.nRows, comm.nCols, point, split);
  }

  lemma PointSplits(f: seq<Fp>, n: nat, m: nat, point: seq<Fp>, split: nat)
    requires split <= |point| && |f| == Pow2(|point|) && m == Pow2(split) && n == Pow2(|point| - split)
    ensures Inner(MatRowMul(FromFlat(n, m, Resize(f, n * m)), EqTable(point[split..])), EqTable(point[..split]))
            == Value(f, point)
  {
    Covers(n, m, |point| - split, split);
    assert point[..split] + point[split..] == point;
    SplitValue(f, n, m, point[..split], point[split..]);
  }

  lemma Covers(n: nat, m: nat, a: nat, b: nat)
    requires n == Pow2(a) && m == Pow2(b)
    ensures n * m == Pow2(a + b)
  {
    Pow2Add(a, b);
  }

  lemma SplitValue(f: seq<Fp>, n: nat, m: nat, left: seq<Fp>, right: seq<Fp>)
    requires |f| == Pow2(|left + right|) == n * m && m == Pow2(|left|) && n == Pow2(|right|)
    ensures Inner(MatRowMul(FromFlat(n, m, Resize(f, n * m)), EqTable(right)), EqTable(left)) == Value(f, left + right)
  {
    MultilinearValue(f, left, right);
    assert Resize(f, n * m) == f;
  }

  // ----- the two encoders

  /** reed_solomon: the values at the points of a domain. */
  function ValuesAt(points: seq<Fp>, msg: seq<Fp>): (r: seq<Fp>)
    ensures |r| == |points| && forall j :: 0 <= j < |r| ==> r[j] == Eval(msg, points[j])
  {
    seq(|points|, j requires 0 <= j < |points| => Eval(msg, points[j]))
  }

  lemma ReedSolomonIsLinear(points: seq<Fp>, m: nat)
    ensures LinearEncoder(msg => Ok(ValuesAt(points, msg)), m, |points|)
  {
    var encode: Encoder := msg => Ok(ValuesAt(points, msg));
    forall u: seq<Fp>, c, w: seq<Fp> | |u| == |w| == m ensures EncodesMix(encode, u, c, w) {
      forall j | 0 <= j < |points|
        ensures ValuesAt(points, Mix(u, c, w))[j] == Mix(ValuesAt(points, u), c, ValuesAt(points, w))[j]
      {
        BrakedownProperties.EvalMix(u, c, w, points[j]);
      }
      assert ValuesAt(points, Mix(u, c, w)) == Mix(ValuesAt(points, u), c, ValuesAt(points, w));
    }
  }

  lemma BrakedownIsLinear(code: BrakedownCode.Code, encode: Encoder)
    requires BrakedownCode.ValidCode(code)
    requires forall msg :: |msg| == code.m ==> encode(msg) == Ok(BrakedownCode.Encoded(code, msg))
    ensures LinearEncoder(encode, code.m, code.length)
  {
    forall u: seq<Fp>, c, w: seq<Fp> | |u| == |w| == code.m ensures EncodesMix(encode, u, c, w) {
      BrakedownProperties.EncodedMix(code, u, c, w);
    }
  }
}
