/** The commitment scheme over a linear code (linear_codes/mod.rs): commit, open, check. */
module LinearCodePCS {
  import opened PrimeField
  import opened Numbers
  import opened Vectors
  import opened LinearCodes

  // ----- hashing, the Merkle tree and the sponge, which are external

  datatype Path = Path(leafIndex: nat, nodes: int)

  /** The hash of a column, the padding leaf, and the Merkle tree over a list of leaves. */
  datatype Hashes = Hashes(column: seq<Fp> -> int, pad: int, root: seq<int> -> int, path: (seq<int>, nat) -> Path,
                           verify: (int, int, Path) -> bool)

  /** Paths produced by the tree carry their index and verify. */
  ghost predicate PathsVerify(h: Hashes) {
    forall leaves: seq<int>, i: nat :: i < |leaves| ==> PathVerifies(h, leaves, i)
  }

  ghost predicate PathVerifies(h: Hashes, leaves: seq<int>, i: nat)
    requires i < |leaves|
  {
    h.path(leaves, i).leafIndex == i && h.verify(h.root(leaves), leaves[i], h.path(leaves, i))
  }

  /** What has gone into the sponge and come out of it. */
  datatype Event = AbsorbedRoot(root: int) | Absorbed(elements: seq<Fp>) | AbsorbedBytes(bytes: nat) |
                   SqueezedElements(n: nat) | SqueezedBytes(n: nat)

  type Transcript = seq<Event>

  /** The sponge: any deterministic function of the transcript. */
  datatype Sponge = Sponge(elements: (Transcript, nat) -> seq<Fp>, bytes: (Transcript, nat) -> nat)

  ghost predicate SqueezesEnough(sponge: Sponge) {
    forall tr, n :: |sponge.elements(tr, n)| == n
  }

  // ----- parameters

  /** What an instance of the scheme supplies; t is None where the field is too small. */
  datatype Params = Params(wellFormedness: bool, queries: nat -> Option<nat>, numBytes: nat -> nat,
                           dims: nat -> (nat, nat), encode: Encoder,
                           tensor: (seq<Fp>, nat, nat) -> (seq<Fp>, seq<Fp>), hashes: Hashes, sponge: Sponge)

  datatype Commitment = Commitment(nRows: nat, nCols: nat, nExtCols: nat, root: int)
  datatype State = State(mat: Matrix, ext: Matrix, leaves: seq<int>)
  datatype Opening = Opening(paths: seq<Path>, v: seq<Fp>, columns: seq<seq<Fp>>)
  datatype Proof = Proof(opening: Opening, wellFormedness: Option<seq<Fp>>)

  // ----- commit

  /** The leaves padded to a power of two, as create_merkle_tree does. */
  function Padded(leaves: seq<int>, pad: int): (r: seq<int>)
    ensures leaves <= r
  {
    Log2Covers(|leaves|);
    leaves + seq(Pow2(Log2(|leaves|)) - |leaves|, i => pad)
  }

  /** Encodes every row; None where a row cannot be encoded. */
  function EncodeRows(encode: Encoder, rows: seq<seq<Fp>>): (r: Option<seq<seq<Fp>>>)
    ensures r.Some? ==> |r.value| == |rows| && forall i :: 0 <= i < |rows| ==> encode(rows[i]) == Ok(r.value[i])
  {
    if rows == [] then Some([]) else
      match encode(rows[0])
      case Err => None
      case Panic => None
      case Ok(row) =>
        match EncodeRows(encode, rows[1..])
        case None => None
        case Some(rest) => Some([row] + rest)
  }

  predicate SameLength(rows: seq<seq<Fp>>) {
    forall i :: 0 <= i < |rows| ==> |rows[i]| == |rows[0]|
  }

  /** compute_matrices; None where the source panics. */
  function ComputeMatrices(params: Params, coeffs: seq<Fp>): (r: Option<(Matrix, Matrix)>)
    ensures r.Some? ==> Encoded(params.encode, r.value.0, r.value.1)
  {
    var (n, m) := params.dims(|coeffs|);
    var mat := FromFlat(n, m, Resize(coeffs, n * m));
    match EncodeRows(params.encode, mat.entries)
    case None => None
    case Some(rows) =>
      if rows == [] || !SameLength(rows) then None else Some((mat, Matrix(n, |rows[0]|, rows)))
  }

  function HashColumns(h: Hashes, columns: seq<seq<Fp>>): (r: seq<int>)
    ensures |r| == |columns| && forall j :: 0 <= j < |r| ==> r[j] == h.column(columns[j])
  {
    seq(|columns|, j requires 0 <= j < |columns| => h.column(columns[j]))
  }

  /** commit for one polynomial; None where the source panics. */
  function CommitOne(params: Params, coeffs: seq<Fp>): Option<(Commitment, State)> {
    match ComputeMatrices(params, coeffs)
    case None => None
    case Some((mat, ext)) =>
      var leaves := HashColumns(params.hashes, Columns(ext));
      Some((Commitment(mat.n, mat.m, ext.m, params.hashes.root(Padded(leaves, params.hashes.pad))),
            State(mat, ext, leaves)))
  }

  // ----- the query positions

  /** get_indices_from_sponge: t positions below n, and the transcript afterwards. */
  function Indices(params: Params, tr: Transcript, n: nat, t: nat): (r: (seq<nat>, Transcript))
    requires n > 0 || t == 0
    ensures |r.0| == t && forall i :: 0 <= i < t ==> r.0[i] < n
    decreases t
  {
    if t == 0 then ([], tr) else
      var k := params.numBytes(n);
      var bytes := params.sponge.bytes(tr, k);
      var (rest, tr') := Indices(params, tr + [SqueezedBytes(k), AbsorbedBytes(bytes)], n, t - 1);
      ([bytes % n] + rest, tr')
  }

  method SampleIndices(params: Params, tr: Transcript, n: nat, t: nat) returns (indices: seq<nat>, tr': Transcript)
    requires n > 0 || t == 0
    ensures (indices, tr') == Indices(params, tr, n, t)
  {
    indices, tr' := [], tr;
    ghost var whole := Indices(params, tr, n, t);
    for i := 0 to t
      invariant indices + Indices(params, tr', n, t - i).0 == whole.0
      invariant Indices(params, tr', n, t - i).1 == whole.1
    {
      var k := params.numBytes(n);
      var bytes := params.sponge.bytes(tr', k);
      IndicesStep(params, tr', n, t - i, indices);
      tr' := tr' + [SqueezedBytes(k), AbsorbedBytes(bytes)];
      indices := indices + [bytes % n];
    }
    assert indices == whole.0;
  }

  lemma IndicesStep(params: Params, tr: Transcript, n: nat, t: nat, before: seq<nat>)
    requires n > 0 && t > 0
    ensures var k := params.numBytes(n);
            var bytes := params.sponge.bytes(tr, k);
            var next := Indices(params, tr + [SqueezedBytes(k), AbsorbedBytes(bytes)], n, t - 1);
            && before + Indices(params, tr, n, t).0 == before + [bytes % n] + next.0
            && Indices(params, tr, n, t).1 == next.1
  {
    var k := params.numBytes(n);
    var bytes := params.sponge.bytes(tr, k);
    var next := Indices(params, tr + [SqueezedBytes(k), AbsorbedBytes(bytes)], n, t - 1);
    assert Indices(params, tr, n, t).0 == [bytes % n] + next.0;
    assert before + ([bytes % n] + next.0) == before + [bytes % n] + next.0;
  }

  // ----- open

  function OpenedColumns(ext: Matrix, indices: seq<nat>): (r: seq<seq<Fp>>)
    requires Shaped(ext) && forall i :: 0 <= i < |indices| ==> indices[i] < ext.m
    ensures |r| == |indices| && forall i :: 0 <= i < |r| ==> r[i] == Column(ext, indices[i])
  {
    seq(|indices|, i requires 0 <= i < |indices| => Column(ext, indices[i]))
  }

  function OpenedPaths(h: Hashes, leaves: seq<int>, indices: seq<nat>): (r: seq<Path>)
    ensures |r| == |indices| && forall i :: 0 <= i < |r| ==> r[i] == h.path(leaves, indices[i])
  {
    seq(|indices|, i requires 0 <= i < |indices| => h.path(leaves, indices[i]))
  }

  /** generate_proof: an error without a query count; a panic where row_mul gets a vector of the
      wrong length, or positions are asked for among no columns. */
  function GenerateProof(params: Params, b: seq<Fp>, st: State, tr: Transcript): Outcome<(Opening, Transcript)>
    requires Shaped(st.mat) && Shaped(st.ext)
  {
    match params.queries(st.ext.m)
    case None => Err
    case Some(t) =>
      if |b| != st.mat.n || (st.ext.m == 0 && t > 0) then Panic else
        var v := MatRowMul(st.mat, b);
        var (indices, tr') := Indices(params, tr + [Absorbed(v)], st.ext.m, t);
        Ok((Opening(OpenedPaths(params.hashes, Padded(st.leaves, params.hashes.pad), indices), v,
                    OpenedColumns(st.ext, indices)),
            tr'))
  }

  /** What open does for one polynomial. */
  function OpenOne(params: Params, comm: Commitment, st: State, point: seq<Fp>, tr: Transcript):
    Outcome<(Proof, Transcript)>
    requires Shaped(st.mat) && Shaped(st.ext)
  {
    var b := params.tensor(point, comm.nCols, comm.nRows).1;
    var tr1 := tr + [AbsorbedRoot(comm.root)];
    if params.wellFormedness then
      var r := params.sponge.elements(tr1, comm.nRows);
      if |r| != st.mat.n then Panic else
        var v := MatRowMul(st.mat, r);
        var tr2 := tr1 + [SqueezedElements(comm.nRows), Absorbed(v)];
        WithProof(GenerateProof(params, b, st, tr2 + [Absorbed(point)]), Some(v))
    else
      WithProof(GenerateProof(params, b, st, tr1 + [Absorbed(point)]), None)
  }

  function WithProof(opening: Outcome<(Opening, Transcript)>, v: Option<seq<Fp>>): Outcome<(Proof, Transcript)> {
    match opening
    case Err => Err
    case Panic => Panic
    case Ok((opening, tr')) => Ok((Proof(opening, v), tr'))
  }

  // ----- check

  /** Step 4: the first mismatch among the paths decides; None if all of them are in order. */
  function CheckPaths(h: Hashes, root: int, leaves: seq<int>, indices: seq<nat>,
                      paths: seq<Path>): Option<Outcome<bool>>
    decreases |leaves|
  {
    if leaves == [] || indices == [] then None
    else if paths == [] then Some(Panic)
    else if paths[0].leafIndex != indices[0] then Some(Err)
    else if !h.verify(root, leaves[0], paths[0]) then Some(Ok(false))
    else CheckPaths(h, root, leaves[1..], indices[1..], paths[1..])
  }

  /** Step 7: every opened column matches the codeword w under the combination b. */
  function CheckColumns(b: seq<Fp>, columns: seq<seq<Fp>>, w: seq<Fp>, indices: seq<nat>): Option<Outcome<bool>> {
    if indices == [] then None
    else if columns == [] || indices[0] >= |w| then Some(Panic)
    else if Inner(b, columns[0]) != w[indices[0]] then Some(Err)
    else CheckColumns(b, columns[1..], w, indices[1..])
  }

  /** The codewords are checked column by column, r before b. */
  function CheckBoth(r: seq<Fp>, u: seq<Fp>, b: seq<Fp>, w: seq<Fp>, columns: seq<seq<Fp>>, indices: seq<nat>):
    Option<Outcome<bool>>
  {
    if indices == [] then None
    else if columns == [] || indices[0] >= |u| then Some(Panic)
    else if Inner(r, columns[0]) != u[indices[0]] then Some(Err)
    else if indices[0] >= |w| then Some(Panic)
    else if Inner(b, columns[0]) != w[indices[0]] then Some(Err)
    else CheckBoth(r, u, b, w, columns[1..], indices[1..])
  }

  /** Steps 5 to 7 and the value. */
  function CheckCodewords(params: Params, comm: Commitment, point: seq<Fp>, value: Fp, proof: Proof,
                          r: Option<seq<Fp>>, indices: seq<nat>): Outcome<bool> {
    match params.encode(proof.opening.v)
    case Err => Err
    case Panic => Panic
    case Ok(w) =>
      var (a, b) := params.tensor(point, comm.nCols, comm.nRows);
      var columns :=
        if r.Some? && proof.wellFormedness.Some? then
          match params.encode(proof.wellFormedness.value)
          case Err => Some(Err)
          case Panic => Some(Panic)
          case Ok(u) => CheckBoth(r.value, u, b, w, proof.opening.columns, indices)
        else CheckColumns(b, proof.opening.columns, w, indices);
      if columns.Some? then columns.value else Ok(Inner(proof.opening.v, a) == value)
  }

  /** What check does for one commitment, and the transcript afterwards. */
  function CheckOne(params: Params, comm: Commitment, point: seq<Fp>, value: Fp, proof: Proof, tr: Transcript):
    (Outcome<bool>, Transcript)
  {
    match params.queries(comm.nExtCols)
    case None => (Err, tr)
    case Some(t) =>
      var tr1 := tr + [AbsorbedRoot(comm.root)];
      if params.wellFormedness && proof.wellFormedness.None? then (Err, tr1)
      else if comm.nExtCols == 0 && t > 0 then (Panic, tr1)
      else
        var r := if params.wellFormedness then Some(params.sponge.elements(tr1, comm.nRows)) else None;
        var tr2 := if params.wellFormedness
                   then tr1 + [SqueezedElements(comm.nRows), Absorbed(proof.wellFormedness.value)] else tr1;
        var (indices, tr') := Indices(params, tr2 + [Absorbed(point)] + [Absorbed(proof.opening.v)], comm.nExtCols, t);
        var leaves := HashColumns(params.hashes, proof.opening.columns);
        var paths := CheckPaths(params.hashes, comm.root, leaves, indices, proof.opening.paths);
        if paths.Some? then (paths.value, tr')
        else (CheckCodewords(params, comm, point, value, proof, r, indices), tr')
  }

  /** check: stops at the first commitment that is not accepted. */
  method Check(params: Params, comms: seq<Commitment>, point: seq<Fp>, values: seq<Fp>, proofs: seq<Proof>,
               tr0: Transcript) returns (r: Outcome<(bool, Transcript)>)
    requires |comms| == |values|
    ensures r == CheckFrom(params, comms, point, values, proofs, tr0)
  {
    var tr := tr0;
    for i := 0 to |comms|
      invariant i <= |proofs|
      invariant CheckFrom(params, comms[i..], point, values[i..], proofs[i..], tr)
                == CheckFrom(params, comms, point, values, proofs, tr0)
    {
      if i >= |proofs| {
        return Panic;
      }
      var (outcome, tr') := CheckOne(params, comms[i], point, values[i], proofs[i], tr);
      assert comms[i..][1..] == comms[i + 1..] && values[i..][1..] == values[i + 1..];
      assert proofs[i..][1..] == proofs[i + 1..];
      match outcome {
        case Err => return Err;
        case Panic => return Panic;
        case Ok(accepted) =>
          if !accepted { return Ok((false, tr')); }
      }
      tr := tr';
    }
    return Ok((true, tr));
  }

  function CheckFrom(params: Params, comms: seq<Commitment>, point: seq<Fp>, values: seq<Fp>, proofs: seq<Proof>,
                     tr: Transcript): Outcome<(bool, Transcript)>
    requires |comms| == |values|
    decreases |comms|
  {
    if comms == [] then Ok((true, tr))
    else if proofs == [] then Panic
    else
      var (outcome, tr') := CheckOne(params, comms[0], point, values[0], proofs[0], tr);
      match outcome
      case Err => Err
      case Panic => Panic
      case Ok(accepted) =>
        if accepted then CheckFrom(params, comms[1..], point, values[1..], proofs[1..], tr') else Ok((false, tr'))
  }

  ghost predicate AllShaped(states: seq<State>) {
    forall i :: 0 <= i < |states| ==> Shaped(states[i].mat) && Shaped(states[i].ext)
  }

  /** The proofs that open collects, one commitment after the other. */
  function OpenFrom(params: Params, comms: seq<Commitment>, states: seq<State>, point: seq<Fp>, tr: Transcript):
    Outcome<(seq<Proof>, Transcript)>
    requires |comms| == |states| && AllShaped(states)
    decreases |comms|
  {
    if comms == [] then Ok(([], tr)) else
      match OpenOne(params, comms[0], states[0], point, tr)
      case Err => Err
      case Panic => Panic
      case Ok((proof, tr')) =>
        assert forall i :: 0 <= i < |states[1..]| ==> states[1..][i] == states[i + 1];
        Prepended([proof], OpenFrom(params, comms[1..], states[1..], point, tr'))
  }

  function Prepended(proofs: seq<Proof>, rest: Outcome<(seq<Proof>, Transcript)>): Outcome<(seq<Proof>, Transcript)> {
    match rest
    case Err => Err
    case Panic => Panic
    case Ok((s, tr)) => Ok((proofs + s, tr))
  }

  lemma {:induction false} OpenStep(params: Params, comms: seq<Commitment>, states: seq<State>, point: seq<Fp>,
                                    tr: Transcript, i: nat)
    requires i < |comms| == |states| && AllShaped(states)
    ensures OpenFrom(params, comms[i..], states[i..], point, tr)
            == match OpenOne(params, comms[i], states[i], point, tr)
               case Err => Err
               case Panic => Panic
               case Ok((proof, tr')) =>
                 Prepended([proof], OpenFrom(params, comms[i + 1..], states[i + 1..], point, tr'))
  {
    assert comms[i..][1..] == comms[i + 1..] && states[i..][1..] == states[i + 1..];
  }

  lemma PrependedTwice(proofs: seq<Proof>, proof: Proof, rest: Outcome<(seq<Proof>, Transcript)>)
    ensures Prepended(proofs, Prepended([proof], rest)) == Prepended(proofs + [proof], rest)
  {
    if rest.Ok? { assert proofs + ([proof] + rest.value.0) == proofs + [proof] + rest.value.0; }
  }

  /** open. */
  method Open(params: Params, comms: seq<Commitment>, states: seq<State>, point: seq<Fp>, tr0: Transcript)
    returns (r: Outcome<(seq<Proof>, Transcript)>)
    requires |comms| == |states| && AllShaped(states)
    ensures r == OpenFrom(params, comms, states, point, tr0)
  {
    var tr, proofs: seq<Proof> := tr0, [];
    ghost var whole := OpenFrom(params, comms, states, point, tr0);
    assert comms[0..] == comms && states[0..] == states;
    assert whole.Ok? ==> [] + whole.value.0 == whole.value.0;
    for i := 0 to |comms|
      invariant whole == Prepended(proofs, OpenFrom(params, comms[i..], states[i..], point, tr))
    {
      OpenStep(params, comms, states, point, tr, i);
      var one := OpenOne(params, comms[i], states[i], point, tr);
      match one
      case Err => return Err;
      case Panic => return Panic;
      case Ok((proof, tr')) =>
        PrependedTwice(proofs, proof, OpenFrom(params, comms[i + 1..], states[i + 1..], point, tr'));
        proofs := proofs + [proof];
        tr := tr';
    }
    assert proofs + [] == proofs;
    return Ok((proofs, tr));
  }
}
