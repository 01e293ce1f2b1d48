/** What the schemes over linear codes commit to and decide (linear_codes/mod.rs), for whatever
    commitment, value and proof: conditions on every opened position. */
module LinearCodeDecisions {
  import opened PrimeField
  import opened Numbers
  import opened Vectors
  import opened LinearCodes
  import opened LinearCodePCS
  import opened LinearCodeCompleteness

  // ----- the leaves

  /** The padded leaves: the least power of two of them, the leaves first. */
  lemma {:induction false} PaddedIs(leaves: seq<int>, pad: int, k: nat)
    requires |leaves| <= Pow2(k) && (k > 0 ==> Pow2(k - 1) < |leaves|)
    ensures |Padded(leaves, pad)| == Pow2(k)
    ensures forall i :: 0 <= i < Pow2(k) ==> Padded(leaves, pad)[i] == if i < |leaves| then leaves[i] else pad
  {
    Log2Is(|leaves|, k);
    Log2Covers(|leaves|);
  }

  lemma {:induction false} Log2Is(n: nat, k: nat)
    requires n <= Pow2(k) && (k > 0 ==> Pow2(k - 1) < n)
    ensures Log2(n) == k
    decreases k
  {
    if k > 0 {
      assert k == 1 ==> Pow2(0) == 1;
      assert k > 1 ==> Pow2(k - 1) == 2 * Pow2(k - 2);
      Log2Is((n + 1) / 2, k - 1);
    }
  }

  // ----- the positions

  /** Each word that is squeezed is absorbed again. */
  function Rounds(k: nat, words: seq<nat>): (r: Transcript)
    ensures |r| == 2 * |words|
    ensures forall i :: 0 <= i < |words| ==> r[2 * i] == SqueezedBytes(k) && r[2 * i + 1] == AbsorbedBytes(words[i])
  {
    if words == [] then [] else Rounds(k, words[..|words| - 1]) + [SqueezedBytes(k), AbsorbedBytes(words[|words| - 1])]
  }

  lemma {:induction false} RoundsFirst(k: nat, word: nat, words: seq<nat>)
    ensures Rounds(k, [word] + words) == [SqueezedBytes(k), AbsorbedBytes(word)] + Rounds(k, words)
    decreases |words|
  {
    var n := |words|;
    if n > 0 {
      assert ([word] + words)[..n] == [word] + words[..n - 1];
      RoundsFirst(k, word, words[..n - 1]);
      var last := [SqueezedBytes(k), AbsorbedBytes(words[n - 1])];
      assert [SqueezedBytes(k), AbsorbedBytes(word)] + Rounds(k, words[..n - 1]) + last
          == [SqueezedBytes(k), AbsorbedBytes(word)] + (Rounds(k, words[..n - 1]) + last);
    } else {
      assert [word] + words == [word] && [word][..0] == [] && Rounds(k, []) == [];
    }
  }

  /** Word i is what the sponge gives after the words before it. */
  ghost predicate AreWords(params: Params, tr: Transcript, n: nat, words: seq<nat>) {
    forall i :: 0 <= i < |words| ==> IsWord(params, tr, n, words, i)
  }

  ghost predicate IsWord(params: Params, tr: Transcript, n: nat, words: seq<nat>, i: nat)
    requires i < |words|
  {
    words[i] == params.sponge.bytes(tr + Rounds(params.numBytes(n), words[..i]), params.numBytes(n))
  }

  /** The positions are those words modulo n, and all of them are in the transcript. */
  lemma IndicesAre(params: Params, tr: Transcript, n: nat, t: nat)
    requires n > 0 || t == 0
    ensures var (words, r) := (Words(params, tr, n, t), Indices(params, tr, n, t));
            && AreWords(params, tr, n, words) && r.1 == tr + Rounds(params.numBytes(n), words)
            && forall i :: 0 <= i < t ==> r.0[i] == words[i] % n
  {
    WordsAre(params, tr, n, t);
    Residues(params, tr, n, t);
    AllAbsorbed(params, tr, n, t);
  }

  lemma {:induction false} WordsAre(params: Params, tr: Transcript, n: nat, t: nat)
    ensures AreWords(params, tr, n, Words(params, tr, n, t))
    decreases t
  {
    if t > 0 {
      WordsAre(params, Next(params, tr, n), n, t - 1);
      WordsFirst(params, tr, n, params.sponge.bytes(tr, params.numBytes(n)),
                 Words(params, Next(params, tr, n), n, t - 1));
    }
  }

  lemma {:induction false} Residues(params: Params, tr: Transcript, n: nat, t: nat)
    requires n > 0 || t == 0
    ensures forall i :: 0 <= i < t ==> Indices(params, tr, n, t).0[i] == Words(params, tr, n, t)[i] % n
    decreases t
  {
    if t > 0 { Residues(params, Next(params, tr, n), n, t - 1); }
  }

  lemma {:induction false} AllAbsorbed(params: Params, tr: Transcript, n: nat, t: nat)
    requires n > 0 || t == 0
    ensures Indices(params, tr, n, t).1 == tr + Rounds(params.numBytes(n), Words(params, tr, n, t))
    decreases t
  {
    var k := params.numBytes(n);
    if t > 0 {
      var word, rest := params.sponge.bytes(tr, k), Words(params, Next(params, tr, n), n, t - 1);
      AllAbsorbed(params, Next(params, tr, n), n, t - 1);
      RoundsFirst(k, word, rest);
      Regroups(tr, [SqueezedBytes(k), AbsorbedBytes(word)], Rounds(k, rest));
    } else {
      assert tr + Rounds(k, []) == tr;
    }
  }

  lemma Regroups(tr: Transcript, a: Transcript, b: Transcript)
    ensures tr + a + b == tr + (a + b)
  {
  }

  /** The transcript after one word. */
  function Next(params: Params, tr: Transcript, n: nat): Transcript {
    var k := params.numBytes(n);
    tr + [SqueezedBytes(k), AbsorbedBytes(params.sponge.bytes(tr, k))]
  }

  function Words(params: Params, tr: Transcript, n: nat, t: nat): (r: seq<nat>)
    ensures |r| == t
    decreases t
  {
    if t == 0 then [] else [params.sponge.bytes(tr, params.numBytes(n))] + Words(params, Next(params, tr, n), n, t - 1)
  }

  lemma {:induction false} WordsFirst(params: Params, tr: Transcript, n: nat, word: nat, rest: seq<nat>)
    requires word == params.sponge.bytes(tr, params.numBytes(n))
    requires AreWords(params, tr + [SqueezedBytes(params.numBytes(n)), AbsorbedBytes(word)], n, rest)
    ensures AreWords(params, tr, n, [word] + rest)
  {
    var k, words := params.numBytes(n), [word] + rest;
    var next := tr + [SqueezedBytes(k), AbsorbedBytes(word)];
    forall i | 0 <= i < |words| ensures IsWord(params, tr, n, words, i) {
      if i == 0 {
        assert words[..0] == [] && tr + Rounds(k, words[..0]) == tr;
      } else {
        assert IsWord(params, next, n, rest, i - 1);
        assert words[..i] == [word] + rest[..i - 1];
        RoundsFirst(k, word, rest[..i - 1]);
        assert tr + Rounds(k, words[..i]) == next + Rounds(k, rest[..i - 1]);
      }
    }
  }

  // ----- check

  /** The hash of column i is at position indices[i] under the root. */
  ghost predicate PathOk(h: Hashes, root: int, opening: Opening, indices: seq<nat>, i: nat)
    requires i < |indices|
  {
    && i < |opening.columns| && i < |opening.paths| && opening.paths[i].leafIndex == indices[i]
    && h.verify(root, h.column(opening.columns[i]), opening.paths[i])
  }

  /** <b, column i> is the element of the codeword at that position. */
  ghost predicate ColumnOk(b: seq<Fp>, w: seq<Fp>, columns: seq<seq<Fp>>, indices: seq<nat>, i: nat)
    requires i < |indices|
  {
    i < |columns| && indices[i] < |w| && Inner(b, columns[i]) == w[indices[i]]
  }

  /** What the checks of the paths amount to, column hashes and all. */
  lemma {:induction false} PathsDecide(h: Hashes, root: int, columns: seq<seq<Fp>>, indices: seq<nat>,
                                       paths: seq<Path>, v: seq<Fp>)
    requires |columns| >= |indices|
    ensures CheckPaths(h, root, HashColumns(h, columns), indices, paths) == None
            <==> forall i :: 0 <= i < |indices| ==> PathOk(h, root, Opening(paths, v, columns), indices, i)
    decreases |indices|
  {
    var o := Opening(paths, v, columns);
    if indices != [] {
      assert HashColumns(h, columns)[1..] == HashColumns(h, columns[1..]);
      if paths != [] {
        var o' := Opening(paths[1..], v, columns[1..]);
        PathsDecide(h, root, columns[1..], indices[1..], paths[1..], v);
        forall i | 0 <= i < |indices| - 1
          ensures PathOk(h, root, o, indices, i + 1) <==> PathOk(h, root, o', indices[1..], i)
        {
        }
        if PathOk(h, root, o, indices, 0)
           && forall i :: 0 <= i < |indices[1..]| ==> PathOk(h, root, o', indices[1..], i)
        {
          forall i | 0 <= i < |indices| ensures PathOk(h, root, o, indices, i) {
            assert i > 0 ==> PathOk(h, root, o', indices[1..], i - 1);
          }
        }
        if forall i :: 0 <= i < |indices| ==> PathOk(h, root, o, indices, i) {
          forall i | 0 <= i < |indices[1..]| ensures PathOk(h, root, o', indices[1..], i) {
            assert PathOk(h, root, o, indices, i + 1);
          }
        }
      } else {
        assert !PathOk(h, root, o, indices, 0);
      }
    }
  }

  lemma {:induction false} ColumnsDecide(b: seq<Fp>, w: seq<Fp>, columns: seq<seq<Fp>>, indices: seq<nat>)
    ensures CheckColumns(b, columns, w, indices) == None
            <==> forall i :: 0 <= i < |indices| ==> ColumnOk(b, w, columns, indices, i)
    ensures CheckColumns(b, columns, w, indices) != Some(Ok(true))
    decreases |indices|
  {
    if indices != [] {
      if columns != [] {
        ColumnsDecide(b, w, columns[1..], indices[1..]);
        LaterColumns(b, w, columns, indices);
      } else {
        assert !ColumnOk(b, w, columns, indices, 0);
      }
    }
  }

  lemma {:induction false} LaterColumns(b: seq<Fp>, w: seq<Fp>, columns: seq<seq<Fp>>, indices: seq<nat>)
    requires indices != [] && columns != []
    ensures (forall i :: 0 <= i < |indices| ==> ColumnOk(b, w, columns, indices, i))
            <==> ColumnOk(b, w, columns, indices, 0)
                 && forall i :: 0 <= i < |indices[1..]| ==> ColumnOk(b, w, columns[1..], indices[1..], i)
  {
    if forall i :: 0 <= i < |indices| ==> ColumnOk(b, w, columns, indices, i) {
      forall i | 0 <= i < |indices[1..]| ensures ColumnOk(b, w, columns[1..], indices[1..], i) {
        assert ColumnOk(b, w, columns, indices, i + 1);
      }
    }
    if ColumnOk(b, w, columns, indices, 0)
       && forall i :: 0 <= i < |indices[1..]| ==> ColumnOk(b, w, columns[1..], indices[1..], i)
    {
      forall i | 0 <= i < |indices| ensures ColumnOk(b, w, columns, indices, i) {
        assert i > 0 ==> ColumnOk(b, w, columns[1..], indices[1..], i - 1);
      }
    }
  }

  lemma {:induction false} BothDecide(r: seq<Fp>, u: seq<Fp>, b: seq<Fp>, w: seq<Fp>, columns: seq<seq<Fp>>,
                                      indices: seq<nat>)
    ensures CheckBoth(r, u, b, w, columns, indices) == None
            <==> (forall i :: 0 <= i < |indices| ==> ColumnOk(r, u, columns, indices, i))
                 && forall i :: 0 <= i < |indices| ==> ColumnOk(b, w, columns, indices, i)
    ensures CheckBoth(r, u, b, w, columns, indices) != Some(Ok(true))
    decreases |indices|
  {
    if indices != [] {
      if columns != [] {
        BothDecide(r, u, b, w, columns[1..], indices[1..]);
        LaterColumns(r, u, columns, indices);
        LaterColumns(b, w, columns, indices);
      } else {
        assert !ColumnOk(b, w, columns, indices, 0);
      }
    }
  }

  /** The transcript before the positions are drawn: root, well-formedness, point and v. */
  function Seeded(params: Params, comm: Commitment, point: seq<Fp>, proof: Proof, tr: Transcript): Transcript {
    tr + [AbsorbedRoot(comm.root)]
    + (if params.wellFormedness && proof.wellFormedness.Some?
       then [SqueezedElements(comm.nRows), Absorbed(proof.wellFormedness.value)] else [])
    + [Absorbed(point), Absorbed(proof.opening.v)]
  }

  /** All that has to hold at the opened positions, and of the value. */
  ghost predicate Holds(params: Params, comm: Commitment, point: seq<Fp>, value: Fp, proof: Proof, tr: Transcript,
                        indices: seq<nat>) {
    var o := proof.opening;
    var (a, b) := params.tensor(point, comm.nCols, comm.nRows);
    && (forall i :: 0 <= i < |indices| ==> PathOk(params.hashes, comm.root, o, indices, i))
    && params.encode(o.v).Ok?
    && (forall i :: 0 <= i < |indices| ==> ColumnOk(b, params.encode(o.v).value, o.columns, indices, i))
    && (params.wellFormedness ==>
          && proof.wellFormedness.Some? && params.encode(proof.wellFormedness.value).Ok?
          && var r := params.sponge.elements(tr + [AbsorbedRoot(comm.root)], comm.nRows);
          forall i :: 0 <= i < |indices| ==>
                        ColumnOk(r, params.encode(proof.wellFormedness.value).value, o.columns, indices, i))
    && Inner(o.v, a) == value
  }

  /** check accepts one commitment exactly if at every opened position there is a path for the hash of
      the column and the column matches both codewords, and the value is that of v; it leaves the
      positions in the transcript. */
  lemma CheckDecides(params: Params, comm: Commitment, point: seq<Fp>, value: Fp, proof: Proof, tr: Transcript)
    ensures CheckOne(params, comm, point, value, proof, tr).0 == Ok(true)
            <==> && params.queries(comm.nExtCols).Some?
                 && (params.wellFormedness ==> proof.wellFormedness.Some?)
                 && (comm.nExtCols > 0 || params.queries(comm.nExtCols).value == 0)
                 && Holds(params, comm, point, value, proof, tr,
                          Indices(params, Seeded(params, comm, point, proof, tr), comm.nExtCols,
                                  params.queries(comm.nExtCols).value).0)
    ensures CheckOne(params, comm, point, value, proof, tr).0 == Ok(true) ==>
              CheckOne(params, comm, point, value, proof, tr).1
              == Indices(params, Seeded(params, comm, point, proof, tr), comm.nExtCols,
                         params.queries(comm.nExtCols).value).1
  {
    var queries := params.queries(comm.nExtCols);
    if queries.Some? && (params.wellFormedness ==> proof.wellFormedness.Some?)
       && (comm.nExtCols > 0 || queries.value == 0)
    {
      var t := queries.value;
      var tr1 := tr + [AbsorbedRoot(comm.root)];
      var r := if params.wellFormedness then Some(params.sponge.elements(tr1, comm.nRows)) else None;
      var tr2 := if params.wellFormedness
                 then tr1 + [SqueezedElements(comm.nRows), Absorbed(proof.wellFormedness.value)] else tr1;
      assert tr2 + [Absorbed(point)] + [Absorbed(proof.opening.v)] == Seeded(params, comm, point, proof, tr);
      var (indices, tr') := Indices(params, Seeded(params, comm, point, proof, tr), comm.nExtCols, t);
      PositionsDecide(params, comm, point, value, proof, r, indices);
      PathsNeverAccept(params.hashes, comm.root, HashColumns(params.hashes, proof.opening.columns), indices,
                       proof.opening.paths);
    }
  }

  lemma {:induction false} PathsNeverAccept(h: Hashes, root: int, leaves: seq<int>, indices: seq<nat>,
                                            paths: seq<Path>)
    ensures CheckPaths(h, root, leaves, indices, paths) != Some(Ok(true))
    decreases |leaves|
  {
    if leaves != [] && indices != [] && paths != [] {
      PathsNeverAccept(h, root, leaves[1..], indices[1..], paths[1..]);
    }
  }

  /** Steps 4 to 7 for given positions. */
  lemma PositionsDecide(params: Params, comm: Commitment, point: seq<Fp>, value: Fp, proof: Proof, r: Option<seq<Fp>>,
                        indices: seq<nat>)
    requires r.Some? ==> proof.wellFormedness.Some?
    ensures var o := proof.opening;
            var (a, b) := params.tensor(point, comm.nCols, comm.nRows);
            CheckPaths(params.hashes, comm.root, HashColumns(params.hashes, o.columns), indices, o.paths) == None
            && CheckCodewords(params, comm, point, value, proof, r, indices) == Ok(true)
            <==> && (forall i :: 0 <= i < |indices| ==> PathOk(params.hashes, comm.root, o, indices, i))
                 && params.encode(o.v).Ok?
                 && (forall i :: 0 <= i < |indices| ==>
                       ColumnOk(b, params.encode(o.v).value, o.columns, indices, i))
                 && (r.Some? ==>
                       && params.encode(proof.wellFormedness.value).Ok?
                       && forall i :: 0 <= i < |indices| ==>
                            ColumnOk(r.value, params.encode(proof.wellFormedness.value).value, o.columns, indices, i))
                 && Inner(o.v, a) == value
  {
    var o := proof.opening;
    var (a, b) := params.tensor(point, comm.nCols, comm.nRows);
    if params.encode(o.v).Ok? {
      var w := params.encode(o.v).value;
      ColumnsDecide(b, w, o.columns, indices);
      if r.Some? && params.encode(proof.wellFormedness.value).Ok? {
        BothDecide(r.value, params.encode(proof.wellFormedness.value).value, b, w, o.columns, indices);
      }
      if |o.columns| < |indices| { assert !ColumnOk(b, w, o.columns, indices, |o.columns|); }
    }
    if |o.columns| >= |indices| {
      PathsDecide(params.hashes, comm.root, o.columns, indices, o.paths, o.v);
    } else {
      assert !PathOk(params.hashes, comm.root, o, indices, |o.columns|);
    }
  }

  // ----- what is refused

  /** Path k is the first that is not in order: it is there for the right position, but does not verify. */
  ghost predicate Refused(h: Hashes, root: int, opening: Opening, indices: seq<nat>, k: nat) {
    && k < |indices| && k < |opening.columns| && k < |opening.paths| && opening.paths[k].leafIndex == indices[k]
    && !h.verify(root, h.column(opening.columns[k]), opening.paths[k])
    && forall i :: 0 <= i < k ==> PathOk(h, root, opening, indices, i)
  }

  lemma {:induction false} PathsRefuse(h: Hashes, root: int, columns: seq<seq<Fp>>, indices: seq<nat>,
                                       paths: seq<Path>, v: seq<Fp>)
    ensures CheckPaths(h, root, HashColumns(h, columns), indices, paths) == Some(Ok(false))
            <==> exists k: nat :: Refused(h, root, Opening(paths, v, columns), indices, k)
    decreases |indices|
  {
    var o := Opening(paths, v, columns);
    if indices != [] && columns != [] && paths != [] {
      assert HashColumns(h, columns)[1..] == HashColumns(h, columns[1..]);
      var o' := Opening(paths[1..], v, columns[1..]);
      PathsRefuse(h, root, columns[1..], indices[1..], paths[1..], v);
      if PathOk(h, root, o, indices, 0) {
        forall k: nat ensures Refused(h, root, o, indices, k + 1) <==> Refused(h, root, o', indices[1..], k) {
          RefusedLater(h, root, o, indices, k);
        }
        assert !Refused(h, root, o, indices, 0);
        if k: nat :| Refused(h, root, o, indices, k) { assert k > 0 && Refused(h, root, o', indices[1..], k - 1); }
        if k: nat :| Refused(h, root, o', indices[1..], k) { assert Refused(h, root, o, indices, k + 1); }
      } else {
        assert forall k: nat :: Refused(h, root, o, indices, k) ==> k == 0;
        if paths[0].leafIndex == indices[0] { assert Refused(h, root, o, indices, 0); }
      }
    }
  }

  lemma RefusedLater(h: Hashes, root: int, o: Opening, indices: seq<nat>, k: nat)
    requires indices != [] && o.columns != [] && o.paths != [] && PathOk(h, root, o, indices, 0)
    ensures Refused(h, root, o, indices, k + 1)
            <==> Refused(h, root, Opening(o.paths[1..], o.v, o.columns[1..]), indices[1..], k)
  {
    var o' := Opening(o.paths[1..], o.v, o.columns[1..]);
    forall i | 0 <= i < k && i + 1 < |indices|
      ensures PathOk(h, root, o, indices, i + 1) <==> PathOk(h, root, o', indices[1..], i)
    {
    }
    if Refused(h, root, o', indices[1..], k) {
      forall i | 0 <= i < k + 1 ensures PathOk(h, root, o, indices, i) {
        assert i > 0 ==> PathOk(h, root, o', indices[1..], i - 1);
      }
    }
    if Refused(h, root, o, indices, k + 1) {
      forall i | 0 <= i < k ensures PathOk(h, root, o', indices[1..], i) {
        assert PathOk(h, root, o, indices, i + 1);
      }
    }
  }

  // ----- several commitments

  /** Commitment i is accepted between the transcripts ts[i] and ts[i + 1]. */
  ghost predicate AcceptedInTurn(params: Params, comms: seq<Commitment>, point: seq<Fp>, values: seq<Fp>,
                                 proofs: seq<Proof>, ts: seq<Transcript>) {
    && |comms| == |values| && |comms| <= |proofs| && |ts| == |comms| + 1
    && forall i :: 0 <= i < |comms| ==>
         CheckOne(params, comms[i], point, values[i], proofs[i], ts[i]) == (Ok(true), ts[i + 1])
  }

  /** check accepts a list exactly if there is a proof for every commitment and each is accepted in
      turn, on the transcript that the one before it left. */
  lemma CheckDecidesAll(params: Params, comms: seq<Commitment>, point: seq<Fp>, values: seq<Fp>, proofs: seq<Proof>,
                        tr: Transcript, tr': Transcript)
    requires |comms| == |values|
    ensures CheckFrom(params, comms, point, values, proofs, tr) == Ok((true, tr'))
            <==> exists ts :: AcceptedInTurn(params, comms, point, values, proofs, ts) && ts[0] == tr
                              && ts[|comms|] == tr'
  {
    if CheckFrom(params, comms, point, values, proofs, tr) == Ok((true, tr')) {
      var ts := CheckedTurns(params, comms, point, values, proofs, tr, tr');
    }
    if ts :| AcceptedInTurn(params, comms, point, values, proofs, ts) && ts[0] == tr && ts[|comms|] == tr' {
      TurnsCheck(params, comms, point, values, proofs, ts);
    }
  }

  lemma {:induction false} CheckedTurns(params: Params, comms: seq<Commitment>, point: seq<Fp>, values: seq<Fp>,
                                        proofs: seq<Proof>, tr: Transcript, tr': Transcript)
    returns (ts: seq<Transcript>)
    requires |comms| == |values| && CheckFrom(params, comms, point, values, proofs, tr) == Ok((true, tr'))
    ensures AcceptedInTurn(params, comms, point, values, proofs, ts) && ts[0] == tr && ts[|comms|] == tr'
    decreases |comms|
  {
    ts := [tr];
    if comms != [] {
      var next := CheckOne(params, comms[0], point, values[0], proofs[0], tr).1;
      CheckStep(params, comms, point, values, proofs, tr, tr', next);
      var rest := CheckedTurns(params, comms[1..], point, values[1..], proofs[1..], next, tr');
      InTurnFirst(params, comms, point, values, proofs, tr, rest);
      ts := [tr] + rest;
    }
  }

  lemma {:induction false} TurnsCheck(params: Params, comms: seq<Commitment>, point: seq<Fp>, values: seq<Fp>,
                                      proofs: seq<Proof>, ts: seq<Transcript>)
    requires AcceptedInTurn(params, comms, point, values, proofs, ts)
    ensures CheckFrom(params, comms, point, values, proofs, ts[0]) == Ok((true, ts[|comms|]))
    decreases |comms|
  {
    if comms != [] {
      InTurnRest(params, comms, point, values, proofs, ts);
      assert ts[1..][|comms[1..]|] == ts[|comms|] && ts[1..][0] == ts[1];
      TurnsCheck(params, comms[1..], point, values[1..], proofs[1..], ts[1..]);
      CheckStep(params, comms, point, values, proofs, ts[0], ts[|comms|], ts[1]);
    }
  }

  lemma CheckStep(params: Params, comms: seq<Commitment>, point: seq<Fp>, values: seq<Fp>, proofs: seq<Proof>,
                  tr: Transcript, tr': Transcript, next: Transcript)
    requires |comms| == |values| && comms != [] && proofs != []
    requires next == CheckOne(params, comms[0], point, values[0], proofs[0], tr).1
    ensures CheckFrom(params, comms, point, values, proofs, tr) == Ok((true, tr'))
            <==> CheckOne(params, comms[0], point, values[0], proofs[0], tr) == (Ok(true), next)
                 && CheckFrom(params, comms[1..], point, values[1..], proofs[1..], next) == Ok((true, tr'))
  {
  }

  lemma {:induction false} InTurnFirst(params: Params, comms: seq<Commitment>, point: seq<Fp>, values: seq<Fp>,
                                       proofs: seq<Proof>, tr: Transcript, rest: seq<Transcript>)
    requires comms != [] && proofs != [] && |comms| == |values| && rest != []
    requires CheckOne(params, comms[0], point, values[0], proofs[0], tr) == (Ok(true), rest[0])
    requires AcceptedInTurn(params, comms[1..], point, values[1..], proofs[1..], rest)
    ensures AcceptedInTurn(params, comms, point, values, proofs, [tr] + rest)
  {
    var ts := [tr] + rest;
    forall i | 0 <= i < |comms|
      ensures CheckOne(params, comms[i], point, values[i], proofs[i], ts[i]) == (Ok(true), ts[i + 1])
    {
      if i > 0 {
        assert comms[i] == comms[1..][i - 1] && values[i] == values[1..][i - 1] && proofs[i] == proofs[1..][i - 1];
      }
    }
  }

  lemma {:induction false} InTurnRest(params: Params, comms: seq<Commitment>, point: seq<Fp>, values: seq<Fp>,
                                      proofs: seq<Proof>, ts: seq<Transcript>)
    requires comms != [] && AcceptedInTurn(params, comms, point, values, proofs, ts)
    ensures proofs != [] && AcceptedInTurn(params, comms[1..], point, values[1..], proofs[1..], ts[1..])
  {
    forall i | 0 <= i < |comms[1..]|
      ensures CheckOne(params, comms[1..][i], point, values[1..][i], proofs[1..][i], ts[1..][i])
              == (Ok(true), ts[1..][i + 1])
    {
      assert comms[i + 1] == comms[1..][i] && values[i + 1] == values[1..][i] && proofs[i + 1] == proofs[1..][i];
      assert ts[i + 1] == ts[1..][i] && ts[i + 2] == ts[1..][i + 1];
    }
  }

  // ----- commit and open

  /** Over a linear encoder every matrix with a row can be committed to. */
  lemma CommitExists(params: Params, coeffs: seq<Fp>, ext: nat)
    requires LinearEncoder(params.encode, params.dims(|coeffs|).1, ext)
    ensures CommitOne(params, coeffs).Some? <==> params.dims(|coeffs|).0 > 0
  {
    var (n, m) := params.dims(|coeffs|);
    var mat := FromFlat(n, m, Resize(coeffs, n * m));
    RowsEncode(params.encode, mat.entries, m, ext);
  }

  lemma {:induction false} RowsEncode(encode: Encoder, rows: seq<seq<Fp>>, m: nat, ext: nat)
    requires LinearEncoder(encode, m, ext) && forall i :: 0 <= i < |rows| ==> |rows[i]| == m
    ensures var r := EncodeRows(encode, rows);
            r.Some? && |r.value| == |rows| && forall i :: 0 <= i < |rows| ==> |r.value[i]| == ext
  {
    if rows != [] {
      assert EncodesTo(encode, rows[0], ext);
      RowsEncode(encode, rows[1..], m, ext);
    }
  }

  /** What was committed can be opened exactly if the field is large enough for a number of queries. */
  lemma OpenExists(params: Params, coeffs: seq<Fp>, comm: Commitment, st: State, point: seq<Fp>, tr: Transcript)
    requires HonestAt(params, coeffs, comm, st, point)
    ensures OpenOne(params, comm, st, point, tr).Ok? <==> params.queries(comm.nExtCols).Some?
    ensures OpenOne(params, comm, st, point, tr) != Panic
  {
    HonestState(params, coeffs, comm, st);
  }

  ghost predicate Queried(params: Params, comms: seq<Commitment>) {
    forall i :: 0 <= i < |comms| ==> params.queries(comms[i].nExtCols).Some?
  }

  lemma {:induction false} OpensExist(params: Params, polys: seq<seq<Fp>>, comms: seq<Commitment>, states: seq<State>,
                                      point: seq<Fp>, tr: Transcript)
    requires AllHonest(params, polys, comms, states, point) && AllShaped(states)
    ensures OpenFrom(params, comms, states, point, tr).Ok? <==> Queried(params, comms)
    decreases |comms|
  {
    if comms != [] {
      FirstOpens(params, polys, comms, states, point, tr);
      QueriedSplits(params, comms);
      if params.queries(comms[0].nExtCols).Some? {
        var next := OpenOne(params, comms[0], states[0], point, tr).value.1;
        RestHonest(params, polys, comms, states, point);
        OpensExist(params, polys[1..], comms[1..], states[1..], point, next);
      }
    }
  }

  lemma {:induction false} QueriedSplits(params: Params, comms: seq<Commitment>)
    requires comms != []
    ensures Queried(params, comms) <==> params.queries(comms[0].nExtCols).Some? && Queried(params, comms[1..])
  {
    assert forall i :: 0 < i < |comms| ==> comms[i] == comms[1..][i - 1];
    assert forall i :: 0 <= i < |comms[1..]| ==> comms[1..][i] == comms[i + 1];
  }

  lemma FirstOpens(params: Params, polys: seq<seq<Fp>>, comms: seq<Commitment>, states: seq<State>, point: seq<Fp>,
                   tr: Transcript)
    requires AllHonest(params, polys, comms, states, point) && AllShaped(states) && comms != []
    ensures AllShaped(states[1..])
    ensures var first := OpenOne(params, comms[0], states[0], point, tr);
            && (first.Ok? <==> params.queries(comms[0].nExtCols).Some?)
            && (first.Ok? ==> (OpenFrom(params, comms, states, point, tr).Ok?
                               <==> OpenFrom(params, comms[1..], states[1..], point, first.value.1).Ok?))
            && (!first.Ok? ==> !OpenFrom(params, comms, states, point, tr).Ok?)
  {
    assert HonestAt(params, polys[0], comms[0], states[0], point);
    OpenExists(params, polys[0], comms[0], states[0], point, tr);
    assert forall i :: 0 <= i < |states[1..]| ==> states[1..][i] == states[i + 1];
  }
}
