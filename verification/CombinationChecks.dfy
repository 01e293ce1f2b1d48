/** Opening and checking linear combinations over any scheme (lib.rs): the prover sends the
    evaluations as one list without keys, and the verifier pairs them with keys again. */
module CombinationChecks {
  import opened PrimeField
  import opened OrderedSets
  import opened QueryBatches
  import opened LinearCombinations

  datatype BatchLCProof<Proof> = BatchLCProof(proof: seq<Proof>, evals: Option<seq<Fp>>)

  // ----- the prover's and the verifier's order

  function Queries(rows: Rows): set<Query>
    requires AllLong(rows, 3)
  {
    set r | r in rows :: Query(r[0], r[1], r[2])
  }

  function KeyRows(rows: Rows): (r: Rows)
    requires AllLong(rows, 3)
    ensures |r| == |rows| && forall i :: 0 <= i < |r| ==> rows[i] in rows && r[i] == [rows[i][0], rows[i][2]]
  {
    seq(|rows|, i requires 0 <= i < |rows| => assert rows[i] in rows; [rows[i][0], rows[i][2]])
  }

  function TripleRows(rows: Rows): (r: Rows)
    requires AllLong(rows, 3)
    ensures |r| == |rows| && forall i :: 0 <= i < |r| ==>
              rows[i] in rows && r[i] == [rows[i][0], rows[i][2], rows[i][1]]
  {
    seq(|rows|, i requires 0 <= i < |rows| => assert rows[i] in rows; [rows[i][0], rows[i][2], rows[i][1]])
  }

  lemma KeysAre(rows: Rows)
    requires AllLong(rows, 3)
    ensures AreKeys(Collected(KeyRows(rows)), Queries(rows))
  {
    var listed, keys := KeyRows(rows), Collected(KeyRows(rows));
    CollectedIs(listed, 2);
    forall q | q in Queries(rows) ensures [q.poly, q.point] in keys {
      var r :| r in rows && q == Query(r[0], r[1], r[2]);
      var i :| 0 <= i < |rows| && rows[i] == r;
      assert listed[i] == [q.poly, q.point];
    }
    forall k | k in keys ensures exists q :: q in Queries(rows) && k == [q.poly, q.point] {
      var i :| 0 <= i < |listed| && listed[i] == k;
      var q := Query(rows[i][0], rows[i][1], rows[i][2]);
      assert rows[i] in rows && q in Queries(rows);
    }
  }

  lemma TriplesAre(rows: Rows)
    requires AllLong(rows, 3)
    ensures AreTriples(Collected(TripleRows(rows)), Queries(rows))
  {
    var listed, triples := TripleRows(rows), Collected(TripleRows(rows));
    CollectedIs(listed, 3);
    forall q | q in Queries(rows) ensures [q.poly, q.point, q.pointLabel] in triples {
      var r :| r in rows && q == Query(r[0], r[1], r[2]);
      var i :| 0 <= i < |rows| && rows[i] == r;
      assert listed[i] == [q.poly, q.point, q.pointLabel];
    }
    forall t | t in triples ensures exists q :: q in Queries(rows) && t == [q.poly, q.point, q.pointLabel] {
      var i :| 0 <= i < |listed| && listed[i] == t;
      var q := Query(rows[i][0], rows[i][1], rows[i][2]);
      assert rows[i] in rows && q in Queries(rows);
    }
  }

  /** The map holds the true value under every key. */
  ghost predicate HoldsValues(keys: Rows, evals: Evaluations, value: Values) {
    && (forall k :: k in evals <==> k in keys)
    && (forall k :: k in evals ==> |k| == 2 && evals[k] == value(k[0], k[1]))
  }

  /** One insertion into the map. */
  method InsertValue(keys: Rows, evals: Evaluations, q: seq<int>, value: Values) returns (keys': Rows,
                                                                                          evals': Evaluations)
    requires |q| == 3 && HoldsValues(keys, evals, value)
    ensures keys' == Insert(keys, [q[0], q[2]]) && HoldsValues(keys', evals', value)
  {
    keys', evals' := Insert(keys, [q[0], q[2]]), evals[[q[0], q[2]] := value(q[0], q[2])];
    InsertHasAll(keys, [q[0], q[2]]);
  }

  lemma CollectedNext(rows: Rows, i: nat)
    requires AllLong(rows, 3) && i < |rows| && |rows[i]| == 3
    ensures Collected(KeyRows(rows)[..i + 1]) == Insert(Collected(KeyRows(rows)[..i]), [rows[i][0], rows[i][2]])
  {
    var listed := KeyRows(rows);
    assert listed[..i + 1][..i] == listed[..i] && listed[..i + 1][i] == [rows[i][0], rows[i][2]];
  }

  /** The first n queries name polynomials that are there. */
  predicate Known(rows: Rows, known: set<int>, n: nat)
    requires n <= |rows|
  {
    n == 0 || (Known(rows, known, n - 1) && rows[n - 1] != [] && rows[n - 1][0] in known)
  }

  lemma {:induction false} UnknownStays(rows: Rows, known: set<int>, m: nat, n: nat)
    requires m <= n <= |rows| && !Known(rows, known, m)
    ensures !Known(rows, known, n)
  {
    if m < n { UnknownStays(rows, known, m, n - 1); }
  }

  /** evaluate_query_set, with the keys in the order of the map that it fills; a query of an
      unknown polynomial panics. */
  method EvaluateQuerySet(rows: Rows, known: set<int>, value: Values) returns (r: Outcome<(Rows, Evaluations)>)
    requires AllLong(rows, 3)
    ensures r.Ok? <==> Known(rows, known, |rows|)
    ensures r != Err
    ensures r.Ok? ==> r.value.0 == Collected(KeyRows(rows)) && HoldsValues(r.value.0, r.value.1, value)
  {
    var keys, evals: Evaluations := [], map[];
    for i := 0 to |rows|
      invariant keys == Collected(KeyRows(rows)[..i]) && HoldsValues(keys, evals, value)
      invariant Known(rows, known, i)
    {
      var q := rows[i];
      assert q in rows;
      if q[0] !in known {
        UnknownStays(rows, known, i + 1, |rows|);
        return Panic;
      }
      CollectedNext(rows, i);
      keys, evals := InsertValue(keys, evals, q, value);
    }
    assert KeyRows(rows)[..|rows|] == KeyRows(rows);
    return Ok((keys, evals));
  }

  // ----- open_combinations

  function KeysOf(lcs: map<int, Combination>, queries: Rows): (r: Rows)
    requires AllLong(queries, 3)
    ensures forall k :: k in r ==> |k| == 2
  {
    PolyRowsAre(lcs, queries, |queries|);
    var rows := PolyRows(lcs, queries, |queries|);
    KeysAre(rows);
    KeysLong(Collected(KeyRows(rows)), Queries(rows));
    Collected(KeyRows(rows))
  }

  function OpenedCombinations<Proof, Sponge>(scheme: Scheme<Proof, Sponge>, known: set<int>, lcs: map<int, Combination>,
                                             queries: Rows, value: Values, s: Sponge)
      : Outcome<(BatchLCProof<Proof>, Sponge)>
    requires AllLong(queries, 3)
  {
    PolyRowsAre(lcs, queries, |queries|);
    var rows := PolyRows(lcs, queries, |queries|);
    if !Known(rows, known, |rows|) then Panic
    else
      match OpenedUpTo(scheme, known, Groups(rows), |Groups(rows)|, s)
      case Err => Err
      case Panic => Panic
      case Ok(next) => Ok((BatchLCProof(next.0, Some(Flattened(KeysOf(lcs, queries), value))), next.1))
  }

  method OpenCombinations<Proof, Sponge>(scheme: Scheme<Proof, Sponge>, known: set<int>, lcs: map<int, Combination>,
                                         queries: Rows, value: Values, sponge: Sponge)
    returns (r: Outcome<(BatchLCProof<Proof>, Sponge)>)
    requires AllLong(queries, 3)
    ensures r == OpenedCombinations(scheme, known, lcs, queries, value, sponge)
  {
    var rows := LcQuerySetToPolyQuerySet(lcs, queries);
    PolyRowsAre(lcs, queries, |queries|);
    var evaluated := EvaluateQuerySet(rows, known, value);
    if evaluated.Panic? { return Panic; }
    var keys, evals := evaluated.value.0, evaluated.value.1;
    var opened' := BatchOpen(scheme, known, rows, sponge);
    match opened' {
      case Err => return Err;
      case Panic => return Panic;
      case Ok(next) =>
        var list := seq(|keys|, i requires 0 <= i < |keys| => assert keys[i] in keys; evals[keys[i]]);
        assert list == Flattened(KeysOf(lcs, queries), value);
        return Ok((BatchLCProof(next.0, Some(list)), next.1));
    }
  }

  // ----- check_combinations

  function PolyEvals(rows: Rows, evals: seq<Fp>): Evaluations
    requires AllLong(rows, 3)
  {
    TriplesAre(rows);
    TriplesLong(Collected(TripleRows(rows)), Queries(rows));
    Zipped(Prefixes(Collected(TripleRows(rows))), evals)
  }

  function CheckedCombinations<Proof, Sponge>(scheme: Scheme<Proof, Sponge>, known: set<int>,
                                              lcs: map<int, Combination>, queries: Rows, claimed: Evaluations,
                                              proof: BatchLCProof<Proof>, s: Sponge)
      : Outcome<bool>
    requires AllLong(queries, 3)
  {
    PolyRowsAre(lcs, queries, |queries|);
    var rows := PolyRows(lcs, queries, |queries|);
    if proof.evals.None? then Panic
    else
      var evals := PolyEvals(rows, proof.evals.value);
      var equations := EquationsUpTo(lcs, queries, |queries|, claimed, evals);
      if equations != Ok(true) then equations
      else
        match BatchChecked(scheme, known, rows, evals, proof.proof, s)
        case Err => Err
        case Panic => Panic
        case Ok(next) => Ok(next.0)
  }

  method CheckCombinations<Proof, Sponge>(scheme: Scheme<Proof, Sponge>, known: set<int>, lcs: map<int, Combination>,
                                          queries: Rows, claimed: Evaluations, proof: BatchLCProof<Proof>,
                                          sponge: Sponge)
    returns (r: Outcome<bool>)
    requires AllLong(queries, 3)
    ensures r == CheckedCombinations(scheme, known, lcs, queries, claimed, proof, sponge)
  {
    var rows := LcQuerySetToPolyQuerySet(lcs, queries);
    PolyRowsAre(lcs, queries, |queries|);
    if proof.evals.None? { return Panic; }
    var evals := PolyEvals(rows, proof.evals.value);
    var equations := CheckEquations(lcs, queries, claimed, evals);
    if equations != Ok(true) { return equations; }
    var pcResult := BatchCheck(scheme, known, rows, evals, proof.proof, sponge);
    match pcResult {
      case Err => return Err;
      case Panic => return Panic;
      case Ok(next) => return Ok(next.0);
    }
  }

  // ----- completeness

  /** Every claimed value is that of its combination. */
  ghost predicate AllTrue(lcs: map<int, Combination>, queries: Rows, n: nat, claimed: Evaluations, value: Values)
    requires AllLong(queries, 3) && n <= |queries|
  {
    forall i :: 0 <= i < n ==> TrueClaim(lcs, queries[i], claimed, value)
  }

  ghost predicate TrueClaim(lcs: map<int, Combination>, q: seq<int>, claimed: Evaluations, value: Values) {
    |q| == 3 && q[0] in lcs ==>
      [q[0], q[2]] in claimed && claimed[[q[0], q[2]]] == TrueSum(lcs[q[0]], |lcs[q[0]]|, q[2], value)
  }

  ghost predicate AllClaimed(lcs: map<int, Combination>, queries: Rows, claimed: Evaluations)
    requires AllLong(queries, 3)
  {
    forall q :: q in queries && q[0] in lcs ==> [q[0], q[2]] in claimed
  }

  /** The verifier finds the true value for every polynomial and point that it needs. */
  ghost predicate ReadsTrue(rows: Rows, evals: seq<Fp>, value: Values)
    requires AllLong(rows, 3)
  {
    forall r :: r in rows ==> TrueAt(PolyEvals(rows, evals), value, r[0], r[2])
  }

  /** For what the prover sends this is the pairing of keys and evaluations. */
  lemma ReadsTrueIff(rows: Rows, value: Values)
    requires AllLong(rows, 3)
    ensures var keys, triples := Collected(KeyRows(rows)), Collected(TripleRows(rows));
            && AllTriples(triples) && (forall k :: k in keys ==> |k| == 2)
            && (ReadsTrue(rows, Flattened(keys, value), value) <==> Paired(keys, triples, value))
  {
    var queries, keys, triples := Queries(rows), Collected(KeyRows(rows)), Collected(TripleRows(rows));
    KeysAre(rows);
    TriplesAre(rows);
    KeysLong(keys, queries);
    TriplesLong(triples, queries);
    var evals := PolyEvals(rows, Flattened(keys, value));
    if Paired(keys, triples, value) {
      forall r | r in rows ensures TrueAt(evals, value, r[0], r[2]) {
        var q := Query(r[0], r[1], r[2]);
        assert q in queries;
        var k := [q.poly, q.point];
        assert k in keys && k[0] == r[0] && k[1] == r[2];
      }
    }
    if ReadsTrue(rows, Flattened(keys, value), value) {
      forall k | k in keys ensures k in evals && evals[k] == value(k[0], k[1]) {
        var q :| q in queries && k == [q.poly, q.point];
        var r :| r in rows && q == Query(r[0], r[1], r[2]);
        assert TrueAt(evals, value, r[0], r[2]);
      }
    }
  }

  /** What the honest evaluations pair up to. */
  lemma PairedTrue(rows: Rows, value: Values)
    requires AllLong(rows, 3) && RepeatsOnlyLast(Queries(rows))
    ensures forall k :: k in Collected(KeyRows(rows)) ==> |k| == 2
    ensures ReadsTrue(rows, Flattened(Collected(KeyRows(rows)), value), value)
  {
    KeysAre(rows);
    TriplesAre(rows);
    ReadsTrueIff(rows, value);
    PairedIff(Queries(rows), Collected(KeyRows(rows)), Collected(TripleRows(rows)));
    assert Paired(Collected(KeyRows(rows)), Collected(TripleRows(rows)), value);
  }

  lemma {:induction false} EquationsAre(lcs: map<int, Combination>, queries: Rows, n: nat, claimed: Evaluations,
                                        evals: Evaluations, value: Values)
    requires AllLong(queries, 3) && n <= |queries| && AllClaimed(lcs, queries, claimed)
    requires AllLong(PolyRows(lcs, queries, |queries|), 3)
    requires forall r :: r in PolyRows(lcs, queries, |queries|) ==> TrueAt(evals, value, r[0], r[2])
    ensures EquationsUpTo(lcs, queries, n, claimed, evals) == Ok(AllTrue(lcs, queries, n, claimed, value))
  {
    if n > 0 {
      EquationsAre(lcs, queries, n - 1, claimed, evals, value);
      assert queries[n - 1] in queries;
      var q := queries[n - 1];
      if q[0] in lcs {
        var lc := lcs[q[0]];
        forall p | Mentions(lc, |lc|, p) ensures TrueAt(evals, value, p, q[2]) {
          MentionedRow(lcs, queries, n - 1, p);
          var r := [p, q[1], q[2]];
          assert r in PolyRows(lcs, queries, |queries|) && r[0] == p && r[2] == q[2];
        }
        ActualIsTrue(lc, |lc|, q[2], evals, value);
      }
      assert AllTrue(lcs, queries, n, claimed, value)
        <==> AllTrue(lcs, queries, n - 1, claimed, value) && TrueClaim(lcs, q, claimed, value);
    }
  }

  lemma MentionedRow(lcs: map<int, Combination>, queries: Rows, i: nat, p: int)
    requires AllLong(queries, 3) && i < |queries| && queries[i] in queries && queries[i][0] in lcs
    requires Mentions(lcs[queries[i][0]], |lcs[queries[i][0]]|, p)
    ensures [p, queries[i][1], queries[i][2]] in PolyRows(lcs, queries, |queries|)
  {
    var x := [p, queries[i][1], queries[i][2]];
    PolyRowsAre(lcs, queries, |queries|);
    assert x[0] == p && x[1] == queries[i][1] && x[2] == queries[i][2];
    assert Needs(lcs, queries, i, x);
    assert AskedBy(lcs, queries, |queries|, x);
  }

  /** Over a complete scheme, and where the verifier reads the true values, check_combinations accepts
      exactly the true values of the combinations from what open_combinations returned. */
  lemma ReadExactly<Proof, Sponge(!new)>(
      scheme: Scheme<Proof, Sponge>, known: set<int>, lcs: map<int, Combination>, queries: Rows, claimed: Evaluations,
      value: Values, proof: BatchLCProof<Proof>, s: Sponge, s': Sponge)
    requires AllLong(queries, 3) && AllClaimed(lcs, queries, claimed) && Complete(scheme, value)
    requires var rows := PolyRows(lcs, queries, |queries|);
             AllLong(rows, 3) && OnePoint(rows) && ReadsTrue(rows, Flattened(KeysOf(lcs, queries), value), value)
    requires OpenedCombinations(scheme, known, lcs, queries, value, s) == Ok((proof, s'))
    ensures CheckedCombinations(scheme, known, lcs, queries, claimed, proof, s)
            == Ok(AllTrue(lcs, queries, |queries|, claimed, value))
  {
    var rows := PolyRows(lcs, queries, |queries|);
    var evals := PolyEvals(rows, proof.evals.value);
    EquationsAre(lcs, queries, |queries|, claimed, evals, value);
    BatchAccepted(scheme, known, rows, evals, value, proof.proof, s, s');
  }

  /** That is so when every point label stands for one point and no polynomial but the greatest
      queried pair is asked for at one point under several labels. */
  lemma CombinationsExactly<Proof, Sponge(!new)>(
      scheme: Scheme<Proof, Sponge>, known: set<int>, lcs: map<int, Combination>, queries: Rows, claimed: Evaluations,
      value: Values, proof: BatchLCProof<Proof>, s: Sponge, s': Sponge)
    requires AllLong(queries, 3) && AllClaimed(lcs, queries, claimed) && Complete(scheme, value)
    requires var rows := PolyRows(lcs, queries, |queries|);
             AllLong(rows, 3) && OnePoint(rows) && RepeatsOnlyLast(Queries(rows))
    requires OpenedCombinations(scheme, known, lcs, queries, value, s) == Ok((proof, s'))
    ensures CheckedCombinations(scheme, known, lcs, queries, claimed, proof, s)
            == Ok(AllTrue(lcs, queries, |queries|, claimed, value))
  {
    var rows := PolyRows(lcs, queries, |queries|);
    PairedTrue(rows, value);
    assert KeysOf(lcs, queries) == Collected(KeyRows(rows));
    ReadExactly(scheme, known, lcs, queries, claimed, value, proof, s, s');
  }

  // ----- schemes that accept nothing but the true values

  /** check accepts what open returned with exactly the true values. */
  ghost predicate ExactAt<Proof, Sponge>(scheme: Scheme<Proof, Sponge>, value: Values, k: nat, polys: seq<int>,
                                         point: int, s: Sponge, values: seq<Fp>)
  {
    match scheme.open(k, polys, point, s)
    case Err => true
    case Panic => true
    case Ok(answer) =>
      |values| == |polys| ==>
        var r := scheme.check(k, polys, point, values, answer.0, s);
        && r.Ok? && (r.value.0 <==> values == TrueValues(polys, point, value))
        && (r.value.0 ==> r.value.1 == answer.1)
  }

  ghost predicate Exact<Proof, Sponge(!new)>(scheme: Scheme<Proof, Sponge>, value: Values) {
    forall k: nat, polys, point, s, values :: ExactAt(scheme, value, k, polys, point, s, values)
  }

  lemma ExactIsComplete<Proof, Sponge(!new)>(scheme: Scheme<Proof, Sponge>, value: Values)
    requires Exact(scheme, value)
    ensures Complete(scheme, value)
  {
    forall k: nat, polys, point, s ensures Accepted(scheme, value, k, polys, point, s) {
      assert ExactAt(scheme, value, k, polys, point, s, TrueValues(polys, point, value));
    }
  }

  ghost predicate GroupTrue(g: Group, evals: Evaluations, value: Values) {
    forall p :: p in g.polys ==> TrueAt(evals, value, p, g.point)
  }

  lemma ClaimsAreTrue(g: Group, known: set<int>, evals: Evaluations, value: Values)
    requires Claims(g.polys, g.point, known, evals) == Ok(TrueValues(g.polys, g.point, value))
    ensures GroupTrue(g, evals, value)
  {
    forall p | p in g.polys ensures TrueAt(evals, value, p, g.point) {
      var i :| 0 <= i < |g.polys| && g.polys[i] == p;
      assert Claims(g.polys, g.point, known, evals).value[i] == TrueValues(g.polys, g.point, value)[i];
    }
  }

  /** If the groups are accepted, the values read for them are the true ones. */
  lemma {:induction false} AcceptedIsTrue<Proof, Sponge(!new)>(
      scheme: Scheme<Proof, Sponge>, known: set<int>, gs: seq<Group>, evals: Evaluations, value: Values,
      proofs: seq<Proof>, n: nat, s: Sponge)
    requires Exact(scheme, value) && n <= |gs| == |proofs|
    requires OpenedUpTo(scheme, known, gs, n, s).Ok? && OpenedUpTo(scheme, known, gs, n, s).value.0 == proofs[..n]
    requires CheckedUpTo(scheme, known, gs, evals, proofs, n, s).Ok?
    requires CheckedUpTo(scheme, known, gs, evals, proofs, n, s).value.0
    ensures CheckedUpTo(scheme, known, gs, evals, proofs, n, s).value.1 == OpenedUpTo(scheme, known, gs, n, s).value.1
    ensures forall i :: 0 <= i < n ==> GroupTrue(gs[i], evals, value)
  {
    if n > 0 {
      var before := OpenedUpTo(scheme, known, gs, n - 1, s).value;
      assert proofs[..n][..n - 1] == proofs[..n - 1];
      AcceptedIsTrue(scheme, known, gs, evals, value, proofs, n - 1, s);
      var g := gs[n - 1];
      assert proofs[..n][n - 1] == proofs[n - 1];
      assert ExactAt(scheme, value, n - 1, g.polys, g.point, before.1, Claims(g.polys, g.point, known, evals).value);
      ClaimsAreTrue(g, known, evals, value);
    }
  }

  /** Over an exact scheme check_combinations accepts true claims exactly if the verifier reads the true
      values. */
  lemma AcceptedIffRead<Proof, Sponge(!new)>(
      scheme: Scheme<Proof, Sponge>, known: set<int>, lcs: map<int, Combination>, queries: Rows, claimed: Evaluations,
      value: Values, proof: BatchLCProof<Proof>, s: Sponge, s': Sponge)
    requires AllLong(queries, 3) && AllClaimed(lcs, queries, claimed) && Exact(scheme, value)
    requires AllTrue(lcs, queries, |queries|, claimed, value)
    requires AllLong(PolyRows(lcs, queries, |queries|), 3) && OnePoint(PolyRows(lcs, queries, |queries|))
    requires OpenedCombinations(scheme, known, lcs, queries, value, s) == Ok((proof, s'))
    ensures CheckedCombinations(scheme, known, lcs, queries, claimed, proof, s) == Ok(true)
            <==> ReadsTrue(PolyRows(lcs, queries, |queries|), Flattened(KeysOf(lcs, queries), value), value)
  {
    var rows := PolyRows(lcs, queries, |queries|);
    var read := Flattened(KeysOf(lcs, queries), value);
    if ReadsTrue(rows, read, value) {
      ExactIsComplete(scheme, value);
      ReadExactly(scheme, known, lcs, queries, claimed, value, proof, s, s');
    }
    if CheckedCombinations(scheme, known, lcs, queries, claimed, proof, s) == Ok(true) {
      CheckedReadsTrue(scheme, known, rows, PolyEvals(rows, read), value, proof.proof, s);
    }
  }

  lemma CheckedReadsTrue<Proof, Sponge(!new)>(scheme: Scheme<Proof, Sponge>, known: set<int>, rows: Rows,
                                              evals: Evaluations, value: Values, proofs: seq<Proof>, s: Sponge)
    requires AllLong(rows, 3) && OnePoint(rows) && Exact(scheme, value)
    requires OpenedUpTo(scheme, known, Groups(rows), |Groups(rows)|, s).Ok?
    requires OpenedUpTo(scheme, known, Groups(rows), |Groups(rows)|, s).value.0 == proofs
    requires BatchChecked(scheme, known, rows, evals, proofs, s).Ok?
    requires BatchChecked(scheme, known, rows, evals, proofs, s).value.0
    ensures forall r :: r in rows ==> TrueAt(evals, value, r[0], r[2])
  {
    var gs := Groups(rows);
    assert proofs[..|gs|] == proofs;
    AcceptedIsTrue(scheme, known, gs, evals, value, proofs, |gs|, s);
    forall r | r in rows ensures TrueAt(evals, value, r[0], r[2]) {
      GroupsAsk(rows, r[0], r[1]);
      assert HasRow(rows, r[0], r[1]);
      var g :| g in gs && g.pointLabel == r[1] && r[0] in g.polys;
      GroupsPlaced(rows, g);
      assert GroupTrue(g, evals, value);
    }
  }
}
