/** For which query sets linear combinations over a univariate linear code are complete (lib.rs,
    linear_codes/univariate_ligero/mod.rs): exactly those in which no polynomial but the greatest
    queried pair is asked for at one point under several labels. */
module LinearCodeQueries {
  import opened PrimeField
  import opened Polynomials
  import opened LinearCodes
  import opened LinearCodePCS
  import opened LinearCodeCompleteness
  import opened LinearCodeBatches
  import C = CombinationChecks
  import L = LinearCombinations
  import O = OrderedSets
  import Q = QueryBatches

  // ----- check accepts exactly the true values

  lemma {:induction false} LinearCodeIsExact(params: Params, store: Store, value: Q.Values)
    requires AreValues(params, store, value)
    ensures C.Exact(LinearCodeScheme(params, store), value)
  {
    var scheme := LinearCodeScheme(params, store);
    forall k: nat, polys, point, tr, values ensures C.ExactAt(scheme, value, k, polys, point, tr, values) {
      var r := OpenGroup(params, store, polys, point, tr);
      if r.Ok? && |values| == |polys| {
        GroupExactly(params, store, value, polys, point, tr, r.value.0, r.value.1, values);
      }
    }
  }

  lemma {:induction false} GroupExactly(params: Params, store: Store, value: Q.Values, polys: seq<int>, point: int,
                                        tr: Transcript, proofs: seq<Proof>, tr': Transcript, values: seq<Fp>)
    requires AreValues(params, store, value) && OpenGroup(params, store, polys, point, tr) == Ok((proofs, tr'))
    requires |values| == |polys|
    ensures var r := CheckGroup(params, store, polys, point, values, proofs, tr);
            && r.Ok? && (r.value.0 <==> values == L.TrueValues(polys, point, value)) && (r.value.0 ==> r.value.1 == tr')
  {
    var comms, states, at := Comms(store, polys), States(store, polys), store.at(point);
    forall i | 0 <= i < |comms|
      ensures HonestAt(params, Polys(store, polys)[i], comms[i], states[i], at)
      ensures TrueAt(params, comms[i], states[i], at, values[i])
              <==> values[i] == L.TrueValues(polys, point, value)[i]
    {
      var p := polys[i];
      assert HonestAt(params, store.coeffs(p), store.comm(p), store.state(p), store.at(point));
      assert value(p, point) == ValueOf(params, store, p, point);
    }
    OpeningsAccepted(params, Polys(store, polys), comms, states, at, values, tr, proofs, tr');
    AllTrueIsEqual(params, comms, states, at, values, L.TrueValues(polys, point, value));
  }

  lemma {:induction false} AllTrueIsEqual(params: Params, comms: seq<Commitment>, states: seq<State>, at: seq<Fp>,
                                          values: seq<Fp>, expected: seq<Fp>)
    requires |comms| == |states| == |values| == |expected|
    requires forall i :: 0 <= i < |comms| ==>
               (TrueAt(params, comms[i], states[i], at, values[i]) <==> values[i] == expected[i])
    ensures AllTrue(params, comms, states, at, values) <==> values == expected
  {
    if values == expected {
      forall i | 0 <= i < |comms| ensures TrueAt(params, comms[i], states[i], at, values[i]) {
      }
    }
    if AllTrue(params, comms, states, at, values) {
      forall i | 0 <= i < |values| ensures values[i] == expected[i] {
        assert TrueAt(params, comms[i], states[i], at, values[i]);
      }
    }
  }

  // ----- openings succeed

  /** Polynomial f can be committed and opened at this point, with the univariate tensor. */
  ghost predicate Opens(params: Params, f: seq<Fp>, point: seq<Fp>) {
    point != [] && CommitOne(params, f).Some?
    && var (comm, st) := CommitOne(params, f).value;
       && HonestAt(params, f, comm, st, point) && params.queries(comm.nExtCols).Some?
       && |f| <= comm.nRows * comm.nCols
       && params.tensor(point, comm.nCols, comm.nRows) == LigeroTensor(point, comm.nCols, comm.nRows)
  }

  lemma {:induction false} OneOpens(params: Params, f: seq<Fp>, point: seq<Fp>, tr: Transcript)
    requires Opens(params, f, point)
    ensures var (comm, st) := CommitOne(params, f).value; OpenOne(params, comm, st, point, tr).Ok?
  {
    var (comm, st) := CommitOne(params, f).value;
    HonestState(params, f, comm, st);
  }

  /** What was committed for this polynomial. */
  ghost predicate IsCommitted(params: Params, f: seq<Fp>, comm: Commitment, st: State, point: seq<Fp>) {
    Opens(params, f, point) && CommitOne(params, f) == Some((comm, st)) && Shaped(st.mat) && Shaped(st.ext)
  }

  ghost predicate AllCommitted(params: Params, fs: seq<seq<Fp>>, comms: seq<Commitment>, states: seq<State>,
                               point: seq<Fp>) {
    && |comms| == |states| == |fs|
    && forall i :: 0 <= i < |fs| ==> IsCommitted(params, fs[i], comms[i], states[i], point)
  }

  lemma {:induction false} RestCommitted(params: Params, fs: seq<seq<Fp>>, comms: seq<Commitment>, states: seq<State>,
                                         point: seq<Fp>)
    requires AllCommitted(params, fs, comms, states, point)
    ensures AllShaped(states)
    ensures fs != [] ==> AllCommitted(params, fs[1..], comms[1..], states[1..], point)
  {
    forall i | 0 <= i < |states| ensures Shaped(states[i].mat) && Shaped(states[i].ext) {
      assert IsCommitted(params, fs[i], comms[i], states[i], point);
    }
    forall i | 0 <= i < |fs| - 1 ensures IsCommitted(params, fs[1..][i], comms[1..][i], states[1..][i], point) {
      assert IsCommitted(params, fs[i + 1], comms[i + 1], states[i + 1], point);
    }
  }

  lemma {:induction false} AllOpen(params: Params, comms: seq<Commitment>, states: seq<State>, fs: seq<seq<Fp>>,
                                   point: seq<Fp>, tr: Transcript)
    requires AllCommitted(params, fs, comms, states, point)
    ensures AllShaped(states) && OpenFrom(params, comms, states, point, tr).Ok?
    decreases |comms|
  {
    RestCommitted(params, fs, comms, states, point);
    if comms != [] {
      assert IsCommitted(params, fs[0], comms[0], states[0], point);
      OneOpens(params, fs[0], point, tr);
      AllOpen(params, comms[1..], states[1..], fs[1..], point,
              OpenOne(params, comms[0], states[0], point, tr).value.1);
    }
  }

  /** The store of these polynomials at these points. */
  function StoreOf(params: Params, coeffs: int -> seq<Fp>, at: int -> seq<Fp>): Store {
    Store(coeffs, p => CommOf(params, coeffs(p)), p => StateOf(params, coeffs(p)), at)
  }

  function CommOf(params: Params, f: seq<Fp>): Commitment {
    match CommitOne(params, f)
    case None => Commitment(0, 0, 0, 0)
    case Some((comm, st)) => comm
  }

  function StateOf(params: Params, f: seq<Fp>): State {
    match CommitOne(params, f)
    case None => State(Matrix(0, 0, []), Matrix(0, 0, []), [])
    case Some((comm, st)) => st
  }

  ghost predicate AllOpenable(params: Params, coeffs: int -> seq<Fp>, at: int -> seq<Fp>) {
    forall p, x :: Opens(params, coeffs(p), at(x))
  }

  /** The value of polynomial p at point x. */
  function ValuesOf(coeffs: int -> seq<Fp>, at: int -> seq<Fp>): Q.Values {
    (p: int, x: int) => if at(x) == [] then 0 else Eval(coeffs(p), at(x)[0])
  }

  lemma {:induction false} StoreHasValues(params: Params, coeffs: int -> seq<Fp>, at: int -> seq<Fp>)
    requires AllOpenable(params, coeffs, at)
    ensures AreValues(params, StoreOf(params, coeffs, at), ValuesOf(coeffs, at))
  {
    var store, value := StoreOf(params, coeffs, at), ValuesOf(coeffs, at);
    forall p, x ensures HonestAt(params, store.coeffs(p), store.comm(p), store.state(p), store.at(x)) {
      assert Opens(params, coeffs(p), at(x));
    }
    forall p, x ensures value(p, x) == ValueOf(params, store, p, x) {
      assert Opens(params, coeffs(p), at(x));
      UnivariateTensorValue(params, coeffs(p), store.comm(p), store.state(p), at(x));
    }
  }

  lemma {:induction false} StoreCommitted(params: Params, coeffs: int -> seq<Fp>, at: int -> seq<Fp>, p: int, x: int)
    requires AllOpenable(params, coeffs, at)
    ensures IsCommitted(params, coeffs(p), CommOf(params, coeffs(p)), StateOf(params, coeffs(p)), at(x))
  {
    assert Opens(params, coeffs(p), at(x));
  }

  lemma {:induction false} GroupOpens(params: Params, coeffs: int -> seq<Fp>, at: int -> seq<Fp>, polys: seq<int>,
                                      x: int, tr: Transcript)
    requires AllOpenable(params, coeffs, at)
    ensures OpenGroup(params, StoreOf(params, coeffs, at), polys, x, tr).Ok?
  {
    var store := StoreOf(params, coeffs, at);
    var comms, states, fs := Comms(store, polys), States(store, polys), Polys(store, polys);
    forall i | 0 <= i < |polys| ensures IsCommitted(params, fs[i], comms[i], states[i], at(x)) {
      StoreCommitted(params, coeffs, at, polys[i], x);
    }
    AllOpen(params, comms, states, fs, at(x), tr);
  }

  lemma {:induction false} GroupsOpen(params: Params, coeffs: int -> seq<Fp>, at: int -> seq<Fp>, known: set<int>,
                                      gs: seq<L.Group>, n: nat, tr: Transcript)
    requires AllOpenable(params, coeffs, at) && n <= |gs|
    requires forall g :: g in gs ==> forall p :: p in g.polys ==> p in known
    ensures L.OpenedUpTo(LinearCodeScheme(params, StoreOf(params, coeffs, at)), known, gs, n, tr).Ok?
  {
    if n > 0 {
      GroupsOpen(params, coeffs, at, known, gs, n - 1, tr);
      var scheme := LinearCodeScheme(params, StoreOf(params, coeffs, at));
      var before := L.OpenedUpTo(scheme, known, gs, n - 1, tr).value;
      assert gs[n - 1] in gs;
      GroupOpens(params, coeffs, at, gs[n - 1].polys, gs[n - 1].point, before.1);
    }
  }

  // ----- the theorem

  /** True claims about these polynomials are accepted. */
  ghost predicate Accepts(params: Params, at: int -> seq<Fp>, known: set<int>, lcs: map<int, L.Combination>,
                          queries: L.Rows, coeffs: int -> seq<Fp>, claimed: L.Evaluations, tr: Transcript,
                          proof: C.BatchLCProof<seq<Proof>>, tr': Transcript)
    requires L.AllLong(queries, 3)
  {
    var scheme, value := LinearCodeScheme(params, StoreOf(params, coeffs, at)), ValuesOf(coeffs, at);
    && AllOpenable(params, coeffs, at)
    && C.AllClaimed(lcs, queries, claimed) && C.AllTrue(lcs, queries, |queries|, claimed, value)
    && C.OpenedCombinations(scheme, known, lcs, queries, value, tr) == Ok((proof, tr'))
    ==> C.CheckedCombinations(scheme, known, lcs, queries, claimed, proof, tr) == Ok(true)
  }

  ghost predicate AlwaysAccepts(params: Params, at: int -> seq<Fp>, known: set<int>, lcs: map<int, L.Combination>,
                                queries: L.Rows)
    requires L.AllLong(queries, 3)
  {
    forall coeffs, claimed, tr, proof, tr' ::
      Accepts(params, at, known, lcs, queries, coeffs, claimed, tr, proof, tr')
  }

  /** The polynomials 0, 1 and X can be committed and opened everywhere. */
  ghost predicate SimpleOnesOpen(params: Params, at: int -> seq<Fp>) {
    forall x :: Opens(params, [0], at(x)) && Opens(params, [1], at(x)) && Opens(params, [0, 1], at(x))
  }

  /** Different numbers of points that are asked for stand for different points. */
  ghost predicate PointsDiffer(rows: L.Rows, at: int -> seq<Fp>)
    requires L.AllLong(rows, 3)
  {
    forall r, r' :: r in rows && r' in rows && r[2] != r'[2] ==> at(r[2]) != [] && at(r'[2]) != [] &&
                                                                 at(r[2])[0] != at(r'[2])[0]
  }

  /** For all polynomials, challenges and true claims check_combinations accepts what
      open_combinations returned, exactly if no pair of polynomial and point but the greatest is
      asked for under several labels. */
  lemma {:induction false} CompleteIffUnrepeated(params: Params, at: int -> seq<Fp>, known: set<int>,
                                                 lcs: map<int, L.Combination>, queries: L.Rows)
    requires L.AllLong(queries, 3) && SimpleOnesOpen(params, at)
    requires var rows := L.PolyRows(lcs, queries, |queries|);
             L.AllLong(rows, 3) && L.OnePoint(rows) && PointsDiffer(rows, at) && C.Known(rows, known, |rows|)
    ensures AlwaysAccepts(params, at, known, lcs, queries)
            <==> Q.RepeatsOnlyLast(C.Queries(L.PolyRows(lcs, queries, |queries|)))
  {
    if Q.RepeatsOnlyLast(C.Queries(L.PolyRows(lcs, queries, |queries|))) {
      forall coeffs, claimed, tr, proof, tr'
        ensures Accepts(params, at, known, lcs, queries, coeffs, claimed, tr, proof, tr')
      {
        Unrepeated(params, at, known, lcs, queries, coeffs, claimed, tr, proof, tr');
      }
    } else {
      Repeated(params, at, known, lcs, queries);
    }
  }

  lemma {:induction false} Unrepeated(params: Params, at: int -> seq<Fp>, known: set<int>,
                                      lcs: map<int, L.Combination>, queries: L.Rows, coeffs: int -> seq<Fp>,
                                      claimed: L.Evaluations, tr: Transcript, proof: C.BatchLCProof<seq<Proof>>,
                                      tr': Transcript)
    requires L.AllLong(queries, 3)
    requires var rows := L.PolyRows(lcs, queries, |queries|);
             L.AllLong(rows, 3) && L.OnePoint(rows) && Q.RepeatsOnlyLast(C.Queries(rows))
    ensures Accepts(params, at, known, lcs, queries, coeffs, claimed, tr, proof, tr')
  {
    var store, value := StoreOf(params, coeffs, at), ValuesOf(coeffs, at);
    if AllOpenable(params, coeffs, at)
       && C.AllClaimed(lcs, queries, claimed) && C.AllTrue(lcs, queries, |queries|, claimed, value)
       && C.OpenedCombinations(LinearCodeScheme(params, store), known, lcs, queries, value, tr) == Ok((proof, tr'))
    {
      StoreHasValues(params, coeffs, at);
      CombinationsExactly(params, store, value, known, lcs, queries, claimed, proof, tr, tr');
    }
  }

  // ----- polynomials that tell two keys apart

  /** One, or X where only the points differ, under the number of the first key; zero elsewhere. */
  function Telling(k: seq<int>, k': seq<int>): int -> seq<Fp>
    requires |k| == |k'| == 2
  {
    p => if p != k[0] then [0] else if k[0] != k'[0] then [1] else [0, 1]
  }

  lemma {:induction false} TellsApart(at: int -> seq<Fp>, k: seq<int>, k': seq<int>)
    requires |k| == |k'| == 2 && k != k' && at(k[1]) != [] && at(k'[1]) != []
    requires k[1] != k'[1] ==> at(k[1])[0] != at(k'[1])[0]
    ensures var value := ValuesOf(Telling(k, k'), at); value(k[0], k[1]) != value(k'[0], k'[1])
  {
    var z, z' := at(k[1])[0], at(k'[1])[0];
    ConstantValue(0, z');
    ConstantValue(1, z);
    IdentityValue(z);
    IdentityValue(z');
    assert k == [k[0], k[1]] && k' == [k'[0], k'[1]];
  }

  lemma ConstantValue(c: Fp, z: Fp)
    ensures Eval([c], z) == c
  {
    assert [c][1..] == [];
    Units(z);
    Units(c);
  }

  lemma IdentityValue(z: Fp)
    ensures Eval([0, 1], z) == z
  {
    assert [0, 1][1..] == [1];
    ConstantValue(1, z);
    Units(z);
  }

  /** The true claims for all queried combinations. */
  function TrueClaims(lcs: map<int, L.Combination>, queries: L.Rows, value: Q.Values): L.Evaluations
    requires L.AllLong(queries, 3)
  {
    var keys := set q | q in queries && q[0] in lcs :: [q[0], q[2]];
    map k | k in keys && |k| == 2 && k[0] in lcs :: L.TrueSum(lcs[k[0]], |lcs[k[0]]|, k[1], value)
  }

  lemma {:induction false} TrueClaimsAreTrue(lcs: map<int, L.Combination>, queries: L.Rows, value: Q.Values)
    requires L.AllLong(queries, 3)
    ensures C.AllClaimed(lcs, queries, TrueClaims(lcs, queries, value))
    ensures C.AllTrue(lcs, queries, |queries|, TrueClaims(lcs, queries, value), value)
  {
    var claimed := TrueClaims(lcs, queries, value);
    forall q | q in queries && q[0] in lcs
      ensures [q[0], q[2]] in claimed
              && claimed[[q[0], q[2]]] == L.TrueSum(lcs[q[0]], |lcs[q[0]]|, q[2], value)
    {
      var k := [q[0], q[2]];
      assert k[0] == q[0] && k[1] == q[2];
    }
    forall i | 0 <= i < |queries| ensures C.TrueClaim(lcs, queries[i], claimed, value) {
      assert queries[i] in queries;
    }
  }

  lemma {:induction false} RowsKnown(rows: L.Rows, known: set<int>, n: nat)
    requires L.AllLong(rows, 3) && n <= |rows| && C.Known(rows, known, n)
    ensures forall i :: 0 <= i < n ==> rows[i] in rows && rows[i][0] in known
  {
    if n > 0 { RowsKnown(rows, known, n - 1); }
  }

  lemma {:induction false} CombinationsOpen(params: Params, coeffs: int -> seq<Fp>, at: int -> seq<Fp>,
                                            known: set<int>, lcs: map<int, L.Combination>, queries: L.Rows,
                                            tr: Transcript)
    requires L.AllLong(queries, 3) && AllOpenable(params, coeffs, at)
    requires var rows := L.PolyRows(lcs, queries, |queries|);
             L.AllLong(rows, 3) && L.OnePoint(rows) && C.Known(rows, known, |rows|)
    ensures C.OpenedCombinations(LinearCodeScheme(params, StoreOf(params, coeffs, at)), known, lcs, queries,
                                 ValuesOf(coeffs, at), tr).Ok?
  {
    var rows := L.PolyRows(lcs, queries, |queries|);
    RowsKnown(rows, known, |rows|);
    forall g, p | g in L.Groups(rows) && p in g.polys ensures p in known {
      L.GroupsTrue(rows, g, p);
      var r := [p, g.pointLabel, g.point];
      assert r in rows && r[0] == p;
      var i :| 0 <= i < |rows| && rows[i] == r;
    }
    GroupsOpen(params, coeffs, at, known, L.Groups(rows), |L.Groups(rows)|, tr);
  }

  lemma {:induction false} Repeated(params: Params, at: int -> seq<Fp>, known: set<int>,
                                    lcs: map<int, L.Combination>, queries: L.Rows)
    requires L.AllLong(queries, 3) && SimpleOnesOpen(params, at)
    requires var rows := L.PolyRows(lcs, queries, |queries|);
             && L.AllLong(rows, 3) && L.OnePoint(rows) && PointsDiffer(rows, at) && C.Known(rows, known, |rows|)
             && !Q.RepeatsOnlyLast(C.Queries(rows))
    ensures !AlwaysAccepts(params, at, known, lcs, queries)
  {
    var rows := L.PolyRows(lcs, queries, |queries|);
    forall x ensures at(x) != [] { assert Opens(params, [0], at(x)); }
    var k, k' := ToldApart(rows, at);
    TellingOpens(params, at, k, k');
    Rejected(params, at, known, lcs, queries, Telling(k, k'));
  }

  lemma {:induction false} TellingOpens(params: Params, at: int -> seq<Fp>, k: seq<int>, k': seq<int>)
    requires SimpleOnesOpen(params, at) && |k| == |k'| == 2
    ensures AllOpenable(params, Telling(k, k'), at)
  {
    var coeffs := Telling(k, k');
    forall p, x ensures Opens(params, coeffs(p), at(x)) {
      assert Opens(params, [0], at(x)) && Opens(params, [1], at(x)) && Opens(params, [0, 1], at(x));
    }
  }

  /** Two keys that the verifier confuses, and that those polynomials tell apart. */
  lemma {:induction false} ToldApart(rows: L.Rows, at: int -> seq<Fp>) returns (k: seq<int>, k': seq<int>)
    requires L.AllLong(rows, 3) && PointsDiffer(rows, at) && !Q.RepeatsOnlyLast(C.Queries(rows))
    requires forall x :: at(x) != []
    ensures |k| == |k'| == 2 && forall k :: k in O.Collected(C.KeyRows(rows)) ==> |k| == 2
    ensures var value := ValuesOf(Telling(k, k'), at);
            !C.ReadsTrue(rows, Q.Flattened(O.Collected(C.KeyRows(rows)), value), value)
  {
    var queries, keys, triples := C.Queries(rows), O.Collected(C.KeyRows(rows)), O.Collected(C.TripleRows(rows));
    C.KeysAre(rows);
    C.TriplesAre(rows);
    k, k' := Q.SomeMisread(queries, keys, triples);
    KeyPointsDiffer(rows, at, keys, k, k');
    TellsApart(at, k, k');
    var value := ValuesOf(Telling(k, k'), at);
    assert Q.ReadsValueOf(keys, triples, k, k', value);
    Q.NotPaired(keys, triples, k, k', value);
    C.ReadsTrueIff(rows, value);
  }

  lemma {:induction false} KeyPointsDiffer(rows: L.Rows, at: int -> seq<Fp>, keys: seq<seq<int>>, k: seq<int>,
                                           k': seq<int>)
    requires L.AllLong(rows, 3) && PointsDiffer(rows, at) && Q.AreKeys(keys, C.Queries(rows))
    requires k in keys && k' in keys && |k| == |k'| == 2 && forall x :: at(x) != []
    ensures k[1] != k'[1] ==> at(k[1])[0] != at(k'[1])[0]
  {
    var q :| q in C.Queries(rows) && k == [q.poly, q.point];
    var q' :| q' in C.Queries(rows) && k' == [q'.poly, q'.point];
    var r :| r in rows && q == Q.Query(r[0], r[1], r[2]);
    var r' :| r' in rows && q' == Q.Query(r'[0], r'[1], r'[2]);
  }

  lemma {:induction false} Rejected(params: Params, at: int -> seq<Fp>, known: set<int>, lcs: map<int, L.Combination>,
                                    queries: L.Rows, coeffs: int -> seq<Fp>)
    requires L.AllLong(queries, 3) && AllOpenable(params, coeffs, at)
    requires var rows := L.PolyRows(lcs, queries, |queries|);
             && L.AllLong(rows, 3) && L.OnePoint(rows) && C.Known(rows, known, |rows|)
             && !C.ReadsTrue(rows, Q.Flattened(C.KeysOf(lcs, queries), ValuesOf(coeffs, at)), ValuesOf(coeffs, at))
    ensures !AlwaysAccepts(params, at, known, lcs, queries)
  {
    var store, value, tr := StoreOf(params, coeffs, at), ValuesOf(coeffs, at), [];
    var claimed := TrueClaims(lcs, queries, value);
    TrueClaimsAreTrue(lcs, queries, value);
    CombinationsOpen(params, coeffs, at, known, lcs, queries, tr);
    var (proof, tr') := C.OpenedCombinations(LinearCodeScheme(params, store), known, lcs, queries, value, tr).value;
    StoreHasValues(params, coeffs, at);
    LinearCodeIsExact(params, store, value);
    C.AcceptedIffRead(LinearCodeScheme(params, store), known, lcs, queries, claimed, value, proof, tr, tr');
    assert !Accepts(params, at, known, lcs, queries, coeffs, claimed, tr, proof, tr');
  }
}
