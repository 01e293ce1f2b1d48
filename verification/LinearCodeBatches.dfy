/** The scheme over a linear code under the generic batching layer: it is complete in the sense
    that layer asks for, so its batches and linear combinations are accepted (lib.rs,
    linear_codes/mod.rs). */
module LinearCodeBatches {
  import opened PrimeField
  import opened LinearCodePCS
  import opened LinearCodeCompleteness
  import L = LinearCombinations
  import C = CombinationChecks
  import QueryBatches

  /** What was committed under each number of a polynomial, and the points behind their numbers. */
  datatype Store = Store(coeffs: int -> seq<Fp>, comm: int -> Commitment, state: int -> State, at: int -> seq<Fp>)

  function Comms(store: Store, polys: seq<int>): (r: seq<Commitment>)
    ensures |r| == |polys| && forall i :: 0 <= i < |r| ==> r[i] == store.comm(polys[i])
  {
    seq(|polys|, i requires 0 <= i < |polys| => store.comm(polys[i]))
  }

  function States(store: Store, polys: seq<int>): (r: seq<State>)
    ensures |r| == |polys| && forall i :: 0 <= i < |r| ==> r[i] == store.state(polys[i])
  {
    seq(|polys|, i requires 0 <= i < |polys| => store.state(polys[i]))
  }

  function Polys(store: Store, polys: seq<int>): (r: seq<seq<Fp>>)
    ensures |r| == |polys| && forall i :: 0 <= i < |r| ==> r[i] == store.coeffs(polys[i])
  {
    seq(|polys|, i requires 0 <= i < |polys| => store.coeffs(polys[i]))
  }

  ghost function OpenGroup(params: Params, store: Store, polys: seq<int>, point: int, tr: Transcript):
    Outcome<(seq<Proof>, Transcript)>
  {
    if AllShaped(States(store, polys))
    then OpenFrom(params, Comms(store, polys), States(store, polys), store.at(point), tr) else Panic
  }

  function CheckGroup(params: Params, store: Store, polys: seq<int>, point: int, values: seq<Fp>, proofs: seq<Proof>,
                      tr: Transcript): Outcome<(bool, Transcript)> {
    if |values| == |polys| then CheckFrom(params, Comms(store, polys), store.at(point), values, proofs, tr) else Panic
  }

  /** The scheme as the batching layer sees it. */
  ghost function LinearCodeScheme(params: Params, store: Store): L.Scheme<seq<Proof>, Transcript> {
    L.Scheme((k: nat, polys: seq<int>, point: int, tr: Transcript) => OpenGroup(params, store, polys, point, tr),
             (k: nat, polys: seq<int>, point: int, values: seq<Fp>, proofs: seq<Proof>, tr: Transcript) =>
               CheckGroup(params, store, polys, point, values, proofs, tr))
  }

  ghost predicate HonestStore(params: Params, store: Store) {
    forall p, x :: HonestAt(params, store.coeffs(p), store.comm(p), store.state(p), store.at(x))
  }

  /** The value of a stored polynomial at a stored point. */
  ghost function ValueOf(params: Params, store: Store, p: int, x: int): Fp
    requires HonestStore(params, store)
  {
    assert HonestAt(params, store.coeffs(p), store.comm(p), store.state(p), store.at(x));
    TensorValue(params, store.comm(p), store.state(p), store.at(x))
  }

  ghost predicate AreValues(params: Params, store: Store, value: QueryBatches.Values) {
    HonestStore(params, store) && forall p, x :: value(p, x) == ValueOf(params, store, p, x)
  }

  lemma {:induction false} GroupAccepted(params: Params, store: Store, value: QueryBatches.Values, polys: seq<int>,
                                         point: int, tr: Transcript, proofs: seq<Proof>, tr': Transcript)
    requires AreValues(params, store, value) && OpenGroup(params, store, polys, point, tr) == Ok((proofs, tr'))
    ensures CheckGroup(params, store, polys, point, L.TrueValues(polys, point, value), proofs, tr) == Ok((true, tr'))
  {
    var comms, states, at := Comms(store, polys), States(store, polys), store.at(point);
    var values := L.TrueValues(polys, point, value);
    forall i | 0 <= i < |comms|
      ensures HonestAt(params, Polys(store, polys)[i], comms[i], states[i], at)
      ensures TrueAt(params, comms[i], states[i], at, values[i])
    {
      var p := polys[i];
      assert HonestAt(params, store.coeffs(p), store.comm(p), store.state(p), store.at(point));
      assert value(p, point) == ValueOf(params, store, p, point);
    }
    OpeningsAccepted(params, Polys(store, polys), comms, states, at, values, tr, proofs, tr');
  }

  /** The scheme meets the assumption of the batching theorems. */
  lemma {:induction false} LinearCodeIsComplete(params: Params, store: Store, value: QueryBatches.Values)
    requires AreValues(params, store, value)
    ensures L.Complete(LinearCodeScheme(params, store), value)
  {
    var scheme := LinearCodeScheme(params, store);
    forall k: nat, polys, point, tr ensures L.Accepted(scheme, value, k, polys, point, tr) {
      var r := OpenGroup(params, store, polys, point, tr);
      if r.Ok? {
        GroupAccepted(params, store, value, polys, point, tr, r.value.0, r.value.1);
      }
    }
  }

  /** So batch_check accepts what batch_open returns for true values. */
  lemma {:induction false} BatchAccepted(params: Params, store: Store, value: QueryBatches.Values, known: set<int>,
                                         rows: L.Rows, evals: L.Evaluations, proofs: seq<seq<Proof>>, tr: Transcript,
                                         tr': Transcript)
    requires AreValues(params, store, value) && L.AllLong(rows, 3) && L.OnePoint(rows)
    requires forall r :: r in rows ==> L.TrueAt(evals, value, r[0], r[2])
    requires L.OpenedUpTo(LinearCodeScheme(params, store), known, L.Groups(rows), |L.Groups(rows)|, tr)
             == Ok((proofs, tr'))
    ensures L.BatchChecked(LinearCodeScheme(params, store), known, rows, evals, proofs, tr) == Ok((true, tr'))
  {
    LinearCodeIsComplete(params, store, value);
    L.BatchAccepted(LinearCodeScheme(params, store), known, rows, evals, value, proofs, tr, tr');
  }

  /** And check_combinations accepts exactly the true values of the combinations. */
  lemma {:induction false} CombinationsExactly(params: Params, store: Store, value: QueryBatches.Values,
                                               known: set<int>, lcs: map<int, L.Combination>, queries: L.Rows,
                                               claimed: L.Evaluations, proof: C.BatchLCProof<seq<Proof>>,
                                               tr: Transcript, tr': Transcript)
    requires AreValues(params, store, value) && L.AllLong(queries, 3) && C.AllClaimed(lcs, queries, claimed)
    requires var rows := L.PolyRows(lcs, queries, |queries|);
             L.AllLong(rows, 3) && L.OnePoint(rows) && QueryBatches.RepeatsOnlyLast(C.Queries(rows))
    requires C.OpenedCombinations(LinearCodeScheme(params, store), known, lcs, queries, value, tr) == Ok((proof, tr'))
    ensures C.CheckedCombinations(LinearCodeScheme(params, store), known, lcs, queries, claimed, proof, tr)
            == Ok(C.AllTrue(lcs, queries, |queries|, claimed, value))
  {
    LinearCodeIsComplete(params, store, value);
    C.CombinationsExactly(LinearCodeScheme(params, store), known, lcs, queries, claimed, value, proof, tr, tr');
  }
}
