/** Hyrax under the generic batching layer (lib.rs, hyrax/mod.rs): it is complete in the sense that
    layer asks for, and since its check does not look at claimed values, batch_check accepts any. */
module HyraxBatches {
  import opened PrimeField
  import opened HyraxPC
  import L = LinearCombinations
  import Q = QueryBatches

  /** What was committed under each number of a polynomial, the points behind their numbers, and the
      coins of the k-th opening. */
  datatype Store = Store(f: int -> seq<Fp>, rands: int -> seq<Fp>, coms: int -> seq<Fp>, state: int -> State,
                         coins: (nat, int) -> Coins, at: int -> seq<Fp>)

  function Behind(store: Store, k: nat, p: int): Committed {
    Committed(store.f(p), store.rands(p), store.coms(p), store.state(p), store.coins(k, p))
  }

  function AllBehind(store: Store, k: nat, polys: seq<int>): (r: seq<Committed>)
    ensures |r| == |polys| && forall i :: 0 <= i < |r| ==> r[i] == Behind(store, k, polys[i])
  {
    seq(|polys|, i requires 0 <= i < |polys| => Behind(store, k, polys[i]))
  }

  function CommsOf(store: Store, polys: seq<int>): seq<seq<Fp>> {
    if polys == [] then [] else [store.coms(polys[0])] + CommsOf(store, polys[1..])
  }

  lemma {:induction false} SameComms(store: Store, k: nat, polys: seq<int>)
    ensures Comms(AllBehind(store, k, polys)) == CommsOf(store, polys)
  {
    if polys != [] {
      SameComms(store, k, polys[1..]);
      assert AllBehind(store, k, polys)[1..] == AllBehind(store, k, polys[1..]);
    }
  }

  ghost function OpenGroup(key: Key, store: Store, oracle: Oracle, k: nat, polys: seq<int>, point: int,
                           tr: Transcript): Outcome<(seq<Proof>, Transcript)> {
    if |store.at(point)| % 2 == 1 || !Honest(key, store.at(point), AllBehind(store, k, polys)) then Err
    else Ok(OpenFrom(key, AllBehind(store, k, polys), store.at(point), oracle, tr))
  }

  function CheckGroup(key: Key, store: Store, oracle: Oracle, polys: seq<int>, point: int, proofs: seq<Proof>,
                      tr: Transcript): Outcome<(bool, Transcript)> {
    if |store.at(point)| % 2 == 1 then Err
    else CheckFrom(key, CommsOf(store, polys), store.at(point), proofs, oracle, tr)
  }

  /** The scheme as the batching layer sees it. */
  ghost function HyraxScheme(key: Key, store: Store, oracle: Oracle): L.Scheme<seq<Proof>, Transcript> {
    L.Scheme((k: nat, polys: seq<int>, point: int, tr: Transcript) =>
               OpenGroup(key, store, oracle, k, polys, point, tr),
             (k: nat, polys: seq<int>, point: int, values: seq<Fp>, proofs: seq<Proof>, tr: Transcript) =>
               CheckGroup(key, store, oracle, polys, point, proofs, tr))
  }

  /** It is complete, whatever is taken for the value of a polynomial at a point. */
  lemma {:induction false} HyraxIsComplete(key: Key, store: Store, oracle: Oracle, value: Q.Values)
    ensures L.Complete(HyraxScheme(key, store, oracle), value)
  {
    var scheme := HyraxScheme(key, store, oracle);
    forall k: nat, polys, point, tr ensures L.Accepted(scheme, value, k, polys, point, tr) {
      var r := OpenGroup(key, store, oracle, k, polys, point, tr);
      if r.Ok? {
        Completeness(key, AllBehind(store, k, polys), store.at(point), oracle, tr);
        SameComms(store, k, polys);
      }
    }
  }

  /** So batch_check accepts what batch_open returned with whatever evaluations are claimed, one for
      every query. */
  lemma {:induction false} AnyValuesAccepted(key: Key, store: Store, oracle: Oracle, known: set<int>, rows: L.Rows,
                                             evals: L.Evaluations, proofs: seq<seq<Proof>>, tr: Transcript,
                                             tr': Transcript)
    requires L.AllLong(rows, 3) && L.OnePoint(rows) && forall r :: r in rows ==> [r[0], r[2]] in evals
    requires L.OpenedUpTo(HyraxScheme(key, store, oracle), known, L.Groups(rows), |L.Groups(rows)|, tr)
             == Ok((proofs, tr'))
    ensures L.BatchChecked(HyraxScheme(key, store, oracle), known, rows, evals, proofs, tr) == Ok((true, tr'))
  {
    var value: Q.Values := (p, x) => if [p, x] in evals then evals[[p, x]] else 0;
    HyraxIsComplete(key, store, oracle, value);
    L.BatchAccepted(HyraxScheme(key, store, oracle), known, rows, evals, value, proofs, tr, tr');
  }
}
