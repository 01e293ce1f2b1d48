/** The generic layer over any scheme (lib.rs): batch openings grouped by point label, and
    linear combinations whose evaluations travel as one flat list.

    Labels and points are integers: only their order matters.  Iterating an ordered set or map
    of the library yields an ascending list of its elements. */
module QueryBatches {
  import opened PrimeField
  import opened Combinations

  datatype Query = Query(poly: int, pointLabel: int, point: int)

  /** The value of the polynomial with a label at a point. */
  type Values = (int, int) -> Fp

  // ----- ascending lists

  lemma {:induction false} LexTotal(v: seq<int>, w: seq<int>, k: nat)
    requires |v| == |w| && k <= |v| && v[..k] == w[..k]
    ensures v == w || LexLess(v, w) || LexLess(w, v)
    decreases |v| - k
  {
    if k == |v| {
      assert v == v[..k] && w == w[..k];
    } else if v[k] == w[k] {
      assert v[..k + 1] == v[..k] + [v[k]] && w[..k + 1] == w[..k] + [w[k]];
      LexTotal(v, w, k + 1);
    }
  }

  lemma LexIrreflexive(v: seq<int>)
    ensures !LexLess(v, v)
  {
  }

  lemma LexAsymmetric(v: seq<int>, w: seq<int>)
    ensures !(LexLess(v, w) && LexLess(w, v))
  {
    if LexLess(v, w) && LexLess(w, v) {
      LexTransitive(v, w, v);
      LexIrreflexive(v);
    }
  }

  lemma AscendingTail(a: seq<seq<int>>)
    requires Ascending(a) && a != []
    ensures Ascending(a[1..]) && forall x :: x in a[1..] <==> x in a && x != a[0]
  {
    forall x ensures x in a[1..] <==> x in a && x != a[0] {
      if x in a[1..] {
        var i :| 0 <= i < |a[1..]| && a[1..][i] == x;
        assert LexLess(a[0], a[i + 1]);
        LexIrreflexive(x);
      }
      if x in a && x != a[0] {
        var i :| 0 <= i < |a| && a[i] == x;
        assert a[1..][i - 1] == x;
      }
    }
  }

  lemma ElementOf(a: seq<seq<int>>, b: seq<seq<int>>)
    requires a != [] && forall x :: x in a ==> x in b
    ensures b != []
  {
    assert a[0] in a;
  }

  // ----- the flat list of evaluations

  /** The keys of the evaluations of a query set. */
  ghost predicate AreKeys(keys: seq<seq<int>>, queries: set<Query>) {
    && Ascending(keys)
    && (forall q :: q in queries ==> [q.poly, q.point] in keys)
    && (forall k :: k in keys ==> exists q :: q in queries && k == [q.poly, q.point])
  }

  /** The same keys, each with its point label: how the verifier sorts the queries. */
  ghost predicate AreTriples(triples: seq<seq<int>>, queries: set<Query>) {
    && Ascending(triples)
    && (forall q :: q in queries ==> [q.poly, q.point, q.pointLabel] in triples)
    && (forall t :: t in triples ==> exists q :: q in queries && t == [q.poly, q.point, q.pointLabel])
  }

  /** Only the greatest pair of polynomial and point may be queried under several point labels. */
  ghost predicate RepeatsOnlyLast(queries: set<Query>) {
    forall q, q' :: q in queries && q' in queries && Twice(q, q') ==> Greatest(queries, [q.poly, q.point])
  }

  predicate Twice(q: Query, q': Query) {
    q.poly == q'.poly && q.point == q'.point && q.pointLabel != q'.pointLabel
  }

  ghost predicate Greatest(queries: set<Query>, key: seq<int>) {
    forall q :: q in queries ==> !LexLess(key, [q.poly, q.point])
  }

  function Prefixes(triples: seq<seq<int>>): (r: seq<seq<int>>)
    requires forall t :: t in triples ==> |t| == 3
    ensures |r| == |triples| && forall i :: 0 <= i < |r| ==> r[i] == triples[i][..2]
  {
    seq(|triples|, i requires 0 <= i < |triples| => assert triples[i] in triples; triples[i][..2])
  }

  lemma TriplesLong(triples: seq<seq<int>>, queries: set<Query>)
    requires AreTriples(triples, queries)
    ensures forall t :: t in triples ==> |t| == 3
  {
  }

  lemma KeysLong(keys: seq<seq<int>>, queries: set<Query>)
    requires AreKeys(keys, queries)
    ensures forall k :: k in keys ==> |k| == 2
  {
  }

  lemma SameKeys(queries: set<Query>, keys: seq<seq<int>>, triples: seq<seq<int>>, x: seq<int>)
    requires AreKeys(keys, queries) && AreTriples(triples, queries) && AllTriples(triples)
    ensures x in keys <==> x in Prefixes(triples)
  {
    if x in keys { KeyIsPrefix(queries, keys, triples, x); }
    if x in Prefixes(triples) { PrefixIsKey(queries, keys, triples, x); }
  }

  lemma KeyIsPrefix(queries: set<Query>, keys: seq<seq<int>>, triples: seq<seq<int>>, x: seq<int>)
    requires AreKeys(keys, queries) && AreTriples(triples, queries) && AllTriples(triples) && x in keys
    ensures x in Prefixes(triples)
  {
    var q :| q in queries && x == [q.poly, q.point];
    var t := [q.poly, q.point, q.pointLabel];
    assert t in triples;
    var i :| 0 <= i < |triples| && triples[i] == t;
    assert Prefixes(triples)[i] == t[..2] == x;
  }

  lemma PrefixIsKey(queries: set<Query>, keys: seq<seq<int>>, triples: seq<seq<int>>, x: seq<int>)
    requires AreKeys(keys, queries) && AreTriples(triples, queries) && AllTriples(triples) && x in Prefixes(triples)
    ensures x in keys
  {
    var i :| 0 <= i < |triples| && Prefixes(triples)[i] == x;
    assert triples[i] in triples;
    var q :| q in queries && triples[i] == [q.poly, q.point, q.pointLabel];
    assert x == [q.poly, q.point];
  }

  lemma PrefixLess(t: seq<int>, t': seq<int>)
    requires |t| == |t'| == 3 && LexLess(t, t')
    ensures LexLess(t[..2], t'[..2]) || t[..2] == t'[..2]
  {
    var k :| 0 <= k < |t| && t[..k] == t'[..k] && t[k] < t'[k];
    if k < 2 { assert t[..2][..k] == t[..k] && t'[..2][..k] == t'[..k]; }
  }

  lemma PrefixesAscend(triples: seq<seq<int>>)
    requires Ascending(triples) && AllTriples(triples)
    ensures Weakly(Prefixes(triples))
  {
    forall i, j | 0 <= i < j < |triples|
      ensures Prefixes(triples)[i] == Prefixes(triples)[j] || LexLess(Prefixes(triples)[i], Prefixes(triples)[j])
    {
      assert triples[i] in triples && triples[j] in triples;
      PrefixLess(triples[i], triples[j]);
    }
  }

  // ----- where the lists agree

  /** Ascending, with repeats. */
  ghost predicate Weakly(a: seq<seq<int>>) {
    forall i, j :: 0 <= i < j < |a| ==> a[i] == a[j] || LexLess(a[i], a[j])
  }

  ghost predicate SameElements(a: seq<seq<int>>, b: seq<seq<int>>) {
    forall x :: x in a <==> x in b
  }

  /** Only the last key repeats. */
  ghost predicate RepeatsLast(a: seq<seq<int>>, last: seq<int>) {
    forall i, j :: 0 <= i < j < |a| && a[i] == a[j] ==> a[i] == last
  }

  lemma WeaklyTail(a: seq<seq<int>>, last: seq<int>)
    requires Weakly(a) && a != [] && RepeatsLast(a, last) && a[0] != last
    ensures Weakly(a[1..]) && RepeatsLast(a[1..], last) && forall x :: x in a[1..] <==> x in a && x != a[0]
  {
    forall i, j | 0 <= i < j < |a[1..]| ensures a[1..][i] == a[1..][j] || LexLess(a[1..][i], a[1..][j]) {
      assert a[i + 1] == a[j + 1] || LexLess(a[i + 1], a[j + 1]);
    }
    forall i, j | 0 <= i < j < |a[1..]| && a[1..][i] == a[1..][j] ensures a[1..][i] == last {
      assert a[i + 1] == a[j + 1];
    }
    forall x ensures x in a[1..] <==> x in a && x != a[0] {
      if x in a[1..] {
        var i :| 0 <= i < |a[1..]| && a[1..][i] == x;
        assert a[i + 1] == x;
      }
      if x in a && x != a[0] {
        var i :| 0 <= i < |a| && a[i] == x;
        assert a[1..][i - 1] == x;
      }
    }
  }

  lemma SameHead(a: seq<seq<int>>, b: seq<seq<int>>)
    requires Weakly(a) && Weakly(b) && SameElements(a, b) && a != [] && b != []
    ensures a[0] == b[0]
  {
    assert a[0] in a && a[0] in b && b[0] in b && b[0] in a;
    var i :| 0 <= i < |b| && b[i] == a[0];
    var j :| 0 <= j < |a| && a[j] == b[0];
    LexAsymmetric(a[0], b[0]);
  }

  /** With repeats of the last key only, the list begins with the keys. */
  lemma {:induction false} BeginsWithKeys(a: seq<seq<int>>, keys: seq<seq<int>>)
    requires Weakly(a) && Ascending(keys) && SameElements(a, keys)
    requires keys != [] ==> RepeatsLast(a, keys[|keys| - 1])
    ensures |keys| <= |a| && a[..|keys|] == keys
    decreases |keys|
  {
    if keys != [] {
      ElementOf(keys, a);
      SameHead(a, keys);
      if |keys| > 1 {
        var last := keys[|keys| - 1];
        assert LexLess(keys[0], last);
        LexIrreflexive(last);
        WeaklyTail(a, last);
        AscendingTail(keys);
        BeginsWithKeys(a[1..], keys[1..]);
        assert a == [a[0]] + a[1..] && keys == [keys[0]] + keys[1..];
      }
    }
  }

  lemma Distinct(keys: seq<seq<int>>, i: nat, j: nat)
    requires Ascending(keys) && i < j < |keys|
    ensures keys[i] != keys[j]
  {
    LexIrreflexive(keys[i]);
  }

  /** A list that begins with the keys repeats the last of them only. */
  lemma RepeatsLastOnly(a: seq<seq<int>>, keys: seq<seq<int>>)
    requires Weakly(a) && Ascending(keys) && SameElements(a, keys) && keys != []
    requires |keys| <= |a| && a[..|keys|] == keys
    ensures RepeatsLast(a, keys[|keys| - 1])
  {
    var n := |keys|;
    forall i, j | 0 <= i < j < |a| && a[i] == a[j] ensures a[i] == keys[n - 1] {
      assert a[i] in a && a[i] in keys;
      var k :| 0 <= k < n && keys[k] == a[i];
      assert a[n - 1] == keys[n - 1];
      if i < n - 1 {
        assert a[..n][i] == a[i] && a[..n][i + 1] == a[i + 1];
        assert LexLess(a[i], a[i + 1]);
        LexAsymmetric(a[i], a[i + 1]);
      } else if k < n - 1 {
        LexIrreflexive(keys[k]);
        assert LexLess(keys[k], keys[n - 1]);
        LexAsymmetric(keys[k], keys[n - 1]);
      }
    }
  }

  lemma RepeatsInQueries(queries: set<Query>, keys: seq<seq<int>>, triples: seq<seq<int>>)
    requires AreKeys(keys, queries) && AreTriples(triples, queries) && AllTriples(triples) && keys != []
    ensures RepeatsOnlyLast(queries) <==> RepeatsLast(Prefixes(triples), keys[|keys| - 1])
  {
    var last, pre := keys[|keys| - 1], Prefixes(triples);
    if RepeatsOnlyLast(queries) {
      forall i, j | 0 <= i < j < |pre| && pre[i] == pre[j] ensures pre[i] == last {
        RepeatedQuery(queries, triples, i, j);
        KeyOfTriple(queries, keys, triples, i);
        LastIsGreatest(queries, keys, pre[i]);
      }
    }
    if RepeatsLast(pre, last) {
      forall q, q' | q in queries && q' in queries && Twice(q, q') ensures Greatest(queries, [q.poly, q.point]) {
        TwiceIsLast(queries, keys, triples, q, q');
      }
    }
  }

  lemma KeyOfTriple(queries: set<Query>, keys: seq<seq<int>>, triples: seq<seq<int>>, i: nat)
    requires AreKeys(keys, queries) && AreTriples(triples, queries) && AllTriples(triples) && i < |triples|
    ensures Prefixes(triples)[i] in keys
  {
    assert Prefixes(triples)[i] in Prefixes(triples);
    SameKeys(queries, keys, triples, Prefixes(triples)[i]);
  }

  lemma PlaceOf(queries: set<Query>, triples: seq<seq<int>>, q: Query) returns (i: nat)
    requires AreTriples(triples, queries) && AllTriples(triples) && q in queries
    ensures i < |triples| && triples[i] == [q.poly, q.point, q.pointLabel]
    ensures Prefixes(triples)[i] == [q.poly, q.point]
  {
    i :| 0 <= i < |triples| && triples[i] == [q.poly, q.point, q.pointLabel];
    assert triples[i][..2] == [q.poly, q.point];
  }

  lemma TwiceIsLast(queries: set<Query>, keys: seq<seq<int>>, triples: seq<seq<int>>, q: Query, q': Query)
    requires AreKeys(keys, queries) && AreTriples(triples, queries) && AllTriples(triples) && keys != []
    requires RepeatsLast(Prefixes(triples), keys[|keys| - 1]) && q in queries && q' in queries && Twice(q, q')
    ensures Greatest(queries, [q.poly, q.point])
  {
    var i := PlaceOf(queries, triples, q);
    var j := PlaceOf(queries, triples, q');
    assert triples[i][2] != triples[j][2];
    assert i < j || j < i;
    LastIsGreatest(queries, keys, [q.poly, q.point]);
  }

  lemma LastIsGreatest(queries: set<Query>, keys: seq<seq<int>>, key: seq<int>)
    requires AreKeys(keys, queries) && keys != [] && key in keys
    ensures Greatest(queries, key) <==> key == keys[|keys| - 1]
  {
    var last := keys[|keys| - 1];
    if key == last {
      forall q | q in queries ensures !LexLess(key, [q.poly, q.point]) {
        var i :| 0 <= i < |keys| && keys[i] == [q.poly, q.point];
        if i < |keys| - 1 { LexAsymmetric(keys[i], last); } else { LexIrreflexive(last); }
      }
    } else {
      var i :| 0 <= i < |keys| && keys[i] == key;
      assert last in keys;
      var q :| q in queries && last == [q.poly, q.point];
      assert LexLess(key, last);
    }
  }

  ghost predicate AllTriples(triples: seq<seq<int>>) {
    forall t :: t in triples ==> |t| == 3
  }

  lemma RepeatedQuery(queries: set<Query>, triples: seq<seq<int>>, i: nat, j: nat)
    requires AreTriples(triples, queries) && AllTriples(triples) && i < j < |triples|
    requires RepeatsOnlyLast(queries) && triples[i][..2] == triples[j][..2]
    ensures Greatest(queries, triples[i][..2])
  {
    var t, t' := triples[i], triples[j];
    assert t in triples && t' in triples && LexLess(t, t');
    var q :| q in queries && t == [q.poly, q.point, q.pointLabel];
    var q' :| q' in queries && t' == [q'.poly, q'.point, q'.pointLabel];
    assert t[..2] == [q.poly, q.point] && t'[..2] == [q'.poly, q'.point];
    assert q.poly == t[..2][0] && q'.poly == t'[..2][0] && q.point == t[..2][1] && q'.point == t'[..2][1];
    LexIrreflexive(t);
    assert q.pointLabel == q'.pointLabel ==> t == t';
    assert Twice(q, q');
  }

  /** The verifier's keys begin with the prover's exactly when no polynomial but the greatest
      queried pair is queried at one point under several point labels. */
  lemma AlignedIff(queries: set<Query>, keys: seq<seq<int>>, triples: seq<seq<int>>)
    requires AreKeys(keys, queries) && AreTriples(triples, queries)
    ensures AllTriples(triples)
    ensures |keys| <= |triples| && Prefixes(triples)[..|keys|] == keys <==> RepeatsOnlyLast(queries)
  {
    TriplesLong(triples, queries);
    var pre := Prefixes(triples);
    PrefixesAscend(triples);
    forall x ensures x in pre <==> x in keys { SameKeys(queries, keys, triples, x); }
    if keys == [] {
      assert forall q :: q in queries ==> [q.poly, q.point] in keys;
    } else {
      RepeatsInQueries(queries, keys, triples);
      if RepeatsOnlyLast(queries) { BeginsWithKeys(pre, keys); }
      if |keys| <= |pre| && pre[..|keys|] == keys { RepeatsLastOnly(pre, keys); }
    }
  }

  /** Pairs keys with evaluations, stopping at the shorter list; a later pair replaces an
      earlier one with the same key. */
  function Zipped(keys: seq<seq<int>>, evals: seq<Fp>): map<seq<int>, Fp>
    decreases |keys| + |evals|
  {
    if keys == [] || evals == [] then map[]
    else if |keys| > |evals| then Zipped(keys[..|evals|], evals)
    else
      var n := |keys| - 1;
      Zipped(keys[..n], evals[..n])[keys[n] := evals[n]]
  }

  /** evaluate_query_set and the flattening: the true values in the order of the keys. */
  function Flattened(keys: seq<seq<int>>, value: Values): (r: seq<Fp>)
    requires forall k :: k in keys ==> |k| == 2
    ensures |r| == |keys| && forall i :: 0 <= i < |r| ==> keys[i] in keys && r[i] == value(keys[i][0], keys[i][1])
  {
    seq(|keys|, i requires 0 <= i < |keys| => assert keys[i] in keys; value(keys[i][0], keys[i][1]))
  }

  lemma {:induction false} ZipTrue(keys: seq<seq<int>>, evals: seq<Fp>, value: Values)
    requires |evals| == |keys| && forall k :: k in keys ==> |k| == 2
    requires forall i :: 0 <= i < |keys| ==> evals[i] == value(keys[i][0], keys[i][1])
    ensures forall k :: k in Zipped(keys, evals) <==> k in keys
    ensures forall k :: k in keys ==> Zipped(keys, evals)[k] == value(k[0], k[1])
  {
    forall k ensures k in Zipped(keys, evals) <==> k in keys { ZipTrueAt(keys, evals, value, k); }
    forall k | k in keys ensures Zipped(keys, evals)[k] == value(k[0], k[1]) { ZipTrueAt(keys, evals, value, k); }
  }

  lemma {:induction false} ZipTrueAt(keys: seq<seq<int>>, evals: seq<Fp>, value: Values, k: seq<int>)
    requires |evals| == |keys| && forall k :: k in keys ==> |k| == 2
    requires forall i :: 0 <= i < |keys| ==> evals[i] == value(keys[i][0], keys[i][1])
    ensures k in Zipped(keys, evals) <==> k in keys
    ensures k in keys ==> Zipped(keys, evals)[k] == value(k[0], k[1])
  {
    if keys != [] {
      var n := |keys| - 1;
      assert keys == keys[..n] + [keys[n]];
      ZipTrueAt(keys[..n], evals[..n], value, k);
    }
  }

  /** The verifier finds every flattened evaluation under its own polynomial and point. */
  ghost predicate Paired(keys: seq<seq<int>>, triples: seq<seq<int>>, value: Values)
    requires AllTriples(triples) && forall k :: k in keys ==> |k| == 2
  {
    var read := Zipped(Prefixes(triples), Flattened(keys, value));
    forall k :: k in keys ==> k in read && read[k] == value(k[0], k[1])
  }

  /** It does so, whatever the polynomials, exactly under that condition. */
  lemma PairedIff(queries: set<Query>, keys: seq<seq<int>>, triples: seq<seq<int>>)
    requires AreKeys(keys, queries) && AreTriples(triples, queries)
    ensures AllTriples(triples) && forall k :: k in keys ==> |k| == 2
    ensures (forall value :: Paired(keys, triples, value)) <==> RepeatsOnlyLast(queries)
  {
    KeysLong(keys, queries);
    AlignedIff(queries, keys, triples);
    if RepeatsOnlyLast(queries) {
      forall value ensures Paired(keys, triples, value) { AlignedPaired(keys, triples, value); }
    } else {
      PrefixesAscend(triples);
      forall x ensures x in Prefixes(triples) <==> x in keys { SameKeys(queries, keys, triples, x); }
      Misread(keys, triples);
    }
  }

  lemma AlignedPaired(keys: seq<seq<int>>, triples: seq<seq<int>>, value: Values)
    requires AllTriples(triples) && forall k :: k in keys ==> |k| == 2
    requires |keys| <= |triples| && Prefixes(triples)[..|keys|] == keys
    ensures Paired(keys, triples, value)
  {
    var pre, evals := Prefixes(triples), Flattened(keys, value);
    ZipTrue(keys, evals, value);
    ZipCut(pre, evals);
  }

  lemma ZipCut(keys: seq<seq<int>>, evals: seq<Fp>)
    requires |evals| <= |keys|
    ensures Zipped(keys, evals) == Zipped(keys[..|evals|], evals)
  {
    if |keys| == |evals| { assert keys[..|evals|] == keys; }
  }

  /** Where two lists part that do not agree. */
  lemma {:induction false} Parting(a: seq<seq<int>>, keys: seq<seq<int>>, from: nat) returns (d: nat)
    requires from <= |keys| && from <= |a| && a[..from] == keys[..from]
    requires !(|keys| <= |a| && a[..|keys|] == keys)
    ensures d < |keys| && d <= |a| && a[..d] == keys[..d] && (d == |a| || a[d] != keys[d])
    decreases |keys| - from
  {
    d := from;
    assert keys[..|keys|] == keys;
    if from < |keys| && from < |a| && a[from] == keys[from] {
      assert a[..from + 1] == a[..from] + [a[from]] && keys[..from + 1] == keys[..from] + [keys[from]];
      d := Parting(a, keys, from + 1);
    }
  }

  lemma NotBefore(a: seq<seq<int>>, keys: seq<seq<int>>, d: nat, m: nat)
    requires Ascending(keys) && m < d < |keys| && d <= |a| && a[..d] == keys[..d]
    ensures a[m] != keys[d]
  {
    assert a[m] == a[..d][m] == keys[..d][m] == keys[m];
    Distinct(keys, m, d);
  }

  /** There an earlier key comes again. */
  lemma ComesAgain(a: seq<seq<int>>, keys: seq<seq<int>>, d: nat) returns (c: nat)
    requires Weakly(a) && Ascending(keys) && SameElements(a, keys)
    requires d < |keys| && d <= |a| && a[..d] == keys[..d] && (d == |a| || a[d] != keys[d])
    ensures c < d < |a| && a[d] == keys[c]
  {
    var k := keys[d];
    assert k in keys && k in a;
    var m :| 0 <= m < |a| && a[m] == k;
    if m < d { NotBefore(a, keys, d, m); }
    assert a[d] in a && a[d] in keys;
    c :| 0 <= c < |keys| && keys[c] == a[d];
    assert LexLess(a[d], k);
    LexAsymmetric(a[d], k);
  }

  /** Where the last pair with key k stands. */
  lemma {:induction false} LastPlace(keys: seq<seq<int>>, k: seq<int>, d: nat, m: nat) returns (i: nat)
    requires d < m <= |keys| && keys[d] == k
    ensures d <= i < m && keys[i] == k && forall j :: i < j < m ==> keys[j] != k
  {
    i := m - 1;
    if keys[i] != k { i := LastPlace(keys, k, d, m - 1); }
  }

  /** A key is read with the evaluation at its last place. */
  lemma {:induction false} ZipLast(keys: seq<seq<int>>, evals: seq<Fp>, k: seq<int>, i: nat)
    requires i < |keys| && i < |evals| && keys[i] == k
    requires forall j :: i < j < |keys| && j < |evals| ==> keys[j] != k
    ensures k in Zipped(keys, evals) && Zipped(keys, evals)[k] == evals[i]
    decreases |keys| + |evals|
  {
    if |keys| > |evals| {
      ZipLast(keys[..|evals|], evals, k, i);
    } else {
      var n := |keys| - 1;
      if i < n { ZipLast(keys[..n], evals[..n], k, i); }
    }
  }

  /** Two different keys such that, whatever the polynomials, the verifier reads the value of the
      second under the first. */
  ghost predicate ReadAs(keys: seq<seq<int>>, triples: seq<seq<int>>, k: seq<int>, k': seq<int>)
    requires AllTriples(triples) && forall k :: k in keys ==> |k| == 2
  {
    && k in keys && k' in keys && k != k'
    && forall value: Values :: ReadsValueOf(keys, triples, k, k', value)
  }

  ghost predicate ReadsValueOf(keys: seq<seq<int>>, triples: seq<seq<int>>, k: seq<int>, k': seq<int>, value: Values)
    requires AllTriples(triples) && forall k :: k in keys ==> |k| == 2
    requires k' in keys
  {
    var read := Zipped(Prefixes(triples), Flattened(keys, value));
    k in read && read[k] == value(k'[0], k'[1])
  }

  /** Where the two lists part, there are such keys. */
  lemma MisreadAs(keys: seq<seq<int>>, triples: seq<seq<int>>) returns (k: seq<int>, k': seq<int>)
    requires AllTriples(triples) && forall k :: k in keys ==> |k| == 2
    requires Weakly(Prefixes(triples)) && Ascending(keys) && SameElements(Prefixes(triples), keys)
    requires !(|keys| <= |triples| && Prefixes(triples)[..|keys|] == keys)
    ensures ReadAs(keys, triples, k, k')
  {
    var pre := Prefixes(triples);
    var d := Parting(pre, keys, 0);
    var c := ComesAgain(pre, keys, d);
    var i := LastPlace(pre, keys[c], d, if |pre| < |keys| then |pre| else |keys|);
    k, k' := keys[c], keys[i];
    Distinct(keys, c, i);
    forall value: Values ensures ReadsValueOf(keys, triples, k, k', value) {
      ZipLast(pre, Flattened(keys, value), k, i);
    }
  }

  /** So the polynomial that is one at the first and zero elsewhere is read as zero there. */
  lemma Misread(keys: seq<seq<int>>, triples: seq<seq<int>>)
    requires AllTriples(triples) && forall k :: k in keys ==> |k| == 2
    requires Weakly(Prefixes(triples)) && Ascending(keys) && SameElements(Prefixes(triples), keys)
    requires !(|keys| <= |triples| && Prefixes(triples)[..|keys|] == keys)
    ensures !(forall value :: Paired(keys, triples, value))
  {
    var k, k' := MisreadAs(keys, triples);
    var value := Indicator(k, k');
    assert ReadsValueOf(keys, triples, k, k', value);
    NotPaired(keys, triples, k, k', value);
  }

  lemma Indicator(k: seq<int>, k': seq<int>) returns (value: Values)
    requires |k| == |k'| == 2 && k != k'
    ensures value(k[0], k[1]) == 1 && value(k'[0], k'[1]) == 0
  {
    value := (p, x) => if p == k[0] && x == k[1] then 1 else 0;
    assert k == [k[0], k[1]] && k' == [k'[0], k'[1]];
  }

  lemma NotPaired(keys: seq<seq<int>>, triples: seq<seq<int>>, k: seq<int>, k': seq<int>, value: Values)
    requires AllTriples(triples) && forall k :: k in keys ==> |k| == 2
    requires k in keys && k' in keys && ReadsValueOf(keys, triples, k, k', value)
    requires value(k[0], k[1]) != value(k'[0], k'[1])
    ensures !Paired(keys, triples, value)
  {
  }

  /** Unless only the greatest pair is repeated, some key is read with the value of another. */
  lemma SomeMisread(queries: set<Query>, keys: seq<seq<int>>, triples: seq<seq<int>>)
    returns (k: seq<int>, k': seq<int>)
    requires AreKeys(keys, queries) && AreTriples(triples, queries) && !RepeatsOnlyLast(queries)
    ensures AllTriples(triples) && forall k :: k in keys ==> |k| == 2
    ensures ReadAs(keys, triples, k, k')
  {
    KeysLong(keys, queries);
    AlignedIff(queries, keys, triples);
    PrefixesAscend(triples);
    forall x ensures x in Prefixes(triples) <==> x in keys { SameKeys(queries, keys, triples, x); }
    k, k' := MisreadAs(keys, triples);
  }

  /** Otherwise they get mixed up: with polynomial 0 queried at point 5 under the labels 1 and
      2, and polynomial 1 under label 1, the value of polynomial 1 is taken for polynomial 0
      and polynomial 1 has none. */
  lemma MixedUp(value: Values)
    ensures var queries := {Query(0, 1, 5), Query(0, 2, 5), Query(1, 1, 5)};
            var keys, triples := [[0, 5], [1, 5]], [[0, 5, 1], [0, 5, 2], [1, 5, 1]];
            && AreKeys(keys, queries) && AreTriples(triples, queries)
            && Zipped(Prefixes(triples), Flattened(keys, value)) == map[[0, 5] := value(1, 5)]
  {
    var queries := {Query(0, 1, 5), Query(0, 2, 5), Query(1, 1, 5)};
    var keys, triples := [[0, 5], [1, 5]], [[0, 5, 1], [0, 5, 2], [1, 5, 1]];
    ExampleKeys(keys, triples, queries);
    ExampleZip(keys, triples, value);
  }

  lemma ExampleZip(keys: seq<seq<int>>, triples: seq<seq<int>>, value: Values)
    requires keys == [[0, 5], [1, 5]] && triples == [[0, 5, 1], [0, 5, 2], [1, 5, 1]]
    ensures (forall k :: k in keys ==> |k| == 2) && forall t :: t in triples ==> |t| == 3
    ensures Zipped(Prefixes(triples), Flattened(keys, value)) == map[[0, 5] := value(1, 5)]
  {
    var evals, prefixes := Flattened(keys, value), Prefixes(triples);
    ExampleEvals(keys, value);
    ExamplePrefixes(triples);
    ZipCut(prefixes, evals);
    assert prefixes[..2] == [[0, 5], [0, 5]];
    ZipSame([0, 5], value(0, 5), value(1, 5));
  }

  lemma ExampleEvals(keys: seq<seq<int>>, value: Values)
    requires keys == [[0, 5], [1, 5]] && forall k :: k in keys ==> |k| == 2
    ensures Flattened(keys, value) == [value(0, 5), value(1, 5)]
  {
    var evals := Flattened(keys, value);
    assert evals[0] == value(keys[0][0], keys[0][1]) && evals[1] == value(keys[1][0], keys[1][1]);
  }

  lemma ExamplePrefixes(triples: seq<seq<int>>)
    requires triples == [[0, 5, 1], [0, 5, 2], [1, 5, 1]]
    ensures forall t :: t in triples ==> |t| == 3
    ensures Prefixes(triples) == [[0, 5], [0, 5], [1, 5]]
  {
    var p := Prefixes(triples);
    assert p[0] == triples[0][..2] && p[1] == triples[1][..2] && p[2] == triples[2][..2];
    assert triples[0][..2] == [0, 5] && triples[1][..2] == [0, 5] && triples[2][..2] == [1, 5];
  }

  lemma ExampleKeys(keys: seq<seq<int>>, triples: seq<seq<int>>, queries: set<Query>)
    requires keys == [[0, 5], [1, 5]] && triples == [[0, 5, 1], [0, 5, 2], [1, 5, 1]]
    requires queries == {Query(0, 1, 5), Query(0, 2, 5), Query(1, 1, 5)}
    ensures AreKeys(keys, queries) && AreTriples(triples, queries)
    ensures forall k :: k in keys ==> |k| == 2
    ensures forall t :: t in triples ==> |t| == 3
  {
    AscendingExample(keys, triples);
    assert keys[0] == [0, 5] && keys[1] == [1, 5];
    assert triples[0] == [0, 5, 1] && triples[1] == [0, 5, 2] && triples[2] == [1, 5, 1];
    var q0, q1, q2 := Query(0, 1, 5), Query(0, 2, 5), Query(1, 1, 5);
    assert q0 in queries && q1 in queries && q2 in queries;
    assert [q0.poly, q0.point] == keys[0] && [q2.poly, q2.point] == keys[1];
    assert [q0.poly, q0.point, q0.pointLabel] == triples[0] && [q1.poly, q1.point, q1.pointLabel] == triples[1];
    assert [q2.poly, q2.point, q2.pointLabel] == triples[2];
  }

  lemma ZipSame(k: seq<int>, a: Fp, b: Fp)
    ensures Zipped([k, k], [a, b]) == map[k := b]
  {
    assert [k, k][..1] == [k] && [a, b][..1] == [a];
    assert [k][..0] == [] && [a][..0] == [];
    assert Zipped([k], [a]) == map[k := a];
    assert map[k := a][k := b] == map[k := b];
  }

  lemma AscendingExample(keys: seq<seq<int>>, triples: seq<seq<int>>)
    requires keys == [[0, 5], [1, 5]] && triples == [[0, 5, 1], [0, 5, 2], [1, 5, 1]]
    ensures Ascending(keys) && Ascending(triples)
  {
    FirstSmaller([0, 5], [1, 5]);
    FirstSmaller([0, 5, 1], [1, 5, 1]);
    FirstSmaller([0, 5, 2], [1, 5, 1]);
    assert LexLess([0, 5, 1], [0, 5, 2]) by { assert [0, 5, 1][..2] == [0, 5, 2][..2] && [0, 5, 1][2] < [0, 5, 2][2]; }
  }

  lemma FirstSmaller(v: seq<int>, w: seq<int>)
    requires |v| == |w| > 0 && v[0] < w[0]
    ensures LexLess(v, w)
  {
    assert v[..0] == w[..0];
  }
}
