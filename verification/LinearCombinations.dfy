/** The default batching of any scheme (lib.rs): queries grouped by point label, one opening for
    each group, and linear combinations checked against evaluations that travel as one list.

    A query is a row [label, point label, point].  The scheme is a pair of functions; what they
    draw from the random source depends on the number of the call. */
module LinearCombinations {
  import opened PrimeField
  import opened Combinations
  import opened OrderedSets
  import opened QueryBatches

  datatype Scheme<!Proof, !Sponge> =
    Scheme(open: (nat, seq<int>, int, Sponge) -> Outcome<(Proof, Sponge)>,
           check: (nat, seq<int>, int, seq<Fp>, Proof, Sponge) -> Outcome<(bool, Sponge)>)

  type Rows = seq<seq<int>>
  type Evaluations = map<seq<int>, Fp>

  ghost predicate AllLong(rows: Rows, n: nat) {
    forall r :: r in rows ==> |r| == n
  }

  // ----- grouping by point label

  datatype Group = Group(pointLabel: int, point: int, polys: seq<int>)

  function AddLabel(s: seq<int>, x: int): seq<int> {
    if s == [] || x < s[0] then [x] + s else if x == s[0] then s else [s[0]] + AddLabel(s[1..], x)
  }

  /** The point of a group is that of the first query with its label. */
  function AddQuery(gs: seq<Group>, poly: int, pointLabel: int, point: int): seq<Group> {
    if gs == [] || pointLabel < gs[0].pointLabel then [Group(pointLabel, point, [poly])] + gs
    else if pointLabel == gs[0].pointLabel then [gs[0].(polys := AddLabel(gs[0].polys, poly))] + gs[1..]
    else [gs[0]] + AddQuery(gs[1..], poly, pointLabel, point)
  }

  function Groups(rows: Rows): seq<Group>
    requires AllLong(rows, 3)
  {
    if rows == [] then []
    else
      var q := rows[|rows| - 1];
      assert q in rows;
      AddQuery(Groups(rows[..|rows| - 1]), q[0], q[1], q[2])
  }

  /** The query_to_labels_map that both batch_open and batch_check build. */
  method GroupQueries(rows: Rows) returns (gs: seq<Group>)
    requires AllLong(rows, 3)
    ensures gs == Groups(rows)
  {
    gs := [];
    for i := 0 to |rows|
      invariant gs == Groups(rows[..i])
    {
      assert rows[..i + 1][..i] == rows[..i] && rows[i] in rows;
      gs := AddQuery(gs, rows[i][0], rows[i][1], rows[i][2]);
    }
    assert rows[..|rows|] == rows;
  }

  lemma {:induction false} AddLabelHas(s: seq<int>, x: int, y: int)
    ensures y in AddLabel(s, x) <==> y == x || y in s
  {
    if s != [] && x > s[0] {
      AddLabelHas(s[1..], x, y);
      assert s == [s[0]] + s[1..];
    }
  }

  /** Point labels rise, so every label has one group. */
  predicate Rising(gs: seq<Group>) {
    gs == [] || (Rising(gs[1..]) && (|gs| > 1 ==> gs[0].pointLabel < gs[1].pointLabel))
  }

  lemma {:induction false} AddQueryRises(gs: seq<Group>, poly: int, pointLabel: int, point: int)
    requires Rising(gs)
    ensures var r := AddQuery(gs, poly, pointLabel, point);
            r != [] && Rising(r) && (r[0].pointLabel == pointLabel || (gs != [] && r[0].pointLabel == gs[0].pointLabel))
  {
    if gs == [] || pointLabel < gs[0].pointLabel {
      assert ([Group(pointLabel, point, [poly])] + gs)[1..] == gs;
    } else if pointLabel == gs[0].pointLabel {
      var g := gs[0].(polys := AddLabel(gs[0].polys, poly));
      assert ([g] + gs[1..])[1..] == gs[1..];
    } else {
      AddQueryRises(gs[1..], poly, pointLabel, point);
      var rest := AddQuery(gs[1..], poly, pointLabel, point);
      assert ([gs[0]] + rest)[1..] == rest;
    }
  }

  /** A query with this polynomial, point label and point is in one of the groups. */
  ghost predicate Asked(gs: seq<Group>, poly: int, pointLabel: int) {
    exists g :: g in gs && g.pointLabel == pointLabel && poly in g.polys
  }

  lemma {:induction false} AddQueryAsks(gs: seq<Group>, poly: int, pointLabel: int, point: int, p: int, l: int)
    ensures Asked(AddQuery(gs, poly, pointLabel, point), p, l) <==> Asked(gs, p, l) || (p == poly && l == pointLabel)
  {
    var r := AddQuery(gs, poly, pointLabel, point);
    if gs == [] || pointLabel < gs[0].pointLabel {
      AskedHead(r, p, l);
      assert r[1..] == gs;
    } else if pointLabel == gs[0].pointLabel {
      AddLabelHas(gs[0].polys, poly, p);
      AskedHead(gs, p, l);
      AskedHead(r, p, l);
      assert r[1..] == gs[1..];
    } else {
      AddQueryAsks(gs[1..], poly, pointLabel, point, p, l);
      AskedHead(gs, p, l);
      AskedHead(r, p, l);
      assert r[1..] == AddQuery(gs[1..], poly, pointLabel, point);
    }
  }

  lemma AskedHead(gs: seq<Group>, p: int, l: int)
    requires gs != []
    ensures Asked(gs, p, l) <==> (gs[0].pointLabel == l && p in gs[0].polys) || Asked(gs[1..], p, l)
  {
    assert gs == [gs[0]] + gs[1..];
    assert gs[0] in gs;
    assert forall g :: g in gs[1..] ==> g in gs;
  }

  ghost predicate HasRow(rows: Rows, poly: int, pointLabel: int)
    requires AllLong(rows, 3)
  {
    exists r :: r in rows && r[0] == poly && r[1] == pointLabel
  }

  /** The groups ask for exactly the queried polynomials at each point label, and no label has
      two groups. */
  lemma {:induction false} GroupsAsk(rows: Rows, p: int, l: int)
    requires AllLong(rows, 3)
    ensures Rising(Groups(rows))
    ensures Asked(Groups(rows), p, l) <==> HasRow(rows, p, l)
  {
    if rows != [] {
      var rest, q := rows[..|rows| - 1], rows[|rows| - 1];
      assert q in rows && rows == rest + [q];
      GroupsAsk(rest, p, l);
      AddQueryRises(Groups(rest), q[0], q[1], q[2]);
      AddQueryAsks(Groups(rest), q[0], q[1], q[2], p, l);
      assert HasRow(rows, p, l) <==> HasRow(rest, p, l) || (p == q[0] && l == q[1]);
    }
  }

  /** Every point label stands for one point. */
  ghost predicate OnePoint(rows: Rows)
    requires AllLong(rows, 3)
  {
    forall r, r' :: r in rows && r' in rows && r[1] == r'[1] ==> r[2] == r'[2]
  }

  /** The group's own point was queried under its label. */
  ghost predicate Placed(rows: Rows, g: Group)
    requires AllLong(rows, 3)
  {
    exists r :: r in rows && r[1] == g.pointLabel && r[2] == g.point
  }

  lemma {:induction false} AddQueryPlaces(gs: seq<Group>, poly: int, pointLabel: int, point: int, g: Group)
    requires g in AddQuery(gs, poly, pointLabel, point)
    ensures (g.pointLabel == pointLabel && g.point == point)
            || exists h :: h in gs && h.pointLabel == g.pointLabel && h.point == g.point
  {
    if gs != [] {
      assert gs == [gs[0]] + gs[1..];
      assert gs[0] in gs;
      if pointLabel > gs[0].pointLabel && g != gs[0] {
        assert g in AddQuery(gs[1..], poly, pointLabel, point);
        AddQueryPlaces(gs[1..], poly, pointLabel, point, g);
      }
    }
  }

  lemma {:induction false} GroupsPlaced(rows: Rows, g: Group)
    requires AllLong(rows, 3) && g in Groups(rows)
    ensures Placed(rows, g)
  {
    if rows != [] {
      var rest, q := rows[..|rows| - 1], rows[|rows| - 1];
      assert q in rows && rows == rest + [q];
      AddQueryPlaces(Groups(rest), q[0], q[1], q[2], g);
      if !(g.pointLabel == q[1] && g.point == q[2]) {
        var h :| h in Groups(rest) && h.pointLabel == g.pointLabel && h.point == g.point;
        GroupsPlaced(rest, h);
      }
    }
  }

  /** Where point labels stand for one point, a group asks for a polynomial at a point only if
      that very query was made. */
  lemma GroupsTrue(rows: Rows, g: Group, p: int)
    requires AllLong(rows, 3) && OnePoint(rows) && g in Groups(rows) && p in g.polys
    ensures [p, g.pointLabel, g.point] in rows
  {
    GroupsPlaced(rows, g);
    GroupsAsk(rows, p, g.pointLabel);
    assert Asked(Groups(rows), p, g.pointLabel);
    var r :| r in rows && r[0] == p && r[1] == g.pointLabel;
    var r' :| r' in rows && r'[1] == g.pointLabel && r'[2] == g.point;
    assert r == [p, g.pointLabel, g.point];
  }

  // ----- batch_open and batch_check

  /** The openings of the first n groups, one call of open for each. */
  function OpenedUpTo<Proof, Sponge>(scheme: Scheme<Proof, Sponge>, known: set<int>, gs: seq<Group>, n: nat,
                                     s: Sponge): (r: Outcome<(seq<Proof>, Sponge)>)
    requires n <= |gs|
    ensures r.Ok? ==> |r.value.0| == n
  {
    if n == 0 then Ok(([], s))
    else
      match OpenedUpTo(scheme, known, gs, n - 1, s)
      case Err => Err
      case Panic => Panic
      case Ok(before) =>
        if exists p :: p in gs[n - 1].polys && p !in known then Err
        else
          match scheme.open(n - 1, gs[n - 1].polys, gs[n - 1].point, before.1)
          case Err => Err
          case Panic => Panic
          case Ok(next) => Ok((before.0 + [next.0], next.1))
  }

  /** Labels that name a polynomial; the source stops with an error at the first that does not. */
  method AllKnown(polys: seq<int>, known: set<int>) returns (ok: bool)
    ensures ok <==> forall p :: p in polys ==> p in known
  {
    for i := 0 to |polys|
      invariant forall k :: 0 <= k < i ==> polys[k] in known
    {
      if polys[i] !in known {
        var p := polys[i];
        assert p in polys && p !in known;
        return false;
      }
    }
    return true;
  }

  lemma {:induction false} OpenErrStays<Proof, Sponge>(scheme: Scheme<Proof, Sponge>, known: set<int>, gs: seq<Group>,
                                                       m: nat, n: nat, s: Sponge)
    requires m <= n <= |gs| && !OpenedUpTo(scheme, known, gs, m, s).Ok?
    ensures OpenedUpTo(scheme, known, gs, n, s) == OpenedUpTo(scheme, known, gs, m, s)
  {
    if m < n { OpenErrStays(scheme, known, gs, m, n - 1, s); }
  }

  method BatchOpen<Proof, Sponge>(scheme: Scheme<Proof, Sponge>, known: set<int>, rows: Rows, sponge: Sponge)
    returns (r: Outcome<(seq<Proof>, Sponge)>)
    requires AllLong(rows, 3)
    ensures r == OpenedUpTo(scheme, known, Groups(rows), |Groups(rows)|, sponge)
  {
    var gs := GroupQueries(rows);
    var proofs, s := [], sponge;
    for i := 0 to |gs|
      invariant OpenedUpTo(scheme, known, gs, i, sponge) == Ok((proofs, s))
    {
      var ok := AllKnown(gs[i].polys, known);
      var next := if ok then scheme.open(i, gs[i].polys, gs[i].point, s) else Err;
      match next {
        case Ok(answer) =>
          proofs, s := proofs + [answer.0], answer.1;
        case Err =>
          OpenErrStays(scheme, known, gs, i + 1, |gs|, sponge);
          return Err;
        case Panic =>
          OpenErrStays(scheme, known, gs, i + 1, |gs|, sponge);
          return Panic;
      }
    }
    return Ok((proofs, s));
  }

  /** The claimed values at one point; missing polynomials and evaluations are errors. */
  function Claims(polys: seq<int>, point: int, known: set<int>, evals: Evaluations): Outcome<seq<Fp>> {
    if forall p :: p in polys ==> p in known && [p, point] in evals
    then Ok(seq(|polys|, i requires 0 <= i < |polys| => assert polys[i] in polys; evals[[polys[i], point]]))
    else Err
  }

  method GatherClaims(polys: seq<int>, point: int, known: set<int>, evals: Evaluations) returns (r: Outcome<seq<Fp>>)
    ensures r == Claims(polys, point, known, evals)
  {
    var values := [];
    for i := 0 to |polys|
      invariant |values| == i
      invariant forall k :: 0 <= k < i ==>
        polys[k] in known && [polys[k], point] in evals && values[k] == evals[[polys[k], point]]
    {
      if polys[i] !in known || [polys[i], point] !in evals {
        ghost var p := polys[i];
        assert p in polys && !(p in known && [p, point] in evals);
        return Err;
      }
      values := values + [evals[[polys[i], point]]];
    }
    r := Ok(values);
    assert r.value == Claims(polys, point, known, evals).value;
  }

  /** The check of one group, after the groups before it. */
  function CheckedGroup<Proof, Sponge>(scheme: Scheme<Proof, Sponge>, known: set<int>, g: Group, evals: Evaluations,
                                       proof: Proof, i: nat, before: (bool, Sponge)): Outcome<(bool, Sponge)> {
    match Claims(g.polys, g.point, known, evals)
    case Err => Err
    case Panic => Panic
    case Ok(values) =>
      match scheme.check(i, g.polys, g.point, values, proof, before.1)
      case Err => Err
      case Panic => Panic
      case Ok(next) => Ok((before.0 && next.0, next.1))
  }

  method CheckGroup<Proof, Sponge>(scheme: Scheme<Proof, Sponge>, known: set<int>, g: Group, evals: Evaluations,
                                   proof: Proof, i: nat, result: bool, s: Sponge)
    returns (r: Outcome<(bool, Sponge)>)
    ensures r == CheckedGroup(scheme, known, g, evals, proof, i, (result, s))
  {
    var values := GatherClaims(g.polys, g.point, known, evals);
    if !values.Ok? { return if values.Err? then Err else Panic; }
    r := scheme.check(i, g.polys, g.point, values.value, proof, s);
    if r.Ok? { r := Ok((result && r.value.0, r.value.1)); }
  }

  /** The checks of the first n groups; the proofs are taken in order. */
  function CheckedUpTo<Proof, Sponge>(scheme: Scheme<Proof, Sponge>, known: set<int>, gs: seq<Group>,
                                      evals: Evaluations, proofs: seq<Proof>, n: nat, s: Sponge):
    (r: Outcome<(bool, Sponge)>)
    requires n <= |gs| == |proofs|
  {
    if n == 0 then Ok((true, s))
    else
      match CheckedUpTo(scheme, known, gs, evals, proofs, n - 1, s)
      case Err => Err
      case Panic => Panic
      case Ok(before) =>
        CheckedGroup(scheme, known, gs[n - 1], evals, proofs[n - 1], n - 1, before)
  }

  lemma {:induction false} CheckErrStays<Proof, Sponge>(scheme: Scheme<Proof, Sponge>, known: set<int>,
                                                        gs: seq<Group>, evals: Evaluations, proofs: seq<Proof>,
                                                        m: nat, n: nat, s: Sponge)
    requires m <= n <= |gs| == |proofs| && !CheckedUpTo(scheme, known, gs, evals, proofs, m, s).Ok?
    ensures CheckedUpTo(scheme, known, gs, evals, proofs, n, s) == CheckedUpTo(scheme, known, gs, evals, proofs, m, s)
  {
    if m < n { CheckErrStays(scheme, known, gs, evals, proofs, m, n - 1, s); }
  }

  /** batch_check; a different number of proofs and groups fails an assertion. */
  function BatchChecked<Proof, Sponge>(scheme: Scheme<Proof, Sponge>, known: set<int>, rows: Rows, evals: Evaluations,
                                       proofs: seq<Proof>, s: Sponge): Outcome<(bool, Sponge)>
    requires AllLong(rows, 3)
  {
    if |proofs| != |Groups(rows)| then Panic
    else CheckedUpTo(scheme, known, Groups(rows), evals, proofs, |proofs|, s)
  }

  method BatchCheck<Proof, Sponge>(scheme: Scheme<Proof, Sponge>, known: set<int>, rows: Rows, evals: Evaluations,
                                   proofs: seq<Proof>, sponge: Sponge) returns (r: Outcome<(bool, Sponge)>)
    requires AllLong(rows, 3)
    ensures r == BatchChecked(scheme, known, rows, evals, proofs, sponge)
  {
    var gs := GroupQueries(rows);
    if |proofs| != |gs| { return Panic; }
    var result, s := true, sponge;
    for i := 0 to |gs|
      invariant CheckedUpTo(scheme, known, gs, evals, proofs, i, sponge) == Ok((result, s))
    {
      var next := CheckGroup(scheme, known, gs[i], evals, proofs[i], i, result, s);
      if !next.Ok? {
        CheckErrStays(scheme, known, gs, evals, proofs, i + 1, |gs|, sponge);
        return next;
      }
      result, s := next.value.0, next.value.1;
    }
    return Ok((result, s));
  }

  // ----- completeness carries over

  function TrueValues(polys: seq<int>, point: int, value: Values): (r: seq<Fp>)
    ensures |r| == |polys| && forall i :: 0 <= i < |r| ==> r[i] == value(polys[i], point)
  {
    seq(|polys|, i requires 0 <= i < |polys| => value(polys[i], point))
  }

  /** An honest opening is accepted with the true values, and leaves the sponge where the prover
      left it. */
  ghost predicate Accepted<Proof, Sponge>(scheme: Scheme<Proof, Sponge>, value: Values, k: nat, polys: seq<int>,
                                          point: int, s: Sponge) {
    match scheme.open(k, polys, point, s)
    case Err => true
    case Panic => true
    case Ok(answer) =>
      scheme.check(k, polys, point, TrueValues(polys, point, value), answer.0, s) == Ok((true, answer.1))
  }

  ghost predicate Complete<Proof, Sponge(!new)>(scheme: Scheme<Proof, Sponge>, value: Values) {
    forall k: nat, polys, point, s :: Accepted(scheme, value, k, polys, point, s)
  }

  ghost predicate TrueAt(evals: Evaluations, value: Values, p: int, point: int) {
    [p, point] in evals && evals[[p, point]] == value(p, point)
  }

  ghost predicate TrueFor(gs: seq<Group>, evals: Evaluations, value: Values) {
    forall g :: g in gs ==> forall p :: p in g.polys ==> TrueAt(evals, value, p, g.point)
  }

  lemma ClaimsTrue(g: Group, known: set<int>, evals: Evaluations, value: Values)
    requires forall p :: p in g.polys ==> p in known
    requires forall p :: p in g.polys ==> TrueAt(evals, value, p, g.point)
    ensures Claims(g.polys, g.point, known, evals) == Ok(TrueValues(g.polys, g.point, value))
  {
    assert forall p :: p in g.polys ==> p in known && [p, g.point] in evals;
    var c := Claims(g.polys, g.point, known, evals).value;
    forall i | 0 <= i < |c| ensures c[i] == TrueValues(g.polys, g.point, value)[i] {
      assert g.polys[i] in g.polys;
      assert TrueAt(evals, value, g.polys[i], g.point);
    }
    assert c == TrueValues(g.polys, g.point, value);
  }

  /** Honest proofs of all groups are accepted in order, with prover and verifier in step. */
  lemma {:induction false} GroupsAccepted<Proof, Sponge(!new)>(
      scheme: Scheme<Proof, Sponge>, known: set<int>, gs: seq<Group>, evals: Evaluations, value: Values,
      proofs: seq<Proof>, n: nat, s: Sponge)
    requires Complete(scheme, value) && TrueFor(gs, evals, value) && n <= |gs| == |proofs|
    requires OpenedUpTo(scheme, known, gs, n, s).Ok? && OpenedUpTo(scheme, known, gs, n, s).value.0 == proofs[..n]
    ensures CheckedUpTo(scheme, known, gs, evals, proofs, n, s)
            == Ok((true, OpenedUpTo(scheme, known, gs, n, s).value.1))
  {
    if n > 0 {
      var before := OpenedUpTo(scheme, known, gs, n - 1, s).value;
      assert proofs[..n][..n - 1] == proofs[..n - 1];
      GroupsAccepted(scheme, known, gs, evals, value, proofs, n - 1, s);
      var g := gs[n - 1];
      assert g in gs;
      ClaimsTrue(g, known, evals, value);
      assert Accepted(scheme, value, n - 1, g.polys, g.point, before.1);
      assert proofs[..n][n - 1] == proofs[n - 1];
    }
  }

  /** batch_check accepts what batch_open returned, for every query set in which a point label
      stands for one point, and leaves the sponge where batch_open left it. */
  lemma BatchAccepted<Proof, Sponge(!new)>(scheme: Scheme<Proof, Sponge>, known: set<int>, rows: Rows,
                                           evals: Evaluations,
                                           value: Values, proofs: seq<Proof>, s: Sponge, s': Sponge)
    requires AllLong(rows, 3) && OnePoint(rows) && Complete(scheme, value)
    requires forall r :: r in rows ==> TrueAt(evals, value, r[0], r[2])
    requires OpenedUpTo(scheme, known, Groups(rows), |Groups(rows)|, s) == Ok((proofs, s'))
    ensures BatchChecked(scheme, known, rows, evals, proofs, s) == Ok((true, s'))
  {
    var gs := Groups(rows);
    forall g, p | g in gs && p in g.polys ensures TrueAt(evals, value, p, g.point) {
      GroupsTrue(rows, g, p);
      var r := [p, g.pointLabel, g.point];
      assert r in rows && r[0] == p && r[2] == g.point;
    }
    assert proofs[..|gs|] == proofs;
    GroupsAccepted(scheme, known, gs, evals, value, proofs, |gs|, s);
  }

  // ----- linear combinations

  datatype Term = One | Poly(polyLabel: int)

  type Combination = seq<(Fp, Term)>

  /** The polynomials of the first n terms, queried at one labelled point. */
  function AddTerms(rows: Rows, lc: Combination, n: nat, pointLabel: int, point: int): Rows
    requires n <= |lc|
  {
    if n == 0 then rows
    else
      var before := AddTerms(rows, lc, n - 1, pointLabel, point);
      if lc[n - 1].1.One? then before else Insert(before, [lc[n - 1].1.polyLabel, pointLabel, point])
  }

  function PolyRows(lcs: map<int, Combination>, queries: Rows, n: nat): Rows
    requires AllLong(queries, 3) && n <= |queries|
  {
    if n == 0 then []
    else
      assert queries[n - 1] in queries;
      var q, before := queries[n - 1], PolyRows(lcs, queries, n - 1);
      if q[0] in lcs then AddTerms(before, lcs[q[0]], |lcs[q[0]]|, q[1], q[2]) else before
  }

  /** lc_query_set_to_poly_query_set. */
  method LcQuerySetToPolyQuerySet(lcs: map<int, Combination>, queries: Rows) returns (rows: Rows)
    requires AllLong(queries, 3)
    ensures rows == PolyRows(lcs, queries, |queries|)
  {
    rows := [];
    for i := 0 to |queries|
      invariant rows == PolyRows(lcs, queries, i)
    {
      assert queries[i] in queries;
      if queries[i][0] in lcs {
        var lc := lcs[queries[i][0]];
        ghost var before := rows;
        for j := 0 to |lc|
          invariant rows == AddTerms(before, lc, j, queries[i][1], queries[i][2])
        {
          match lc[j].1 {
            case One =>
            case Poly(polyLabel) => rows := Insert(rows, [polyLabel, queries[i][1], queries[i][2]]);
          }
        }
      }
    }
  }

  /** The combination mentions the polynomial among its first n terms. */
  ghost predicate Mentions(lc: Combination, n: nat, p: int)
    requires n <= |lc|
  {
    exists k :: 0 <= k < n && lc[k].1 == Poly(p)
  }

  lemma {:induction false} AddTermsHas(rows: Rows, lc: Combination, n: nat, pointLabel: int, point: int, x: seq<int>)
    requires n <= |lc|
    ensures x in AddTerms(rows, lc, n, pointLabel, point)
            <==> x in rows || (|x| == 3 && x[1] == pointLabel && x[2] == point && Mentions(lc, n, x[0]))
  {
    if n > 0 {
      AddTermsHas(rows, lc, n - 1, pointLabel, point, x);
      if |x| == 3 { MentionsNext(lc, n, x[0]); }
      if lc[n - 1].1.Poly? {
        var y := [lc[n - 1].1.polyLabel, pointLabel, point];
        InsertHas(AddTerms(rows, lc, n - 1, pointLabel, point), y, x);
        assert |x| == 3 ==> (x == y <==> x[0] == y[0] && x[1] == y[1] && x[2] == y[2]) by {
          if |x| == 3 { assert x == [x[0], x[1], x[2]]; }
        }
      }
    }
  }

  lemma MentionsNext(lc: Combination, n: nat, p: int)
    requires 0 < n <= |lc|
    ensures Mentions(lc, n, p) <==> Mentions(lc, n - 1, p) || lc[n - 1].1 == Poly(p)
  {
  }

  lemma {:induction false} AddTermsAscends(rows: Rows, lc: Combination, n: nat, pointLabel: int, point: int)
    requires n <= |lc| && Ascending(rows) && AllLong(rows, 3)
    ensures var r := AddTerms(rows, lc, n, pointLabel, point); Ascending(r) && AllLong(r, 3)
  {
    if n > 0 {
      AddTermsAscends(rows, lc, n - 1, pointLabel, point);
      if lc[n - 1].1.Poly? {
        var before, x := AddTerms(rows, lc, n - 1, pointLabel, point), [lc[n - 1].1.polyLabel, pointLabel, point];
        InsertAscends(before, x);
        forall y | y in Insert(before, x) ensures |y| == 3 { InsertHas(before, x, y); }
      }
    }
  }

  ghost predicate AskedBy(lcs: map<int, Combination>, queries: Rows, n: nat, x: seq<int>)
    requires AllLong(queries, 3) && n <= |queries| && |x| == 3
  {
    exists i :: 0 <= i < n && Needs(lcs, queries, i, x)
  }

  /** Query i is of a known combination that mentions the polynomial of x, at the point of x. */
  ghost predicate Needs(lcs: map<int, Combination>, queries: Rows, i: nat, x: seq<int>)
    requires AllLong(queries, 3) && i < |queries| && |x| == 3
  {
    assert queries[i] in queries;
    var q := queries[i];
    q[0] in lcs && Mentions(lcs[q[0]], |lcs[q[0]]|, x[0]) && x[1] == q[1] && x[2] == q[2]
  }

  /** The derived query set holds exactly the polynomials that the queried combinations mention,
      each at the points of those queries. */
  lemma {:induction false} PolyRowsAre(lcs: map<int, Combination>, queries: Rows, n: nat)
    requires AllLong(queries, 3) && n <= |queries|
    ensures var rows := PolyRows(lcs, queries, n);
            && Ascending(rows) && AllLong(rows, 3)
            && forall x :: |x| == 3 ==> (x in rows <==> AskedBy(lcs, queries, n, x))
  {
    if n > 0 {
      PolyRowsAre(lcs, queries, n - 1);
      assert queries[n - 1] in queries;
      var q, before, rows := queries[n - 1], PolyRows(lcs, queries, n - 1), PolyRows(lcs, queries, n);
      if q[0] in lcs { AddTermsAscends(before, lcs[q[0]], |lcs[q[0]]|, q[1], q[2]); }
      forall x: seq<int> | |x| == 3 ensures x in rows <==> AskedBy(lcs, queries, n, x) {
        if q[0] in lcs { AddTermsHas(before, lcs[q[0]], |lcs[q[0]]|, q[1], q[2], x); }
        AskedNext(lcs, queries, n, x);
      }
    }
  }

  lemma AskedNext(lcs: map<int, Combination>, queries: Rows, n: nat, x: seq<int>)
    requires AllLong(queries, 3) && 0 < n <= |queries| && |x| == 3
    ensures AskedBy(lcs, queries, n, x) <==> AskedBy(lcs, queries, n - 1, x) || Needs(lcs, queries, n - 1, x)
  {
  }

  // ----- the right-hand sides

  /** The true value of the first n terms. */
  function TrueSum(lc: Combination, n: nat, point: int, value: Values): Fp
    requires n <= |lc|
  {
    if n == 0 then 0
    else
      var v := if lc[n - 1].1.One? then 1 else value(lc[n - 1].1.polyLabel, point);
      Add(TrueSum(lc, n - 1, point, value), Mul(lc[n - 1].0, v))
  }

  /** The sum computed from the evaluations received; a missing one is an error. */
  function ActualSum(lc: Combination, n: nat, point: int, evals: Evaluations): (r: Outcome<Fp>)
    requires n <= |lc|
    ensures !r.Panic?
  {
    if n == 0 then Ok(0)
    else
      match ActualSum(lc, n - 1, point, evals)
      case Err => Err
      case Panic => Panic
      case Ok(before) =>
        match lc[n - 1].1
        case One => Ok(Add(before, Mul(lc[n - 1].0, 1)))
        case Poly(p) => if [p, point] in evals then Ok(Add(before, Mul(lc[n - 1].0, evals[[p, point]]))) else Err
  }

  lemma {:induction false} ActualErrStays(lc: Combination, m: nat, n: nat, point: int, evals: Evaluations)
    requires m <= n <= |lc| && ActualSum(lc, m, point, evals) == Err
    ensures ActualSum(lc, n, point, evals) == Err
  {
    if m < n { ActualErrStays(lc, m, n - 1, point, evals); }
  }

  method RightHandSide(lc: Combination, point: int, evals: Evaluations) returns (r: Outcome<Fp>)
    ensures r == ActualSum(lc, |lc|, point, evals)
  {
    var actual: Fp := 0;
    for i := 0 to |lc|
      invariant ActualSum(lc, i, point, evals) == Ok(actual)
    {
      match lc[i].1 {
        case One =>
          actual := Add(actual, Mul(lc[i].0, 1));
        case Poly(p) =>
          if [p, point] !in evals {
            ActualErrStays(lc, i + 1, |lc|, point, evals);
            return Err;
          }
          actual := Add(actual, Mul(lc[i].0, evals[[p, point]]));
      }
    }
    return Ok(actual);
  }

  lemma {:induction false} ActualIsTrue(lc: Combination, n: nat, point: int, evals: Evaluations, value: Values)
    requires n <= |lc| && forall p :: Mentions(lc, n, p) ==> TrueAt(evals, value, p, point)
    ensures ActualSum(lc, n, point, evals) == Ok(TrueSum(lc, n, point, value))
  {
    if n > 0 {
      forall p | Mentions(lc, n - 1, p) ensures TrueAt(evals, value, p, point) { MentionsNext(lc, n, p); }
      ActualIsTrue(lc, n - 1, point, evals, value);
      if lc[n - 1].1.Poly? {
        var p := lc[n - 1].1.polyLabel;
        assert Mentions(lc, n, p) by { MentionsNext(lc, n, p); }
        assert TrueAt(evals, value, p, point);
      }
    }
  }

  /** The equations of the first n queries; the first false one ends the check. */
  function EquationsUpTo(lcs: map<int, Combination>, queries: Rows, n: nat, claimed: Evaluations,
                         evals: Evaluations): Outcome<bool>
    requires AllLong(queries, 3) && n <= |queries|
  {
    if n == 0 then Ok(true)
    else
      var before := EquationsUpTo(lcs, queries, n - 1, claimed, evals);
      assert queries[n - 1] in queries;
      var q := queries[n - 1];
      if before != Ok(true) || q[0] !in lcs then before
      else if [q[0], q[2]] !in claimed then Err
      else
        match ActualSum(lcs[q[0]], |lcs[q[0]]|, q[2], evals)
        case Err => Err
        case Panic => Panic
        case Ok(actual) => Ok(claimed[[q[0], q[2]]] == actual)
  }

  lemma {:induction false} EquationsStop(lcs: map<int, Combination>, queries: Rows, m: nat, n: nat,
                                         claimed: Evaluations, evals: Evaluations)
    requires AllLong(queries, 3) && m <= n <= |queries| && EquationsUpTo(lcs, queries, m, claimed, evals) != Ok(true)
    ensures EquationsUpTo(lcs, queries, n, claimed, evals) == EquationsUpTo(lcs, queries, m, claimed, evals)
  {
    if m < n { EquationsStop(lcs, queries, m, n - 1, claimed, evals); }
  }

  method CheckEquations(lcs: map<int, Combination>, queries: Rows, claimed: Evaluations, evals: Evaluations)
    returns (r: Outcome<bool>)
    requires AllLong(queries, 3)
    ensures r == EquationsUpTo(lcs, queries, |queries|, claimed, evals)
  {
    for i := 0 to |queries|
      invariant EquationsUpTo(lcs, queries, i, claimed, evals) == Ok(true)
    {
      var q := queries[i];
      assert q in queries;
      if q[0] in lcs {
        if [q[0], q[2]] !in claimed {
          EquationsStop(lcs, queries, i + 1, |queries|, claimed, evals);
          return Err;
        }
        var actual := RightHandSide(lcs[q[0]], q[2], evals);
        if actual != Ok(claimed[[q[0], q[2]]]) {
          EquationsStop(lcs, queries, i + 1, |queries|, claimed, evals);
          return if actual.Ok? then Ok(false) else Err;
        }
      }
    }
    return Ok(true);
  }
}
