/** What the default batching does with any scheme, for whatever proofs (lib.rs): the order of its
    calls, the sponges between them, and the equations it compares. */
module BatchingDecisions {
  import opened PrimeField
  import opened Vectors
  import opened QueryBatches
  import opened LinearCombinations
  import opened CombinationChecks

  // ----- the groups

  ghost predicate Climbs(s: seq<int>) {
    forall i, j :: 0 <= i < j < |s| ==> s[i] < s[j]
  }

  lemma {:induction false} AddLabelClimbs(s: seq<int>, x: int)
    requires Climbs(s)
    ensures Climbs(AddLabel(s, x))
  {
    if s != [] && x > s[0] {
      AddLabelClimbs(s[1..], x);
      var rest := AddLabel(s[1..], x);
      forall j | 0 <= j < |rest| ensures s[0] < rest[j] {
        AddLabelHas(s[1..], x, rest[j]);
        assert rest[j] in rest;
      }
    }
  }

  lemma {:induction false} AddQueryClimbs(gs: seq<Group>, poly: int, pointLabel: int, point: int)
    requires forall g :: g in gs ==> Climbs(g.polys)
    ensures forall g :: g in AddQuery(gs, poly, pointLabel, point) ==> Climbs(g.polys)
  {
    if gs != [] {
      assert gs == [gs[0]] + gs[1..] && gs[0] in gs;
      AddLabelClimbs(gs[0].polys, poly);
      if pointLabel > gs[0].pointLabel {
        assert forall g :: g in gs[1..] ==> g in gs;
        AddQueryClimbs(gs[1..], poly, pointLabel, point);
      }
    }
  }

  /** Within a group the labels rise strictly: open gets the polynomials in this order, check the
      commitments and the values. */
  lemma {:induction false} GroupsClimb(rows: Rows)
    requires AllLong(rows, 3)
    ensures forall g :: g in Groups(rows) ==> Climbs(g.polys)
  {
    if rows != [] {
      var rest, q := rows[..|rows| - 1], rows[|rows| - 1];
      assert q in rows && rows == rest + [q];
      GroupsClimb(rest);
      AddQueryClimbs(Groups(rest), q[0], q[1], q[2]);
    }
  }

  /** The point of a group is that of the first query under its label. */
  ghost predicate FirstAt(rows: Rows, g: Group, i: nat)
    requires AllLong(rows, 3) && i < |rows|
  {
    assert rows[i] in rows;
    && rows[i][1] == g.pointLabel && rows[i][2] == g.point
    && forall k :: 0 <= k < i ==> !Labelled(rows, k, g.pointLabel)
  }

  ghost predicate Labelled(rows: Rows, k: nat, l: int)
    requires AllLong(rows, 3) && k < |rows|
  {
    assert rows[k] in rows;
    rows[k][1] == l
  }

  lemma {:induction false} AddQueryKeeps(gs: seq<Group>, poly: int, pointLabel: int, point: int, g: Group)
    requires Rising(gs) && g in AddQuery(gs, poly, pointLabel, point)
    ensures (exists h :: h in gs && h.pointLabel == g.pointLabel && h.point == g.point)
            || (g.pointLabel == pointLabel && g.point == point && forall h :: h in gs ==> h.pointLabel != pointLabel)
  {
    if gs != [] {
      assert gs == [gs[0]] + gs[1..];
      assert gs[0] in gs;
      if pointLabel < gs[0].pointLabel {
        LaterLabels(gs);
      } else if pointLabel > gs[0].pointLabel && g != gs[0] {
        assert g in AddQuery(gs[1..], poly, pointLabel, point);
        AddQueryKeeps(gs[1..], poly, pointLabel, point, g);
      }
    }
  }

  lemma {:induction false} LaterLabels(gs: seq<Group>)
    requires Rising(gs) && gs != []
    ensures forall h :: h in gs ==> h.pointLabel >= gs[0].pointLabel
  {
    assert gs == [gs[0]] + gs[1..];
    if |gs| > 1 { LaterLabels(gs[1..]); }
  }

  lemma {:induction false} GroupsKeepFirst(rows: Rows, g: Group)
    requires AllLong(rows, 3) && g in Groups(rows)
    ensures exists i :: 0 <= i < |rows| && FirstAt(rows, g, i)
  {
    var rest, q := rows[..|rows| - 1], rows[|rows| - 1];
    assert q in rows && rows == rest + [q];
    GroupsAsk(rest, 0, 0);
    AddQueryKeeps(Groups(rest), q[0], q[1], q[2], g);
    if h :| h in Groups(rest) && h.pointLabel == g.pointLabel && h.point == g.point {
      GroupsKeepFirst(rest, h);
      var i :| 0 <= i < |rest| && FirstAt(rest, h, i);
      forall k | 0 <= k < i ensures !Labelled(rows, k, g.pointLabel) { assert !Labelled(rest, k, h.pointLabel); }
      assert FirstAt(rows, g, i);
    } else {
      forall k | 0 <= k < |rest| ensures !Labelled(rows, k, g.pointLabel) {
        var r := rest[k];
        assert r in rest && HasRow(rest, r[0], r[1]);
        GroupsAsk(rest, r[0], r[1]);
        var h :| h in Groups(rest) && h.pointLabel == r[1] && r[0] in h.polys;
      }
      assert FirstAt(rows, g, |rest|);
    }
  }

  // ----- the calls of open

  /** Call i opens group i on the sponge that the call before it left. */
  ghost predicate OpensInTurn<Proof(!new), Sponge(!new)>(scheme: Scheme<Proof, Sponge>, gs: seq<Group>,
                                                         proofs: seq<Proof>, ss: seq<Sponge>) {
    && |proofs| <= |gs| && |ss| == |proofs| + 1
    && forall i :: 0 <= i < |proofs| ==> OpensAt(scheme, gs[i], i, proofs[i], ss[i], ss[i + 1])
  }

  ghost predicate OpensAt<Proof(!new), Sponge(!new)>(scheme: Scheme<Proof, Sponge>, g: Group, i: nat, proof: Proof,
                                                     s: Sponge, s': Sponge) {
    scheme.open(i, g.polys, g.point, s) == Ok((proof, s'))
  }

  ghost predicate AllNamed(known: set<int>, gs: seq<Group>, n: nat)
    requires n <= |gs|
  {
    forall i :: 0 <= i < n ==> forall p :: p in gs[i].polys ==> p in known
  }

  /** batch_open returns these proofs and this sponge exactly if all polynomials are there and the calls
      of open return them in turn. */
  lemma OpenedIs<Proof(!new), Sponge(!new)>(
      scheme: Scheme<Proof, Sponge>, known: set<int>, gs: seq<Group>, n: nat, s: Sponge, proofs: seq<Proof>, s': Sponge)
    requires n <= |gs|
    ensures OpenedUpTo(scheme, known, gs, n, s) == Ok((proofs, s'))
            <==> && |proofs| == n && AllNamed(known, gs, n)
                 && exists ss :: OpensInTurn(scheme, gs, proofs, ss) && ss[0] == s && ss[n] == s'
  {
    if OpenedUpTo(scheme, known, gs, n, s) == Ok((proofs, s')) { var ss := OpenedTurns(scheme, known, gs, n, s); }
    if |proofs| == n && AllNamed(known, gs, n) {
      if ss :| OpensInTurn(scheme, gs, proofs, ss) && ss[0] == s && ss[n] == s' {
        TurnsOpen(scheme, known, gs, proofs, ss);
      }
    }
  }

  lemma {:induction false} OpenedTurns<Proof(!new), Sponge(!new)>(
      scheme: Scheme<Proof, Sponge>, known: set<int>, gs: seq<Group>, n: nat, s: Sponge) returns (ss: seq<Sponge>)
    requires n <= |gs| && OpenedUpTo(scheme, known, gs, n, s).Ok?
    ensures AllNamed(known, gs, n)
    ensures OpensInTurn(scheme, gs, OpenedUpTo(scheme, known, gs, n, s).value.0, ss)
    ensures ss[0] == s && ss[n] == OpenedUpTo(scheme, known, gs, n, s).value.1
  {
    ss := [s];
    if n > 0 {
      var before, after := OpenedUpTo(scheme, known, gs, n - 1, s).value, OpenedUpTo(scheme, known, gs, n, s).value;
      ss := OpenedTurns(scheme, known, gs, n - 1, s);
      assert OpensAt(scheme, gs[n - 1], n - 1, after.0[n - 1], before.1, after.1);
      TurnMore(scheme, gs, before.0, ss, after.0[n - 1], after.1);
      ss := ss + [after.1];
    }
  }

  lemma {:induction false} TurnsOpen<Proof(!new), Sponge(!new)>(
      scheme: Scheme<Proof, Sponge>, known: set<int>, gs: seq<Group>, proofs: seq<Proof>, ss: seq<Sponge>)
    requires OpensInTurn(scheme, gs, proofs, ss) && AllNamed(known, gs, |proofs|)
    ensures OpenedUpTo(scheme, known, gs, |proofs|, ss[0]) == Ok((proofs, ss[|proofs|]))
  {
    var n := |proofs|;
    if n > 0 {
      TurnLess(scheme, gs, proofs, ss);
      assert ss[..n][0] == ss[0] && ss[..n][n - 1] == ss[n - 1];
      TurnsOpen(scheme, known, gs, proofs[..n - 1], ss[..n]);
      assert OpensAt(scheme, gs[n - 1], n - 1, proofs[n - 1], ss[n - 1], ss[n]);
      assert proofs == proofs[..n - 1] + [proofs[n - 1]];
    }
  }

  /** The first group that is not opened decides: an unknown polynomial is an error, and a call that fails
      fails the whole. */
  lemma {:induction false} OpenFailsAt<Proof(!new), Sponge(!new)>(
      scheme: Scheme<Proof, Sponge>, known: set<int>, gs: seq<Group>, k: nat, s: Sponge)
    requires k < |gs| && OpenedUpTo(scheme, known, gs, k, s).Ok?
    ensures var r := OpenedUpTo(scheme, known, gs, |gs|, s);
            var call := scheme.open(k, gs[k].polys, gs[k].point, OpenedUpTo(scheme, known, gs, k, s).value.1);
            if exists p :: p in gs[k].polys && p !in known then r == Err
            else (call.Err? ==> r == Err) && (call.Panic? ==> r == Panic)
  {
    if !OpenedUpTo(scheme, known, gs, k + 1, s).Ok? { OpenErrStays(scheme, known, gs, k + 1, |gs|, s); }
  }

  lemma {:induction false} TurnMore<Proof(!new), Sponge(!new)>(
      scheme: Scheme<Proof, Sponge>, gs: seq<Group>, proofs: seq<Proof>, ss: seq<Sponge>, proof: Proof, s': Sponge)
    requires OpensInTurn(scheme, gs, proofs, ss) && |proofs| < |gs|
    requires OpensAt(scheme, gs[|proofs|], |proofs|, proof, ss[|proofs|], s')
    ensures OpensInTurn(scheme, gs, proofs + [proof], ss + [s'])
  {
    var ps, ts := proofs + [proof], ss + [s'];
    forall i | 0 <= i < |ps| ensures OpensAt(scheme, gs[i], i, ps[i], ts[i], ts[i + 1]) {
      if i < |proofs| { assert OpensAt(scheme, gs[i], i, proofs[i], ss[i], ss[i + 1]); }
    }
  }

  lemma {:induction false} TurnLess<Proof(!new), Sponge(!new)>(
      scheme: Scheme<Proof, Sponge>, gs: seq<Group>, proofs: seq<Proof>, ss: seq<Sponge>)
    requires OpensInTurn(scheme, gs, proofs, ss) && proofs != []
    ensures OpensInTurn(scheme, gs, proofs[..|proofs| - 1], ss[..|proofs|])
  {
    var ps, ts := proofs[..|proofs| - 1], ss[..|proofs|];
    forall i | 0 <= i < |ps| ensures OpensAt(scheme, gs[i], i, ps[i], ts[i], ts[i + 1]) {
      assert OpensAt(scheme, gs[i], i, proofs[i], ss[i], ss[i + 1]);
    }
  }

  // ----- the calls of check

  /** The values claimed for the polynomials of a group, in order. */
  ghost predicate ClaimedFor(g: Group, known: set<int>, evals: Evaluations, values: seq<Fp>) {
    && |values| == |g.polys|
    && forall j :: 0 <= j < |values| ==>
         g.polys[j] in known && [g.polys[j], g.point] in evals && values[j] == evals[[g.polys[j], g.point]]
  }

  lemma {:induction false} ClaimsAre(g: Group, known: set<int>, evals: Evaluations, values: seq<Fp>)
    ensures Claims(g.polys, g.point, known, evals) == Ok(values) <==> ClaimedFor(g, known, evals, values)
  {
    var r := Claims(g.polys, g.point, known, evals);
    if ClaimedFor(g, known, evals, values) {
      assert forall p :: p in g.polys ==> p in known && [p, g.point] in evals;
      assert r.value == values;
    }
    if r.Ok? {
      forall j | 0 <= j < |g.polys|
        ensures g.polys[j] in known && [g.polys[j], g.point] in evals && r.value[j] == evals[[g.polys[j], g.point]]
      {
        var p := g.polys[j];
        assert p in g.polys;
        assert p in known && [p, g.point] in evals;
      }
    }
  }

  /** Call i checks proof i of group i with the values claimed for it, on the sponge that the call before
      it left. */
  ghost predicate ChecksInTurn<Proof(!new), Sponge(!new)>(
      scheme: Scheme<Proof, Sponge>, known: set<int>, gs: seq<Group>, evals: Evaluations, proofs: seq<Proof>,
      answers: seq<bool>, ss: seq<Sponge>) {
    && |answers| <= |gs| && |answers| <= |proofs| && |ss| == |answers| + 1
    && forall i :: 0 <= i < |answers| ==>
         ChecksAt(scheme, known, gs[i], evals, i, proofs[i], answers[i], ss[i], ss[i + 1])
  }

  ghost predicate ChecksAt<Proof(!new), Sponge(!new)>(
      scheme: Scheme<Proof, Sponge>, known: set<int>, g: Group, evals: Evaluations, i: nat, proof: Proof, answer: bool,
      s: Sponge, s': Sponge) {
    exists values :: ClaimedFor(g, known, evals, values)
                     && scheme.check(i, g.polys, g.point, values, proof, s) == Ok((answer, s'))
  }

  /** One group: the answers so far and the new one. */
  lemma {:induction false} GroupIs<Proof(!new), Sponge(!new)>(
      scheme: Scheme<Proof, Sponge>, known: set<int>, g: Group, evals: Evaluations, proof: Proof, i: nat, b: bool,
      s: Sponge, r: bool, s': Sponge)
    ensures CheckedGroup(scheme, known, g, evals, proof, i, (b, s)) == Ok((r, s'))
            <==> exists a :: r == (b && a) && ChecksAt(scheme, known, g, evals, i, proof, a, s, s')
  {
    forall values ensures Claims(g.polys, g.point, known, evals) == Ok(values)
                          <==> ClaimedFor(g, known, evals, values)
    {
      ClaimsAre(g, known, evals, values);
    }
    if CheckedGroup(scheme, known, g, evals, proof, i, (b, s)) == Ok((r, s')) {
      var values := Claims(g.polys, g.point, known, evals).value;
      assert ClaimedFor(g, known, evals, values);
      var a := scheme.check(i, g.polys, g.point, values, proof, s).value.0;
      assert ChecksAt(scheme, known, g, evals, i, proof, a, s, s');
    }
  }

  /** The checks of the first n groups answer this exactly if the calls of check answer in turn, and all
      of them yes for a yes. */
  lemma CheckedIs<Proof(!new), Sponge(!new)>(
      scheme: Scheme<Proof, Sponge>, known: set<int>, gs: seq<Group>, evals: Evaluations, proofs: seq<Proof>, n: nat,
      s: Sponge, r: bool, s': Sponge)
    requires n <= |gs| == |proofs|
    ensures CheckedUpTo(scheme, known, gs, evals, proofs, n, s) == Ok((r, s'))
            <==> exists answers, ss :: InTurn(scheme, known, gs, evals, proofs, n, s, r, s', answers, ss)
  {
    if CheckedUpTo(scheme, known, gs, evals, proofs, n, s) == Ok((r, s')) {
      var answers, ss := CheckedTurns(scheme, known, gs, evals, proofs, n, s, r, s');
    }
    if answers, ss :| InTurn(scheme, known, gs, evals, proofs, n, s, r, s', answers, ss) {
      TurnsCheck(scheme, known, gs, evals, proofs, n, s, r, s', answers, ss);
    }
  }

  lemma {:induction false} CheckedTurns<Proof(!new), Sponge(!new)>(
      scheme: Scheme<Proof, Sponge>, known: set<int>, gs: seq<Group>, evals: Evaluations, proofs: seq<Proof>, n: nat,
      s: Sponge, r: bool, s': Sponge) returns (answers: seq<bool>, ss: seq<Sponge>)
    requires n <= |gs| == |proofs| && CheckedUpTo(scheme, known, gs, evals, proofs, n, s) == Ok((r, s'))
    ensures InTurn(scheme, known, gs, evals, proofs, n, s, r, s', answers, ss)
  {
    answers, ss := [], [s];
    if n > 0 {
      var (b, t) := CheckedUpTo(scheme, known, gs, evals, proofs, n - 1, s).value;
      answers, ss := CheckedTurns(scheme, known, gs, evals, proofs, n - 1, s, b, t);
      GroupIs(scheme, known, gs[n - 1], evals, proofs[n - 1], n - 1, b, t, r, s');
      var a :| r == (b && a) && ChecksAt(scheme, known, gs[n - 1], evals, n - 1, proofs[n - 1], a, t, s');
      AnswerMore(scheme, known, gs, evals, proofs, n - 1, s, b, t, answers, ss, a, s');
      answers, ss := answers + [a], ss + [s'];
    }
  }

  lemma {:induction false} TurnsCheck<Proof(!new), Sponge(!new)>(
      scheme: Scheme<Proof, Sponge>, known: set<int>, gs: seq<Group>, evals: Evaluations, proofs: seq<Proof>, n: nat,
      s: Sponge, r: bool, s': Sponge, answers: seq<bool>, ss: seq<Sponge>)
    requires n <= |gs| == |proofs| && InTurn(scheme, known, gs, evals, proofs, n, s, r, s', answers, ss)
    ensures CheckedUpTo(scheme, known, gs, evals, proofs, n, s) == Ok((r, s'))
  {
    if n > 0 {
      AnswerLess(scheme, known, gs, evals, proofs, n, s, r, s', answers, ss);
      var b, t := AllYes(answers[..n - 1]), ss[n - 1];
      TurnsCheck(scheme, known, gs, evals, proofs, n - 1, s, b, t, answers[..n - 1], ss[..n]);
      GroupIs(scheme, known, gs[n - 1], evals, proofs[n - 1], n - 1, b, t, r, s');
    }
  }

  /** The first group whose check fails decides: a missing polynomial or evaluation is an error, and a call
      that fails fails the whole. */
  lemma {:induction false} CheckFailsAt<Proof(!new), Sponge(!new)>(
      scheme: Scheme<Proof, Sponge>, known: set<int>, gs: seq<Group>, evals: Evaluations, proofs: seq<Proof>, k: nat,
      s: Sponge, values: seq<Fp>)
    requires k < |gs| == |proofs| && CheckedUpTo(scheme, known, gs, evals, proofs, k, s).Ok?
    ensures var r := CheckedUpTo(scheme, known, gs, evals, proofs, |gs|, s);
            var call := scheme.check(k, gs[k].polys, gs[k].point, values, proofs[k],
                                     CheckedUpTo(scheme, known, gs, evals, proofs, k, s).value.1);
            && ((forall vs :: !ClaimedFor(gs[k], known, evals, vs)) ==> r == Err)
            && (ClaimedFor(gs[k], known, evals, values) ==> (call.Err? ==> r == Err) && (call.Panic? ==> r == Panic))
  {
    if !CheckedUpTo(scheme, known, gs, evals, proofs, k + 1, s).Ok? {
      CheckErrStays(scheme, known, gs, evals, proofs, k + 1, |gs|, s);
    }
    ClaimsAre(gs[k], known, evals, values);
    var c := Claims(gs[k].polys, gs[k].point, known, evals);
    if c.Ok? { ClaimsAre(gs[k], known, evals, c.value); }
  }

  predicate AllYes(answers: seq<bool>) {
    forall i :: 0 <= i < |answers| ==> answers[i]
  }

  ghost predicate InTurn<Proof(!new), Sponge(!new)>(
      scheme: Scheme<Proof, Sponge>, known: set<int>, gs: seq<Group>, evals: Evaluations, proofs: seq<Proof>, n: nat,
      s: Sponge, r: bool, s': Sponge, answers: seq<bool>, ss: seq<Sponge>) {
    && |answers| == n && ChecksInTurn(scheme, known, gs, evals, proofs, answers, ss)
    && ss[0] == s && ss[n] == s' && r == AllYes(answers)
  }

  lemma {:induction false} AnswerMore<Proof(!new), Sponge(!new)>(
      scheme: Scheme<Proof, Sponge>, known: set<int>, gs: seq<Group>, evals: Evaluations, proofs: seq<Proof>, n: nat,
      s: Sponge, b: bool, t: Sponge, answers: seq<bool>, ss: seq<Sponge>, a: bool, s': Sponge)
    requires n < |gs| == |proofs| && InTurn(scheme, known, gs, evals, proofs, n, s, b, t, answers, ss)
    requires ChecksAt(scheme, known, gs[n], evals, n, proofs[n], a, t, s')
    ensures InTurn(scheme, known, gs, evals, proofs, n + 1, s, b && a, s', answers + [a], ss + [s'])
  {
    var as', ts := answers + [a], ss + [s'];
    forall i | 0 <= i < |as'| ensures ChecksAt(scheme, known, gs[i], evals, i, proofs[i], as'[i], ts[i], ts[i + 1]) {
      if i < n { assert ChecksAt(scheme, known, gs[i], evals, i, proofs[i], answers[i], ss[i], ss[i + 1]); }
    }
    if AllYes(as') {
      assert as'[n];
      forall i | 0 <= i < n ensures answers[i] { assert as'[i]; }
    }
  }

  lemma {:induction false} AnswerLess<Proof(!new), Sponge(!new)>(
      scheme: Scheme<Proof, Sponge>, known: set<int>, gs: seq<Group>, evals: Evaluations, proofs: seq<Proof>, n: nat,
      s: Sponge, r: bool, s': Sponge, answers: seq<bool>, ss: seq<Sponge>)
    requires 0 < n <= |gs| == |proofs| && InTurn(scheme, known, gs, evals, proofs, n, s, r, s', answers, ss)
    ensures ChecksInTurn(scheme, known, gs, evals, proofs, answers[..n - 1], ss[..n])
    ensures ChecksAt(scheme, known, gs[n - 1], evals, n - 1, proofs[n - 1], answers[n - 1], ss[n - 1], s')
    ensures r == (AllYes(answers[..n - 1]) && answers[n - 1])
  {
    var as', ts := answers[..n - 1], ss[..n];
    forall i | 0 <= i < |as'| ensures ChecksAt(scheme, known, gs[i], evals, i, proofs[i], as'[i], ts[i], ts[i + 1]) {
      assert ChecksAt(scheme, known, gs[i], evals, i, proofs[i], answers[i], ss[i], ss[i + 1]);
    }
    if AllYes(as') && answers[n - 1] {
      forall i | 0 <= i < n ensures answers[i] { assert i < n - 1 ==> as'[i]; }
    }
  }

  // ----- the equations

  /** Every polynomial of the combination has an evaluation at the point. */
  ghost predicate Readable(lc: Combination, point: int, evals: Evaluations) {
    forall k :: 0 <= k < |lc| && lc[k].1.Poly? ==> [lc[k].1.polyLabel, point] in evals
  }

  ghost function SideTerms(lc: Combination, point: int, evals: Evaluations): (r: seq<Fp>)
    requires Readable(lc, point, evals)
    ensures |r| == |lc|
    ensures forall k :: 0 <= k < |r| ==>
              r[k] == Mul(lc[k].0, if lc[k].1.One? then 1 else evals[[lc[k].1.polyLabel, point]])
  {
    seq(|lc|, k requires 0 <= k < |lc| && Readable(lc, point, evals) => SideTerm(lc[k], point, evals))
  }

  function SideTerm(t: (Fp, Term), point: int, evals: Evaluations): Fp
    requires t.1.Poly? ==> [t.1.polyLabel, point] in evals
  {
    Mul(t.0, if t.1.One? then 1 else evals[[t.1.polyLabel, point]])
  }

  /** The right-hand side is the sum of the coefficients times the evaluations, constants as they are;
      an error if an evaluation is missing. */
  lemma SideIs(lc: Combination, point: int, evals: Evaluations)
    ensures ActualSum(lc, |lc|, point, evals)
            == if Readable(lc, point, evals) then Ok(Sum(SideTerms(lc, point, evals))) else Err
  {
    if Readable(lc, point, evals) {
      SideUpTo(lc, |lc|, point, evals);
      assert SideTerms(lc, point, evals)[..|lc|] == SideTerms(lc, point, evals);
    } else {
      var k :| 0 <= k < |lc| && lc[k].1.Poly? && [lc[k].1.polyLabel, point] !in evals;
      ActualErrStays(lc, k + 1, |lc|, point, evals);
    }
  }

  lemma {:induction false} SideUpTo(lc: Combination, n: nat, point: int, evals: Evaluations)
    requires n <= |lc| && Readable(lc, point, evals)
    ensures ActualSum(lc, n, point, evals) == Ok(Sum(SideTerms(lc, point, evals)[..n]))
  {
    if n > 0 {
      SideUpTo(lc, n - 1, point, evals);
      SumNext(SideTerms(lc, point, evals), n);
    }
  }

  /** The equation of a query of a known combination: its claimed value is there and is that sum. */
  ghost predicate EquationHolds(lcs: map<int, Combination>, q: seq<int>, claimed: Evaluations, evals: Evaluations)
    requires |q| == 3
  {
    q[0] in lcs ==>
      && [q[0], q[2]] in claimed && Readable(lcs[q[0]], q[2], evals)
      && claimed[[q[0], q[2]]] == Sum(SideTerms(lcs[q[0]], q[2], evals))
  }

  ghost predicate HoldsAt(lcs: map<int, Combination>, queries: Rows, i: nat, claimed: Evaluations, evals: Evaluations)
    requires AllLong(queries, 3) && i < |queries|
  {
    assert queries[i] in queries;
    EquationHolds(lcs, queries[i], claimed, evals)
  }

  lemma {:induction false} EquationsAre(lcs: map<int, Combination>, queries: Rows, n: nat, claimed: Evaluations,
                                        evals: Evaluations)
    requires AllLong(queries, 3) && n <= |queries|
    ensures EquationsUpTo(lcs, queries, n, claimed, evals) == Ok(true)
            <==> forall i :: 0 <= i < n ==> HoldsAt(lcs, queries, i, claimed, evals)
  {
    if n > 0 {
      EquationsAre(lcs, queries, n - 1, claimed, evals);
      EquationStep(lcs, queries, n, claimed, evals);
    }
  }

  lemma EquationStep(lcs: map<int, Combination>, queries: Rows, n: nat, claimed: Evaluations, evals: Evaluations)
    requires AllLong(queries, 3) && 0 < n <= |queries|
    ensures EquationsUpTo(lcs, queries, n, claimed, evals) == Ok(true)
            <==> EquationsUpTo(lcs, queries, n - 1, claimed, evals) == Ok(true)
                 && HoldsAt(lcs, queries, n - 1, claimed, evals)
  {
    var q := queries[n - 1];
    assert q in queries;
    if q[0] in lcs { SideIs(lcs[q[0]], q[2], evals); }
  }

  /** The first equation that does not hold decides: an error if something is missing. */
  lemma FirstFalse(lcs: map<int, Combination>, queries: Rows, k: nat, n: nat, claimed: Evaluations, evals: Evaluations)
    requires AllLong(queries, 3) && k < n <= |queries| && !HoldsAt(lcs, queries, k, claimed, evals)
    requires forall i :: 0 <= i < k ==> HoldsAt(lcs, queries, i, claimed, evals)
    ensures queries[k] in queries
    ensures var q := queries[k];
            EquationsUpTo(lcs, queries, n, claimed, evals)
            == if q[0] in lcs && [q[0], q[2]] in claimed && Readable(lcs[q[0]], q[2], evals) then Ok(false) else Err
  {
    var q := queries[k];
    assert q in queries;
    EquationsAre(lcs, queries, k, claimed, evals);
    SideIs(lcs[q[0]], q[2], evals);
    EquationsStop(lcs, queries, k + 1, n, claimed, evals);
  }

  function TrueTerms(lc: Combination, point: int, value: Values): (r: seq<Fp>)
    ensures |r| == |lc|
    ensures forall k :: 0 <= k < |r| ==>
              r[k] == Mul(lc[k].0, if lc[k].1.One? then 1 else value(lc[k].1.polyLabel, point))
  {
    seq(|lc|, k requires 0 <= k < |lc| => TrueTerm(lc[k], point, value))
  }

  function TrueTerm(t: (Fp, Term), point: int, value: Values): Fp {
    Mul(t.0, if t.1.One? then 1 else value(t.1.polyLabel, point))
  }

  /** The true value of a combination is the sum of its coefficients times the values. */
  lemma {:induction false} TrueSumIs(lc: Combination, n: nat, point: int, value: Values)
    requires n <= |lc|
    ensures TrueSum(lc, n, point, value) == Sum(TrueTerms(lc, point, value)[..n])
  {
    if n > 0 {
      TrueSumIs(lc, n - 1, point, value);
      SumNext(TrueTerms(lc, point, value), n);
    }
  }

  // ----- check_combinations

  /** All groups are accepted in turn. */
  ghost predicate GroupsAccept<Proof(!new), Sponge(!new)>(
      scheme: Scheme<Proof, Sponge>, known: set<int>, gs: seq<Group>, evals: Evaluations, proofs: seq<Proof>, s: Sponge)
  {
    exists answers, ss, s' :: InTurn(scheme, known, gs, evals, proofs, |gs|, s, true, s', answers, ss)
  }

  /** batch_check says yes exactly if there is one proof for every group and all groups are accepted in
      turn. */
  lemma BatchDecides<Proof(!new), Sponge(!new)>(
      scheme: Scheme<Proof, Sponge>, known: set<int>, rows: Rows, evals: Evaluations, proofs: seq<Proof>, s: Sponge)
    requires AllLong(rows, 3)
    ensures var r := BatchChecked(scheme, known, rows, evals, proofs, s);
            (r.Ok? && r.value.0
             <==> |proofs| == |Groups(rows)| && GroupsAccept(scheme, known, Groups(rows), evals, proofs, s))
  {
    var gs := Groups(rows);
    if |proofs| == |gs| {
      var r := CheckedUpTo(scheme, known, gs, evals, proofs, |gs|, s);
      if r.Ok? && r.value.0 { CheckedIs(scheme, known, gs, evals, proofs, |gs|, s, true, r.value.1); }
      if GroupsAccept(scheme, known, gs, evals, proofs, s) {
        var answers, ss, s' :| InTurn(scheme, known, gs, evals, proofs, |gs|, s, true, s', answers, ss);
        TurnsCheck(scheme, known, gs, evals, proofs, |gs|, s, true, s', answers, ss);
      }
    }
  }

  /** What check_combinations accepts, whatever the proof: there are evaluations, with them every equation
      holds, and every group is accepted in turn. */
  lemma CombinationsDecide<Proof(!new), Sponge(!new)>(
      scheme: Scheme<Proof, Sponge>, known: set<int>, lcs: map<int, Combination>, queries: Rows, claimed: Evaluations,
      proof: BatchLCProof<Proof>, s: Sponge)
    requires AllLong(queries, 3)
    ensures AllLong(PolyRows(lcs, queries, |queries|), 3)
    ensures CheckedCombinations(scheme, known, lcs, queries, claimed, proof, s) == Ok(true)
            <==> && proof.evals.Some?
                 && var rows := PolyRows(lcs, queries, |queries|);
                 var evals := PolyEvals(rows, proof.evals.value);
                 && (forall i :: 0 <= i < |queries| ==> HoldsAt(lcs, queries, i, claimed, evals))
                 && |proof.proof| == |Groups(rows)|
                 && GroupsAccept(scheme, known, Groups(rows), evals, proof.proof, s)
  {
    PolyRowsAre(lcs, queries, |queries|);
    if proof.evals.Some? {
      var rows := PolyRows(lcs, queries, |queries|);
      var evals := PolyEvals(rows, proof.evals.value);
      EquationsAre(lcs, queries, |queries|, claimed, evals);
      BatchDecides(scheme, known, rows, evals, proof.proof, s);
    }
  }

  /** open_combinations panics if a mentioned polynomial is unknown. */
  lemma UnknownPanics<Proof(!new), Sponge(!new)>(
      scheme: Scheme<Proof, Sponge>, known: set<int>, lcs: map<int, Combination>, queries: Rows, value: Values,
      s: Sponge, i: nat)
    requires AllLong(queries, 3) && i < |PolyRows(lcs, queries, |queries|)|
    requires var r := PolyRows(lcs, queries, |queries|)[i]; |r| == 3 && r[0] !in known
    ensures OpenedCombinations(scheme, known, lcs, queries, value, s) == Panic
  {
    KnownIff(PolyRows(lcs, queries, |queries|), known, |PolyRows(lcs, queries, |queries|)|);
  }

  /** Otherwise it opens what batch_open opens, and sends the true values under all mentioned keys. */
  lemma CombinationsOpen<Proof(!new), Sponge(!new)>(
      scheme: Scheme<Proof, Sponge>, known: set<int>, lcs: map<int, Combination>, queries: Rows, value: Values,
      s: Sponge, rows: Rows, keys: Rows)
    requires AllLong(queries, 3) && rows == PolyRows(lcs, queries, |queries|) && keys == KeysOf(lcs, queries)
    requires forall i :: 0 <= i < |rows| ==> |rows[i]| == 3 && rows[i][0] in known
    ensures AllLong(rows, 3)
    ensures var r, opened' := OpenedCombinations(scheme, known, lcs, queries, value, s),
                             OpenedUpTo(scheme, known, Groups(rows), |Groups(rows)|, s);
            && (r.Ok? <==> opened'.Ok?) && (r.Err? <==> opened'.Err?)
            && (r.Ok? ==> && r.value.0.proof == opened'.value.0 && r.value.1 == opened'.value.1
                          && r.value.0.evals.Some? && HaveValues(keys, value, r.value.0.evals.value))
  {
    KnownIff(rows, known, |rows|);
    PolyRowsAre(lcs, queries, |queries|);
    FlattenedHave(keys, value);
  }

  ghost predicate HaveValues(keys: Rows, value: Values, evals: seq<Fp>) {
    |evals| == |keys| && forall i :: 0 <= i < |keys| ==> HasValue(keys, value, evals, i)
  }

  lemma FlattenedHave(keys: Rows, value: Values)
    requires forall k :: k in keys ==> |k| == 2
    ensures HaveValues(keys, value, Flattened(keys, value))
  {
  }

  ghost predicate HasValue(keys: Rows, value: Values, evals: seq<Fp>, i: nat)
    requires i < |keys| && i < |evals|
  {
    |keys[i]| == 2 && evals[i] == value(keys[i][0], keys[i][1])
  }

  lemma {:induction false} KnownIff(rows: Rows, known: set<int>, n: nat)
    requires n <= |rows|
    ensures Known(rows, known, n) <==> forall i :: 0 <= i < n ==> rows[i] != [] && rows[i][0] in known
  {
    if n > 0 { KnownIff(rows, known, n - 1); }
  }
}
