/** The space-efficient prover of the streaming KZG scheme (streaming_kzg/space.rs) next to
    the in-memory one (streaming_kzg/time.rs).  A key is the list of its group elements,
    lowest power first; the streaming key is the same list reversed. */
module StreamingKzg {
  import opened PrimeField
  import opened Vectors
  import opened Polynomials
  import opened Division

  /** commit of time.rs. */
  function Commit(g: seq<Fp>, f: seq<Fp>): Fp {
    Inner(g, f)
  }

  /** The streaming bases for a polynomial with n coefficients. */
  function StreamBases(g: seq<Fp>, n: nat): (b: seq<Fp>)
    requires n <= |g|
    ensures |b| == n
  {
    Rev(g)[|g| - n..]
  }

  lemma StreamCommit(g: seq<Fp>, s: seq<Fp>)
    requires |s| <= |g|
    ensures Inner(StreamBases(g, |s|), s) == Commit(g, Rev(s))
  {
    var n, t := |s|, Rev(s);
    assert s == Rev(t) by { RevRev(s); }
    assert StreamBases(g, n) == Rev(g[..n]) by { RevSuffix(g, n); }
    assert Inner(Rev(g[..n]), Rev(t)) == Inner(g[..n], t) by { InnerRev(g[..n], t); }
    InnerCut(g, t, n);
  }

  lemma {:induction false} InnerExtend(a: seq<Fp>, b: seq<Fp>, y: Fp)
    requires |b| < |a|
    ensures Inner(a, b + [y]) == Add(Inner(a, b), Mul(a[|b|], y))
  {
    var n := |b|;
    InnerPush(a[..n], b, a[n], y);
    InnerCut(a, b, n);
    InnerCut(a, b + [y], n + 1);
    assert a[..n + 1] == a[..n] + [a[n]];
  }

  // ----- opening at one point

  /** The coefficients of (f(X) - f(alpha)) / (X - alpha), with a zero in front. */
  function Witness(f: seq<Fp>, alpha: Fp): (w: seq<Fp>)
    ensures |w| == |f|
  {
    if f == [] then [] else [Eval(f[1..], alpha)] + Witness(f[1..], alpha)
  }

  lemma {:induction false} WitnessAt(f: seq<Fp>, z: Fp, i: nat)
    requires i < |f|
    ensures Witness(f, z)[i] == Eval(f[i + 1..], z)
  {
    if i > 0 {
      WitnessAt(f[1..], z, i - 1);
      assert f[1..][i..] == f[i + 1..];
    }
  }

  lemma {:induction false} WitnessCorrect(f: seq<Fp>, alpha: Fp, x: Fp)
    ensures Sub(Eval(f, x), Eval(f, alpha)) == Mul(Sub(x, alpha), Eval(Witness(f, alpha), x))
  {
    if f == [] {
      Units(Sub(x, alpha));
      Units(0);
    } else {
      var f' := f[1..];
      WitnessCorrect(f', alpha, x);
      assert Witness(f, alpha)[1..] == Witness(f', alpha);
      WitnessStep(f[0], Eval(f', x), Eval(f', alpha), x, alpha, Eval(Witness(f', alpha), x));
    }
  }

  lemma WitnessStep(c: Fp, fx: Fp, fa: Fp, x: Fp, a: Fp, w: Fp)
    requires Sub(fx, fa) == Mul(Sub(x, a), w)
    ensures Sub(Add(c, Mul(x, fx)), Add(c, Mul(a, fa))) == Mul(Sub(x, a), Add(fa, Mul(x, w)))
  {
    var d := Sub(x, a);
    SubIff(x, a, d);
    SubIff(fx, fa, Mul(d, w));
    WitnessExpand(c, fa, x, a, d, w);
    SubIff(Add(c, Mul(x, fx)), Add(c, Mul(a, fa)), Mul(d, Add(fa, Mul(x, w))));
  }

  lemma WitnessExpand(c: Fp, fa: Fp, x: Fp, a: Fp, d: Fp, w: Fp)
    requires x == Add(a, d)
    ensures Add(c, Mul(x, Add(fa, Mul(d, w)))) == Add(Add(c, Mul(a, fa)), Mul(d, Add(fa, Mul(x, w))))
  {
    assert Mul(x, Add(fa, Mul(d, w))) == Add(Mul(x, fa), Mul(x, Mul(d, w))) by { RingLaws(); }
    assert Mul(x, fa) == Add(Mul(a, fa), Mul(d, fa)) by { RingLaws(); }
    assert Mul(d, Add(fa, Mul(x, w))) == Add(Mul(d, fa), Mul(x, Mul(d, w))) by { RingLaws(); }
    AddAssociates(Mul(a, fa), Mul(d, fa), Mul(x, Mul(d, w)));
    AddAssociates(c, Mul(a, fa), Mul(d, Add(fa, Mul(x, w))));
  }

  /** open of time.rs: the quotient is built by inserting at the front. */
  method TimeOpen(g: seq<Fp>, f: seq<Fp>, alpha: Fp) returns (evaluation: Fp, proof: Fp)
    ensures evaluation == Eval(f, alpha)
    ensures proof == Commit(g, Witness(f, alpha))
  {
    var quotient: seq<Fp> := [];
    var previous: Fp := 0;
    for i := |f| downto 0
      invariant previous == Eval(f[i..], alpha)
      invariant quotient == Suffixes(f[i..], alpha)
    {
      var coefficient := Add(f[i], Mul(previous, alpha));
      assert f[i..][1..] == f[i + 1..];
      Commutes(previous, alpha);
      quotient := [coefficient] + quotient;
      previous := coefficient;
    }
    assert f[0..] == f;
    SuffixesAreWitness(f, alpha);
    if quotient == [] {
      evaluation, quotient := 0, [];
    } else {
      evaluation, quotient := quotient[0], quotient[1..];
    }
    proof := Inner(g, quotient);
    InnerPolyEq(g, quotient, Witness(f, alpha));
  }

  function Suffixes(f: seq<Fp>, alpha: Fp): seq<Fp> {
    if f == [] then [] else [Eval(f, alpha)] + Suffixes(f[1..], alpha)
  }

  lemma {:induction false} SuffixesAreWitness(f: seq<Fp>, alpha: Fp)
    ensures |Suffixes(f, alpha)| == |f|
    ensures f != [] ==> Suffixes(f, alpha)[1..] + [0] == Witness(f, alpha)
  {
    if f != [] {
      SuffixesAreWitness(f[1..], alpha);
      if f[1..] != [] {
        assert Suffixes(f[1..], alpha) == [Eval(f[1..], alpha)] + Suffixes(f[1..], alpha)[1..];
      }
    }
  }

  /** open of space.rs: one pass, one multiplication of a base per coefficient. */
  method SpaceOpen(g: seq<Fp>, f: seq<Fp>, alpha: Fp) returns (evaluation: Fp, proof: Fp)
    requires |f| <= |g|
    ensures evaluation == Eval(f, alpha)
    ensures proof == Commit(g, Witness(f, alpha))
  {
    var scalars := Rev(f);
    var bases := Rev(g)[|g| - |f|..];
    var quotient: Fp := 0;
    var previous: Fp := 0;
    ghost var n := |f|;
    for t := 0 to |scalars|
      invariant previous == Eval(f[n - t..], alpha)
      invariant quotient == Inner(g[n - t..n], Witness(f[n - t..], alpha))
    {
      SpaceOpenStep(g, f, alpha, t);
      RevIndex(f, t);
      RevIndex(g, |g| - n + t);
      quotient := Add(quotient, Mul(bases[t], previous));
      var coefficient := Add(Mul(previous, alpha), scalars[t]);
      previous := coefficient;
    }
    evaluation := previous;
    proof := quotient;
    assert f[0..] == f && g[0..n] == g[..n];
    InnerCut(g, Witness(f, alpha), n);
  }

  lemma SpaceOpenStep(g: seq<Fp>, f: seq<Fp>, alpha: Fp, t: nat)
    requires t < |f| <= |g|
    ensures var i := |f| - t;
            var previous := Eval(f[i..], alpha);
            && Add(Mul(previous, alpha), f[i - 1]) == Eval(f[i - 1..], alpha)
            && Add(Inner(g[i..|f|], Witness(f[i..], alpha)), Mul(g[i - 1], previous))
               == Inner(g[i - 1..|f|], Witness(f[i - 1..], alpha))
  {
    var i := |f| - t;
    assert f[i - 1..][1..] == f[i..] && g[i - 1..|f|][1..] == g[i..|f|];
    var previous := Eval(f[i..], alpha);
    Commutes(previous, alpha);
    Commutes(Mul(alpha, previous), f[i - 1]);
    assert Witness(f[i - 1..], alpha)[1..] == Witness(f[i..], alpha);
    Commutes(Inner(g[i..|f|], Witness(f[i..], alpha)), Mul(g[i - 1], previous));
  }

  // ----- opening at several points

  /** One turn of the deque: the oldest entry leaves as a coefficient of the quotient, the new
      coefficient enters, and the multiple of the divisor is taken away entry by entry. */
  method TurnDeque(state: seq<Fp>, zeros: seq<Fp>, coefficient: Fp) returns (lead: Fp, next: seq<Fp>)
    requires |zeros| == |state| + 1 >= 2
    ensures lead == state[0] && next == Reduce(state[1..] + [coefficient], zeros, state[0])
  {
    var m := |state|;
    lead := state[0];
    next := state[1..] + [coefficient];
    ghost var deque := next;
    for i := 0 to m
      invariant |next| == m
      invariant forall j :: 0 <= j < i ==> next[j] == Reduce(deque, zeros, lead)[j]
      invariant forall j :: i <= j < m ==> next[j] == deque[j]
    {
      ReduceIndex(deque, zeros, lead, i);
      next := next[i := Sub(next[i], Mul(zeros[m - i - 1], lead))];
    }
  }

  /** open_multi_points of space.rs: streaming division by the vanishing polynomial. */
  method SpaceOpenMultiPoints(g: seq<Fp>, f: seq<Fp>, points: seq<Fp>) returns (remainder: seq<Fp>, proof: Fp)
    requires 1 <= |points| <= |f| <= |g|
    ensures var (q, r) := Divide(Vanishing(points), Rev(f));
            remainder == r && proof == Commit(g, Rev(q))
  {
    var zeros := Vanishing(points);
    VanishingMonic(points);
    var m := |points|;
    var bases := Rev(g)[|g| - |f| + m..];
    var stream := Rev(f);
    var state := stream[..m];
    var quotient: Fp := 0;
    DivideFills(zeros, m, stream[..m]);
    assert Zeros(0) + stream[..m] == stream[..m];
    InnerZeros(m, StreamBases(g, |f|));
    for t := m to |stream|
      invariant |state| == m && state == Divide(zeros, stream[..t]).1
      invariant bases == Rev(g)[|g| - |f| + t..]
      invariant quotient == Inner(StreamBases(g, |f|), Divide(zeros, stream[..t]).0)
    {
      assert stream[..t + 1][..t] == stream[..t];
      var quotientCoefficient;
      quotientCoefficient, state := TurnDeque(state, zeros, stream[t]);
      InnerExtend(StreamBases(g, |f|), Divide(zeros, stream[..t]).0, quotientCoefficient);
      quotient := Add(quotient, Mul(bases[0], quotientCoefficient));
      bases := bases[1..];
    }
    assert stream[..|stream|] == stream;
    remainder := state;
    proof := quotient;
    StreamCommit(g, Divide(zeros, stream).0);
  }

  /** The in-memory prover divides with a library: any quotient and remainder it can return
      give the streaming prover's proof, and the remainder agrees with f at every point. */
  lemma MultiPointsAgree(g: seq<Fp>, f: seq<Fp>, points: seq<Fp>, q: seq<Fp>, r: seq<Fp>)
    requires 1 <= |points| && IsDivision(Vanishing(points), |points|, f, q, r)
    ensures var (sq, sr) := Divide(Vanishing(points), Rev(f));
            Commit(g, q) == Commit(g, Rev(sq)) && PolyEq(r, Rev(sr))
    ensures forall p :: p in points ==> Eval(r, p) == Eval(f, p)
  {
    var z, m := Vanishing(points), |points|;
    var (sq, sr) := Divide(z, Rev(f));
    VanishingMonic(points);
    DivideCorrect(z, m, Rev(f));
    RevRev(f);
    DivisionUnique(z, m, f, q, r, Rev(sq), Rev(sr));
    InnerPolyEq(g, q, Rev(sq));
    forall p | p in points ensures Eval(r, p) == Eval(f, p) {
      DivisionEval(z, m, f, q, r, p);
      VanishingRoot(points, p);
      Units(Eval(q, p));
      Units(Eval(r, p));
    }
  }

  lemma DivisionEval(z: seq<Fp>, m: nat, f: seq<Fp>, q: seq<Fp>, r: seq<Fp>, x: Fp)
    requires IsDivision(z, m, f, q, r)
    ensures Eval(f, x) == Add(Mul(Eval(z, x), Eval(q, x)), Eval(r, x))
  {
    EvalPolyEq(f, Plus(Times(z, q), r), x);
    EvalPlus(Times(z, q), r, x);
    EvalTimes(z, q, x);
  }

  lemma VanishingRoot(points: seq<Fp>, p: Fp)
    requires p in points
    ensures Eval(Vanishing(points), p) == 0
  {
    VanishingEval(points, p);
    ProductRoot(points, p);
  }

  lemma {:induction false} ProductRoot(points: seq<Fp>, p: Fp)
    requires p in points
    ensures Product(points, p) == 0
  {
    var n := |points|;
    if points[n - 1] == p {
      Units(p);
      Units(Product(points[..n - 1], p));
    } else {
      assert points == points[..n - 1] + [points[n - 1]];
      ProductRoot(points[..n - 1], p);
      Units(Sub(p, points[n - 1]));
    }
  }
}
