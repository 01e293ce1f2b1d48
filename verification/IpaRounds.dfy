/** The rounds of the inner-product argument: the prover's halving loop and the verifier's
    running commitment (ipa_pc/mod.rs). */
module IpaRounds {
  import opened PrimeField
  import opened Numbers
  import opened Vectors
  import opened Polynomials
  import opened CheckPolynomial

  /** What the random oracle is asked; it is any function of these. */
  datatype Query =
    | HidingQuery(commitment: Fp, point: Fp, value: Fp, hidingCommitment: Fp)
    | InitialQuery(commitment: Fp, point: Fp, value: Fp)
    | RoundQuery(previous: Fp, l: Fp, r: Fp)

  type Oracle = Query -> Fp

  // ----- folding a vector in half

  function FoldHalves(s: seq<Fp>, u: Fp): (r: seq<Fp>)
    requires |s| % 2 == 0
    ensures |r| == |s| / 2
  {
    Plus(s[..|s| / 2], Scale(u, s[|s| / 2..]))
  }

  /** All foldings, one round after the other: what a verifier without the check polynomial
      would do to the key and to the powers of the point. */
  function FoldAll(s: seq<Fp>, ch: seq<Fp>): (r: seq<Fp>)
    requires |s| == Pow2(|ch|)
    ensures |r| == 1
    decreases |ch|
  {
    if ch == [] then s else FoldAll(FoldHalves(s, ch[0]), ch[1..])
  }

  lemma FoldHalvesInner(s: seq<Fp>, u: Fp, w: seq<Fp>)
    requires |s| % 2 == 0 && |w| == |s| / 2
    ensures Inner(FoldHalves(s, u), w) == Inner(s, w + Scale(u, w))
  {
    var h := |s| / 2;
    var l, r := s[..h], s[h..];
    assert Inner(s, w + Scale(u, w)) == Add(Inner(l, w), Inner(r, Scale(u, w))) by {
      assert s == l + r;
      InnerAppend(l, r, w, Scale(u, w));
    }
    InnerPlus(l, Scale(u, r), w);
    InnerScale(u, r, w);
    InnerScale(u, w, r);
  }

  /** Folding any vector round by round is one inner product with the check polynomial's
      coefficients. */
  lemma {:induction false} FoldAllIsInner(s: seq<Fp>, ch: seq<Fp>)
    requires |s| == Pow2(|ch|)
    ensures FoldAll(s, ch) == [Inner(s, Coeffs(ch))]
    decreases |ch|
  {
    if ch == [] {
      assert s[1..] == [] && Coeffs(ch)[1..] == [];
      Units(s[0]);
    } else {
      FoldAllIsInner(FoldHalves(s, ch[0]), ch[1..]);
      FoldHalvesInner(s, ch[0], Coeffs(ch[1..]));
    }
  }

  /** Folding the powers of the point gives the check polynomial's value there. */
  lemma FoldedPowers(x: Fp, ch: seq<Fp>)
    ensures FoldAll(PowersFrom(1, x, Pow2(|ch|)), ch) == [ProductAt(ch, x)]
  {
    FoldAllIsInner(PowersFrom(1, x, Pow2(|ch|)), ch);
    InnerPowers(1, x, Pow2(|ch|), Coeffs(ch));
    ProductIsEvaluation(ch, x);
    Units(ProductAt(ch, x));
  }

  // ----- one round

  /** The commitment that a round claims to open: coefficients under the key, and the claimed
      value under hPrime. */
  function RoundCommitment(key: seq<Fp>, coeffs: seq<Fp>, z: seq<Fp>, hPrime: Fp): Fp {
    Add(Inner(key, coeffs), Mul(hPrime, Inner(coeffs, z)))
  }

  function LeftElement(key: seq<Fp>, coeffs: seq<Fp>, z: seq<Fp>, hPrime: Fp): Fp
    requires |key| == |coeffs| == |z|
  {
    var h := |key| / 2;
    Add(Inner(key[..h], coeffs[h..]), Mul(hPrime, Inner(coeffs[h..], z[..h])))
  }

  function RightElement(key: seq<Fp>, coeffs: seq<Fp>, z: seq<Fp>, hPrime: Fp): Fp
    requires |key| == |coeffs| == |z|
  {
    var h := |key| / 2;
    Add(Inner(key[h..], coeffs[..h]), Mul(hPrime, Inner(coeffs[..h], z[h..])))
  }

  /** The inner product of two vectors folded with inverse challenges. */
  lemma CrossTerms(a: seq<Fp>, b: seq<Fp>, u: Fp, v: Fp)
    requires |a| == |b| && |a| % 2 == 0 && Mul(u, v) == 1
    ensures var h := |a| / 2;
            Inner(FoldHalves(a, u), FoldHalves(b, v))
            == Add(Inner(a, b), Add(Mul(v, Inner(a[..h], b[h..])), Mul(u, Inner(a[h..], b[..h]))))
  {
    var h := |a| / 2;
    var al, ar, bl, br := a[..h], a[h..], b[..h], b[h..];
    var b' := FoldHalves(b, v);
    assert Inner(FoldHalves(a, u), b') == Add(Inner(al, b'), Mul(u, Inner(ar, b'))) by {
      InnerPlus(al, Scale(u, ar), b');
      InnerScale(u, ar, b');
    }
    assert Inner(al, b') == Add(Inner(al, bl), Mul(v, Inner(al, br))) by {
      InnerPlusRight(bl, Scale(v, br), al);
      InnerScale(v, br, al);
    }
    assert Inner(ar, b') == Add(Inner(ar, bl), Mul(v, Inner(ar, br))) by {
      InnerPlusRight(bl, Scale(v, br), ar);
      InnerScale(v, br, ar);
    }
    assert Inner(a, b) == Add(Inner(al, bl), Inner(ar, br)) by {
      assert a == al + ar && b == bl + br;
      InnerAppend(al, ar, bl, br);
    }
    CrossAlgebra(Inner(al, bl), Inner(al, br), Inner(ar, bl), Inner(ar, br), u, v);
  }

  lemma CrossAlgebra(ll: Fp, lr: Fp, rl: Fp, rr: Fp, u: Fp, v: Fp)
    requires Mul(u, v) == 1
    ensures Add(Add(ll, Mul(v, lr)), Mul(u, Add(rl, Mul(v, rr))))
            == Add(Add(ll, rr), Add(Mul(v, lr), Mul(u, rl)))
  {
    assert Mul(u, Mul(v, rr)) == rr by { MulAssociates(u, v, rr); Units(rr); }
    assert Mul(u, Add(rl, Mul(v, rr))) == Add(Mul(u, rl), rr) by { Distributes(u, rl, Mul(v, rr)); }
    Regroup(ll, Mul(v, lr), Mul(u, rl), rr);
  }

  lemma Regroup(a: Fp, b: Fp, c: Fp, d: Fp)
    ensures Add(Add(a, b), Add(c, d)) == Add(Add(a, d), Add(b, c))
  {
    RingLaws();
  }

  /** One round keeps the claim: the folded commitment is P + u^-1 * L + u * R. */
  lemma RoundKeepsClaim(key: seq<Fp>, coeffs: seq<Fp>, z: seq<Fp>, hPrime: Fp, u: Fp, v: Fp)
    requires |key| == |coeffs| == |z| && |key| % 2 == 0 && Mul(u, v) == 1
    ensures RoundCommitment(FoldHalves(key, u), FoldHalves(coeffs, v), FoldHalves(z, u), hPrime)
            == Add(RoundCommitment(key, coeffs, z, hPrime),
                   Add(Mul(LeftElement(key, coeffs, z, hPrime), v), Mul(RightElement(key, coeffs, z, hPrime), u)))
  {
    var h := |key| / 2;
    CrossTerms(key, coeffs, u, v);
    Commutes(u, v);
    CrossTerms(coeffs, z, v, u);
    RoundAlgebra(Inner(key, coeffs), Inner(key[..h], coeffs[h..]), Inner(key[h..], coeffs[..h]),
                 Inner(coeffs, z), Inner(coeffs[h..], z[..h]), Inner(coeffs[..h], z[h..]), hPrime, u, v);
  }

  lemma RoundAlgebra(p: Fp, pl: Fp, pr: Fp, q: Fp, ql: Fp, qr: Fp, h: Fp, u: Fp, v: Fp)
    ensures Add(Add(p, Add(Mul(v, pl), Mul(u, pr))), Mul(h, Add(q, Add(Mul(u, qr), Mul(v, ql)))))
            == Add(Add(p, Mul(h, q)), Add(Mul(Add(pl, Mul(h, ql)), v), Mul(Add(pr, Mul(h, qr)), u)))
  {
    assert Mul(Add(pl, Mul(h, ql)), v) == Add(Mul(v, pl), Mul(h, Mul(v, ql))) by { RingLaws(); }
    assert Mul(Add(pr, Mul(h, qr)), u) == Add(Mul(u, pr), Mul(h, Mul(u, qr))) by { RingLaws(); }
    assert Mul(h, Add(q, Add(Mul(u, qr), Mul(v, ql))))
           == Add(Mul(h, q), Add(Mul(h, Mul(u, qr)), Mul(h, Mul(v, ql)))) by {
      Distributes(h, q, Add(Mul(u, qr), Mul(v, ql)));
      Distributes(h, Mul(u, qr), Mul(v, ql));
    }
    SumSix(p, Mul(v, pl), Mul(u, pr), Mul(h, q), Mul(h, Mul(u, qr)), Mul(h, Mul(v, ql)));
  }

  lemma SumSix(a: Fp, b: Fp, c: Fp, d: Fp, e: Fp, f: Fp)
    ensures Add(Add(a, Add(b, c)), Add(d, Add(e, f))) == Add(Add(a, d), Add(Add(b, f), Add(c, e)))
  {
    FourSum(a, Add(b, c), d, Add(e, f));
    Commutes(e, f);
    FourSum(b, c, f, e);
  }

  // ----- all rounds of the prover

  datatype Rounds = Rounds(lVec: seq<Fp>, rVec: seq<Fp>, finalCommKey: Fp, c: Fp)

  /** None where the source would unwrap the inverse of a zero challenge. */
  function ProverRounds(key: seq<Fp>, coeffs: seq<Fp>, z: seq<Fp>, hPrime: Fp, challenge: Fp, oracle: Oracle,
                        rounds: nat): Option<Rounds>
    requires |key| == |coeffs| == |z| == Pow2(rounds)
    decreases rounds
  {
    if rounds == 0 then Some(Rounds([], [], key[0], coeffs[0])) else
      var l, r := LeftElement(key, coeffs, z, hPrime), RightElement(key, coeffs, z, hPrime);
      var u := oracle(RoundQuery(challenge, l, r));
      match Inverse(u)
      case None => None
      case Some(v) =>
        Prepend([l], [r], ProverRounds(FoldHalves(key, u), FoldHalves(coeffs, v), FoldHalves(z, u), hPrime, u, oracle,
                                       rounds - 1))
  }

  function Prepend(ls: seq<Fp>, rs: seq<Fp>, rounds: Option<Rounds>): Option<Rounds> {
    match rounds
    case None => None
    case Some(p) => Some(p.(lVec := ls + p.lVec, rVec := rs + p.rVec))
  }

  lemma PrependTwice(ls: seq<Fp>, rs: seq<Fp>, ls': seq<Fp>, rs': seq<Fp>, rounds: Option<Rounds>)
    ensures Prepend(ls, rs, Prepend(ls', rs', rounds)) == Prepend(ls + ls', rs + rs', rounds)
  {
    if rounds.Some? {
      AppendAssociates(ls, ls', rounds.value.lVec);
      AppendAssociates(rs, rs', rounds.value.rVec);
    }
  }

  /** What the rounds so far and those still to come add up to; Peek opens it. */
  ghost predicate Owed(whole: Option<Rounds>, ls: seq<Fp>, rs: seq<Fp>, key: seq<Fp>, coeffs: seq<Fp>, z: seq<Fp>,
                       hPrime: Fp, challenge: Fp, oracle: Oracle, rounds: nat)
    requires |key| == |coeffs| == |z| == Pow2(rounds)
  {
    forall x :: Peek(x) ==> whole == Prepend(ls, rs, ProverRounds(key, coeffs, z, hPrime, challenge, oracle, rounds))
  }

  lemma OwedAtStart(key: seq<Fp>, coeffs: seq<Fp>, z: seq<Fp>, hPrime: Fp, challenge: Fp, oracle: Oracle, rounds: nat)
    requires |key| == |coeffs| == |z| == Pow2(rounds)
    ensures Owed(ProverRounds(key, coeffs, z, hPrime, challenge, oracle, rounds), [], [], key, coeffs, z, hPrime,
                 challenge, oracle, rounds)
  {
    var p := ProverRounds(key, coeffs, z, hPrime, challenge, oracle, rounds);
    assert p.Some? ==> [] + p.value.lVec == p.value.lVec && [] + p.value.rVec == p.value.rVec;
  }

  lemma OwedAfterRound(whole: Option<Rounds>, ls: seq<Fp>, rs: seq<Fp>, key: seq<Fp>, coeffs: seq<Fp>, z: seq<Fp>,
                       hPrime: Fp, challenge: Fp, oracle: Oracle, rounds: nat, l: Fp, r: Fp, u: Fp)
    requires |key| == |coeffs| == |z| == Pow2(rounds) && rounds > 0
    requires Owed(whole, ls, rs, key, coeffs, z, hPrime, challenge, oracle, rounds)
    requires l == LeftElement(key, coeffs, z, hPrime) && r == RightElement(key, coeffs, z, hPrime)
    requires u == oracle(RoundQuery(challenge, l, r))
    ensures Inverse(u).None? ==> whole == None
    ensures Inverse(u).Some? ==>
              Owed(whole, ls + [l], rs + [r], FoldHalves(key, u), FoldHalves(coeffs, Inverse(u).value),
                   FoldHalves(z, u),
                   hPrime, u, oracle, rounds - 1)
  {
    assert Peek(0);
    if Inverse(u).Some? {
      var p := ProverRounds(FoldHalves(key, u), FoldHalves(coeffs, Inverse(u).value), FoldHalves(z, u), hPrime, u,
                            oracle,
                            rounds - 1);
      PrependTwice(ls, rs, [l], [r], p);
    }
  }

  lemma OwedAtEnd(whole: Option<Rounds>, ls: seq<Fp>, rs: seq<Fp>, key: seq<Fp>, coeffs: seq<Fp>, z: seq<Fp>,
                  hPrime: Fp, challenge: Fp, oracle: Oracle)
    requires |key| == |coeffs| == |z| == 1
    requires Owed(whole, ls, rs, key, coeffs, z, hPrime, challenge, oracle, 0)
    ensures whole == Some(Rounds(ls, rs, key[0], coeffs[0]))
  {
    assert Peek(0);
    assert ls + [] == ls && rs + [] == rs;
  }

  /** Folds the upper half of the first 2 * h entries into the lower half, in place. */
  method FoldInPlace(a: array<Fp>, h: nat, upper: seq<Fp>, u: Fp)
    requires 2 * h <= a.Length && upper == a[h..2 * h]
    modifies a
    ensures a[..h] == FoldHalves(old(a[..2 * h]), u)
  {
    ghost var s := a[..2 * h];
    for i := 0 to h
      invariant forall k :: 0 <= k < i ==> a[k] == Add(s[k], Mul(u, s[h + k]))
      invariant forall k :: i <= k < a.Length ==> a[k] == old(a[k])
    {
      assert upper[i] == s[h + i];
      a[i] := Add(a[i], Mul(u, upper[i]));
    }
    forall k | 0 <= k < h ensures a[k] == FoldHalves(s, u)[k] {
      CoefPlus(s[..h], Scale(u, s[h..]), k);
      ScaleIndex(u, s[h..], k);
    }
  }

  /** One turn of the halving loop of open; inverse.None? where the source would panic. */
  method OneRound(coeffs: array<Fp>, z: array<Fp>, keyProj: array<Fp>, n: nat, hPrime: Fp, challenge: Fp,
                  oracle: Oracle) returns (l: Fp, r: Fp, u: Fp, inverse: Option<Fp>)
    requires n % 2 == 0 && n <= coeffs.Length && n <= z.Length && n <= keyProj.Length
    requires coeffs != z && z != keyProj && keyProj != coeffs
    modifies coeffs, z, keyProj
    ensures l == LeftElement(old(keyProj[..n]), old(coeffs[..n]), old(z[..n]), hPrime)
    ensures r == RightElement(old(keyProj[..n]), old(coeffs[..n]), old(z[..n]), hPrime)
    ensures u == oracle(RoundQuery(challenge, l, r)) && inverse == Inverse(u)
    ensures inverse.Some? ==>
              && keyProj[..n / 2] == FoldHalves(old(keyProj[..n]), u)
              && coeffs[..n / 2] == FoldHalves(old(coeffs[..n]), inverse.value)
              && z[..n / 2] == FoldHalves(old(z[..n]), u)
  {
    var h := n / 2;
    var coeffsL, coeffsR := coeffs[..h], coeffs[h..n];
    var zL, zR := z[..h], z[h..n];
    var keyL, keyR := keyProj[..h], keyProj[h..n];
    l := Add(Inner(keyL, coeffsR), Mul(hPrime, Inner(coeffsR, zL)));
    r := Add(Inner(keyR, coeffsL), Mul(hPrime, Inner(coeffsL, zR)));
    assert l == LeftElement(keyProj[..n], coeffs[..n], z[..n], hPrime)
        && r == RightElement(keyProj[..n], coeffs[..n], z[..n], hPrime) by {
      assert coeffsL == coeffs[..n][..h] && coeffsR == coeffs[..n][h..];
      assert zL == z[..n][..h] && zR == z[..n][h..];
      assert keyL == keyProj[..n][..h] && keyR == keyProj[..n][h..];
    }
    u := oracle(RoundQuery(challenge, l, r));
    inverse := Inverse(u);
    assert 2 * h == n;
    if inverse.Some? {
      FoldInPlace(coeffs, h, coeffsR, inverse.value);
      FoldInPlace(z, h, zR, u);
      FoldInPlace(keyProj, h, keyR, u);
    }
  }

  /** The same turn, with what is still owed to the whole run. */
  method TrackedRound(coeffs: array<Fp>, z: array<Fp>, keyProj: array<Fp>, n: nat, hPrime: Fp, challenge: Fp,
                      oracle: Oracle, ghost whole: Option<Rounds>, ghost ls: seq<Fp>, ghost rs: seq<Fp>,
                      ghost rounds: nat) returns (l: Fp, r: Fp, u: Fp, inverse: Option<Fp>)
    requires n == Pow2(rounds) && rounds > 0 && n <= coeffs.Length && n <= z.Length && n <= keyProj.Length
    requires coeffs != z && z != keyProj && keyProj != coeffs
    requires Owed(whole, ls, rs, keyProj[..n], coeffs[..n], z[..n], hPrime, challenge, oracle, rounds)
    modifies coeffs, z, keyProj
    ensures inverse.None? ==> whole == None
    ensures n / 2 == Pow2(rounds - 1)
    ensures inverse.Some? ==>
              Owed(whole, ls + [l], rs + [r], keyProj[..n / 2], coeffs[..n / 2], z[..n / 2], hPrime, u, oracle,
                   rounds - 1)
  {
    ghost var key, cs, zs := keyProj[..n], coeffs[..n], z[..n];
    l, r, u, inverse := OneRound(coeffs, z, keyProj, n, hPrime, challenge, oracle);
    OwedAfterRound(whole, ls, rs, key, cs, zs, hPrime, challenge, oracle, rounds, l, r, u);
  }

  /** The halving loop of open: coefficients, powers of the point and key shrink in place. */
  method FoldingLoop(commKey: seq<Fp>, initialCoeffs: seq<Fp>, point: Fp, hPrime: Fp, initialChallenge: Fp,
                     oracle: Oracle, ghost rounds: nat) returns (result: Option<Rounds>)
    requires |commKey| == |initialCoeffs| == Pow2(rounds)
    ensures result == ProverRounds(commKey, initialCoeffs, PowersFrom(1, point, |commKey|), hPrime, initialChallenge,
                                   oracle, rounds)
  {
    var n := |commKey|;
    var powers := Powers(point, n);
    var coeffs := ToArray(initialCoeffs);
    var z := ToArray(powers);
    var keyProj := ToArray(commKey);
    var roundChallenge := initialChallenge;
    var lVec: seq<Fp>, rVec: seq<Fp> := [], [];
    ghost var left := rounds;
    ghost var whole := ProverRounds(commKey, initialCoeffs, powers, hPrime, initialChallenge, oracle, rounds);
    OwedAtStart(commKey, initialCoeffs, powers, hPrime, initialChallenge, oracle, rounds);
    while n > 1
      invariant n == Pow2(left) <= coeffs.Length == z.Length == keyProj.Length
      invariant Owed(whole, lVec, rVec, keyProj[..n], coeffs[..n], z[..n], hPrime, roundChallenge, oracle, left)
      decreases left
    {
      var l, r, u, inverse :=
        TrackedRound(coeffs, z, keyProj, n, hPrime, roundChallenge, oracle, whole, lVec, rVec, left);
      if inverse.None? {
        return None;
      }
      lVec := lVec + [l];
      rVec := rVec + [r];
      roundChallenge := u;
      n := n / 2;
      left := left - 1;
    }
    OwedAtEnd(whole, lVec, rVec, keyProj[..n], coeffs[..n], z[..n], hPrime, roundChallenge, oracle);
    result := Some(Rounds(lVec, rVec, keyProj[0], coeffs[0]));
  }

  method ToArray(s: seq<Fp>) returns (a: array<Fp>)
    ensures fresh(a) && a.Length == |s| && a[..|s|] == s
  {
    a := new Fp[|s|](i requires 0 <= i < |s| => s[i]);
  }

  // ----- all rounds of the verifier

  /** The round challenges the verifier derives from a proof. */
  function Challenges(challenge: Fp, ls: seq<Fp>, rs: seq<Fp>, oracle: Oracle): (r: seq<Fp>)
    ensures |r| == if |ls| < |rs| then |ls| else |rs|
    decreases |ls|
  {
    if ls == [] || rs == [] then [] else
      var u := oracle(RoundQuery(challenge, ls[0], rs[0]));
      [u] + Challenges(u, ls[1..], rs[1..], oracle)
  }

  /** The running commitment after all rounds; None where the source would unwrap the inverse
      of a zero challenge. */
  function RoundSum(commitment: Fp, challenge: Fp, ls: seq<Fp>, rs: seq<Fp>, oracle: Oracle): Option<Fp>
    decreases |ls|
  {
    if ls == [] || rs == [] then Some(commitment) else
      var u := oracle(RoundQuery(challenge, ls[0], rs[0]));
      match Inverse(u)
      case None => None
      case Some(v) => RoundSum(Add(commitment, Add(Mul(ls[0], v), Mul(rs[0], u))), u, ls[1..], rs[1..], oracle)
  }

  /** The verifier's loop over the proof. */
  method VerifierLoop(commitment: Fp, initialChallenge: Fp, lVec: seq<Fp>, rVec: seq<Fp>, oracle: Oracle)
    returns (sum: Option<Fp>, roundChallenges: seq<Fp>)
    ensures sum == RoundSum(commitment, initialChallenge, lVec, rVec, oracle)
    ensures sum.Some? ==> roundChallenges == Challenges(initialChallenge, lVec, rVec, oracle)
  {
    var roundCommitment, roundChallenge := commitment, initialChallenge;
    roundChallenges := [];
    var n := if |lVec| < |rVec| then |lVec| else |rVec|;
    for i := 0 to n
      invariant RoundSum(roundCommitment, roundChallenge, lVec[i..], rVec[i..], oracle)
                == RoundSum(commitment, initialChallenge, lVec, rVec, oracle)
      invariant roundChallenges + Challenges(roundChallenge, lVec[i..], rVec[i..], oracle)
                == Challenges(initialChallenge, lVec, rVec, oracle)
    {
      var l, r := lVec[i], rVec[i];
      assert lVec[i..] == [l] + lVec[i + 1..] && rVec[i..] == [r] + rVec[i + 1..];
      FirstRound(roundCommitment, roundChallenge, l, r, lVec[i + 1..], rVec[i + 1..], oracle);
      roundChallenge := oracle(RoundQuery(roundChallenge, l, r));
      roundChallenges := roundChallenges + [roundChallenge];
      var inverse := Inverse(roundChallenge);
      if inverse.None? { return None, roundChallenges; }
      roundCommitment := Add(roundCommitment, Add(Mul(l, inverse.value), Mul(r, roundChallenge)));
    }
    assert lVec[n..] == [] || rVec[n..] == [];
    sum := Some(roundCommitment);
  }

  /** The verifier, fed with the prover's rounds, sees the prover's challenges and ends with
      the prover's last claim. */
  lemma {:induction false} ProverMeetsVerifier(key: seq<Fp>, coeffs: seq<Fp>, z: seq<Fp>, hPrime: Fp, challenge: Fp,
                                               oracle: Oracle, rounds: nat, p: Rounds)
    requires |key| == |coeffs| == |z| == Pow2(rounds)
    requires Some(p) == ProverRounds(key, coeffs, z, hPrime, challenge, oracle, rounds)
    ensures |p.lVec| == |p.rVec| == rounds
    ensures p.finalCommKey == FoldAll(key, Challenges(challenge, p.lVec, p.rVec, oracle))[0]
    ensures RoundSum(RoundCommitment(key, coeffs, z, hPrime), challenge, p.lVec, p.rVec, oracle)
            == Some(Add(Mul(p.finalCommKey, p.c),
                        Mul(hPrime, Mul(p.c, FoldAll(z, Challenges(challenge, p.lVec, p.rVec, oracle))[0]))))
    decreases rounds
  {
    if rounds == 0 {
      assert Inner(key, coeffs) == Mul(key[0], coeffs[0]) by { InnerOne(key, coeffs); }
      assert Inner(coeffs, z) == Mul(coeffs[0], z[0]) by { InnerOne(coeffs, z); }
    } else {
      var l, r := LeftElement(key, coeffs, z, hPrime), RightElement(key, coeffs, z, hPrime);
      var u := oracle(RoundQuery(challenge, l, r));
      var v := Inverse(u).value;
      var key', coeffs', z' := FoldHalves(key, u), FoldHalves(coeffs, v), FoldHalves(z, u);
      var p' := ProverRounds(key', coeffs', z', hPrime, u, oracle, rounds - 1).value;
      ProverMeetsVerifier(key', coeffs', z', hPrime, u, oracle, rounds - 1, p');
      RoundKeepsClaim(key, coeffs, z, hPrime, u, v);
      var sum := RoundCommitment(key, coeffs, z, hPrime);
      assert p == p'.(lVec := [l] + p'.lVec, rVec := [r] + p'.rVec);
      FirstRound(sum, challenge, l, r, p'.lVec, p'.rVec, oracle);
    }
  }

  lemma InnerOne(a: seq<Fp>, b: seq<Fp>)
    requires |a| == |b| == 1
    ensures Inner(a, b) == Mul(a[0], b[0])
  {
    assert a[1..] == [];
    Units(Mul(a[0], b[0]));
  }

  lemma FirstRound(sum: Fp, challenge: Fp, l: Fp, r: Fp, ls: seq<Fp>, rs: seq<Fp>, oracle: Oracle)
    ensures var u := oracle(RoundQuery(challenge, l, r));
            && Challenges(challenge, [l] + ls, [r] + rs, oracle) == [u] + Challenges(u, ls, rs, oracle)
            && (Inverse(u).Some? ==>
                  RoundSum(sum, challenge, [l] + ls, [r] + rs, oracle)
                  == RoundSum(Add(sum, Add(Mul(l, Inverse(u).value), Mul(r, u))), u, ls, rs, oracle))
            && (Inverse(u).None? ==> RoundSum(sum, challenge, [l] + ls, [r] + rs, oracle) == None)
  {
    assert ([l] + ls)[1..] == ls && ([r] + rs)[1..] == rs;
  }
}
