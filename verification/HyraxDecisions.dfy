/** What Hyrax commits to and decides (hyrax/mod.rs), for whatever commitment and proof: the two
    equations and the challenge written out, and what the random choices of open mask. */
module HyraxDecisions {
  import opened PrimeField
  import opened Numbers
  import opened Vectors
  import opened MultilinearExtensions
  import opened LinearCodes
  import opened HyraxPC

  // ----- commit

  /** Entry i + j * Pow2(n / 2) of the values is entry j of row i. */
  ghost predicate IsRow(f: seq<Fp>, n: nat, row: seq<Fp>, i: nat) {
    && |row| == Pow2(n / 2)
    && forall j :: 0 <= j < |row| ==> 0 <= j * Pow2(n / 2) + i < |f| && row[j] == f[j * Pow2(n / 2) + i]
  }

  /** The commitment to a row under its own blinding. */
  ghost predicate IsCommitment(key: Key, row: seq<Fp>, rand: Fp, com: Fp) {
    com == Add(Inner(key.comKey, row), Mul(key.h, rand))
  }

  /** commit errs for an odd number of variables or a key shorter than that number, panics for a key or
      blindings of the wrong length, and otherwise commits to every row under its own blinding. */
  lemma CommitDecides(key: Key, f: seq<Fp>, n: nat, rands: seq<Fp>)
    requires |f| == Pow2(n)
    ensures var r := CommitOne(key, f, n, rands);
            && (r == Err <==> n % 2 == 1 || n > |key.comKey|)
            && (r.Ok? <==> n % 2 == 0 && n <= |key.comKey| == |rands| == Pow2(n / 2))
            && (r.Ok? ==>
                  && r.value.1.randomness == rands && |r.value.0| == |r.value.1.mat.entries| == Pow2(n / 2)
                  && (forall i :: 0 <= i < Pow2(n / 2) ==> IsRow(f, n, r.value.1.mat.entries[i], i))
                  && forall i :: 0 <= i < Pow2(n / 2) ==>
                                   IsCommitment(key, r.value.1.mat.entries[i], rands[i], r.value.0[i]))
  {
    if n % 2 == 0 && |rands| == Pow2(n / 2) {
      SquareHalves(n);
      var rows := ColumnMajor(f, Pow2(n / 2), Pow2(n / 2));
      RowsCommit(key, rows, rands, Pow2(n / 2));
      forall i | 0 <= i < Pow2(n / 2) ensures IsRow(f, n, rows[i], i) {
        forall j | 0 <= j < Pow2(n / 2)
          ensures 0 <= j * Pow2(n / 2) + i < |f| && rows[i][j] == f[j * Pow2(n / 2) + i]
        {
          assert Coord(Pow2(n / 2), Pow2(n / 2), i, j) == j * Pow2(n / 2) + i;
        }
      }
    }
  }

  lemma {:induction false} RowsCommit(key: Key, rows: seq<seq<Fp>>, rands: seq<Fp>, m: nat)
    requires |rows| == |rands| && forall i :: 0 <= i < |rows| ==> |rows[i]| == m
    ensures CommitRows(key, rows, rands).Some? <==> |key.comKey| == m || rows == []
    ensures CommitRows(key, rows, rands).Some? ==>
              forall i :: 0 <= i < |rows| ==>
                            IsCommitment(key, rows[i], rands[i], CommitRows(key, rows, rands).value[i])
  {
    if rows != [] {
      assert forall i :: 0 <= i < |rows[1..]| ==> rows[1..][i] == rows[i + 1];
      RowsCommit(key, rows[1..], rands[1..], m);
      var r := CommitRows(key, rows, rands);
      if r.Some? {
        forall i | 0 <= i < |rows| ensures IsCommitment(key, rows[i], rands[i], r.value[i]) {
          if i > 0 {
            assert IsCommitment(key, rows[1..][i - 1], rands[1..][i - 1], r.value[1..][i - 1]);
          }
        }
      }
    }
  }

  // ----- check

  /** All that the challenge depends on. */
  function Seen(tr: Transcript, key: Key, coms: seq<Fp>, point: seq<Fp>, proof: Proof): Transcript {
    tr + [AbsorbedKey(key), AbsorbedRows(coms), AbsorbedPoint(point), AbsorbedElement(proof.comEval),
          AbsorbedElement(proof.comD), AbsorbedElement(proof.comB)]
  }

  /** Equation (13): z answers for the combination of the row commitments by the lower half of the point. */
  ghost predicate RowsBalance(key: Key, coms: seq<Fp>, point: seq<Fp>, proof: Proof, c: Fp) {
    Add(Inner(key.comKey, proof.z), Mul(key.h, proof.zD))
    == Add(Mul(c, Inner(coms, EqTable(point[..|point| / 2]))), proof.comD)
  }

  /** Equation (14): its product with the upper half answers for the evaluation. */
  ghost predicate ValueBalances(key: Key, point: seq<Fp>, proof: Proof, c: Fp)
    requires key.comKey != []
  {
    Add(Mul(key.comKey[0], Inner(EqTable(point[|point| / 2..]), proof.z)), Mul(key.h, proof.zB))
    == Add(Mul(c, proof.comEval), proof.comB)
  }

  /** What check answers for one commitment, whatever the commitment and the proof. */
  lemma CheckDecides(key: Key, coms: seq<Fp>, point: seq<Fp>, proof: Proof, oracle: Oracle, tr: Transcript)
    requires |point| % 2 == 0
    ensures var (r, tr') := CheckOne(key, coms, point, proof, oracle, tr);
            var seen := Seen(tr, key, coms, point, proof);
            && (r == Err <==> |coms| != Pow2(|point| / 2))
            && (r == Ok(true) <==> && |coms| == Pow2(|point| / 2) && key.comKey != [] && |proof.z| == |key.comKey|
                                   && RowsBalance(key, coms, point, proof, oracle(seen))
                                   && ValueBalances(key, point, proof, oracle(seen)))
            && (r == Panic <==> && |coms| == Pow2(|point| / 2)
                                && (key.comKey == []
                                    || (|proof.z| != |key.comKey| && ValueBalances(key, point, proof, oracle(seen)))))
            && (r.Ok? ==> tr' == seen + [Squeezed])
  {
    TensorsAreEqTables(point);
    var c := oracle(Seen(tr, key, coms, point, proof));
    Commutes(Inner(coms, EqTable(point[..|point| / 2])), c);
    Commutes(proof.comEval, c);
  }

  /** Which error comes out of a list: the first commitment that is not accepted decides. */
  lemma {:induction false} FirstDecides(key: Key, comms: seq<seq<Fp>>, point: seq<Fp>, proofs: seq<Proof>,
                                        oracle: Oracle, tr: Transcript, k: nat)
    requires k < Decided(|comms|, |proofs|) && !AcceptedAt(key, comms, point, proofs, oracle, tr, k)
    requires forall i :: 0 <= i < k ==> AcceptedAt(key, comms, point, proofs, oracle, tr, i)
    ensures CheckFrom(key, comms, point, proofs, oracle, tr)
            == match CheckOne(key, comms[k], point, proofs[k], oracle,
                              After(key, comms, point, proofs, oracle, tr, k)).0
               case Err => Err
               case Panic => Panic
               case Ok(_) => Ok((false, After(key, comms, point, proofs, oracle, tr, k + 1)))
    decreases k
  {
    var tr' := CheckOne(key, comms[0], point, proofs[0], oracle, tr).1;
    if k > 0 {
      assert AcceptedAt(key, comms, point, proofs, oracle, tr, 0);
      AfterFirst(key, comms, point, proofs, oracle, tr, k);
      AfterFirst(key, comms, point, proofs, oracle, tr, k - 1);
      forall i | 0 <= i < k - 1 ensures AcceptedAt(key, comms[1..], point, proofs[1..], oracle, tr', i) {
        assert AcceptedAt(key, comms, point, proofs, oracle, tr, i + 1);
        AfterFirst(key, comms, point, proofs, oracle, tr, i);
      }
      FirstDecides(key, comms[1..], point, proofs[1..], oracle, tr', k - 1);
    }
  }

  /** If all are accepted, the transcript is the one after the last. */
  lemma {:induction false} AllDecided(key: Key, comms: seq<seq<Fp>>, point: seq<Fp>, proofs: seq<Proof>,
                                      oracle: Oracle, tr: Transcript)
    requires forall i :: 0 <= i < Decided(|comms|, |proofs|) ==> AcceptedAt(key, comms, point, proofs, oracle, tr, i)
    ensures CheckFrom(key, comms, point, proofs, oracle, tr)
            == Ok((true, After(key, comms, point, proofs, oracle, tr, Decided(|comms|, |proofs|))))
    decreases |comms|
  {
    if comms != [] && proofs != [] {
      var tr', n := CheckOne(key, comms[0], point, proofs[0], oracle, tr).1, Decided(|comms|, |proofs|);
      assert AcceptedAt(key, comms, point, proofs, oracle, tr, 0);
      AfterFirst(key, comms, point, proofs, oracle, tr, n - 1);
      forall i | 0 <= i < n - 1 ensures AcceptedAt(key, comms[1..], point, proofs[1..], oracle, tr', i) {
        assert AcceptedAt(key, comms, point, proofs, oracle, tr, i + 1);
        AfterFirst(key, comms, point, proofs, oracle, tr, i);
      }
      AllDecided(key, comms[1..], point, proofs[1..], oracle, tr');
    }
  }

  // ----- open

  /** The commitments of an opening are those of its coins and of the value, and the responses differ
      from the coins by the challenge times what they mask. */
  lemma OpeningIs(key: Key, f: seq<Fp>, point: seq<Fp>, rands: seq<Fp>, coms: seq<Fp>, st: State, coins: Coins,
                  oracle: Oracle, tr: Transcript)
    requires |f| == Pow2(|point|) && CommitOne(key, f, |point|, rands) == Ok((coms, st))
    requires |coins.d| == |key.comKey|
    ensures Shaped(st.mat) && |key.comKey| == st.mat.m && key.comKey != []
    ensures var (low, high) := (EqTable(point[..|point| / 2]), EqTable(point[|point| / 2..]));
            var (proof, tr') := OpenOne(key, coms, st, point, coins, oracle, tr);
            var c := oracle(Seen(tr, key, coms, point, proof));
            && proof.comEval == Add(Mul(key.comKey[0], Value(f, point)), Mul(key.h, coins.rEval))
            && proof.comD == Add(Inner(key.comKey, coins.d), Mul(key.h, coins.rD))
            && proof.comB == Add(Mul(key.comKey[0], Inner(high, coins.d)), Mul(key.h, coins.rB))
            && Answers(coins.d, c, low, st.mat, proof.z)
            && proof.zD == Add(coins.rD, Mul(c, Inner(low, rands)))
            && proof.zB == Add(coins.rB, Mul(c, coins.rEval))
            && tr' == Seen(tr, key, coms, point, proof) + [Squeezed]
  {
    OpenedValue(key, f, point, rands, coms, st);
    CommittedState(key, f, |point|, rands, coms, st);
    TensorsAreEqTables(point);
    var (l, r) := Tensors(point);
    var proof := OpenOne(key, coms, st, point, coins, oracle, tr).0;
    var c := oracle(Seen(tr, key, coms, point, proof));
    VectorAnswers(coins.d, c, l, st.mat);
    Commutes(Mul(c, Inner(l, rands)), coins.rD);
    Commutes(Mul(c, coins.rEval), coins.rB);
  }

  /** Entry j of the response is entry j of the mask plus the challenge times the combined column j. */
  ghost predicate Answers(d: seq<Fp>, c: Fp, low: seq<Fp>, mat: Matrix, z: seq<Fp>)
    requires Shaped(mat) && |d| == mat.m
  {
    |z| == |d| && forall j :: 0 <= j < |z| ==> z[j] == Add(d[j], Mul(c, Inner(low, Column(mat, j))))
  }

  lemma VectorAnswers(d: seq<Fp>, c: Fp, l: seq<Fp>, mat: Matrix)
    requires Shaped(mat) && |d| == mat.m
    ensures Answers(d, c, l, mat, ChallengeVector(d, c, MatRowMul(mat, l)))
  {
    var v := MatRowMul(mat, l);
    forall j | 0 <= j < |d| ensures ChallengeVector(d, c, v)[j] == Add(d[j], Mul(c, v[j])) {
      ScaleIndex(c, v, j);
      PlusIndex(d, Scale(c, v), j);
    }
  }

  lemma {:induction false} PlusIndex(a: seq<Fp>, b: seq<Fp>, j: nat)
    requires j < |a| == |b|
    ensures Plus(a, b)[j] == Add(a[j], b[j])
  {
    if j > 0 { PlusIndex(a[1..], b[1..], j - 1); }
  }

  /** Under any challenge every response comes from exactly one mask. */
  lemma ResponsesMask(d: seq<Fp>, c: Fp, v: seq<Fp>, z: seq<Fp>)
    requires |d| == |v| == |z|
    ensures ChallengeVector(d, c, v) == z <==> forall j :: 0 <= j < |d| ==> d[j] == Sub(z[j], Mul(c, v[j]))
  {
    var r := ChallengeVector(d, c, v);
    forall j | 0 <= j < |d| ensures r[j] == z[j] <==> d[j] == Sub(z[j], Mul(c, v[j])) {
      ScaleIndex(c, v, j);
      PlusIndex(d, Scale(c, v), j);
      SubIff(z[j], Mul(c, v[j]), d[j]);
      Commutes(d[j], Mul(c, v[j]));
    }
  }

  // ----- other commitments

  /** The proof for the committed polynomial against other row commitments, under the same challenge:
      accepted exactly if the challenge times the difference of the combined rows vanishes. */
  lemma OtherCommitments(key: Key, f: seq<Fp>, point: seq<Fp>, rands: seq<Fp>, coms: seq<Fp>, st: State,
                         coins: Coins, oracle: Oracle, tr: Transcript, other: seq<Fp>, tr2: Transcript)
    requires |f| == Pow2(|point|) && CommitOne(key, f, |point|, rands) == Ok((coms, st))
    requires |coins.d| == |key.comKey| && |other| == |coms|
    ensures Shaped(st.mat) && |key.comKey| == st.mat.m && key.comKey != []
    ensures var proof := OpenOne(key, coms, st, point, coins, oracle, tr).0;
            var c := oracle(Seen(tr, key, coms, point, proof));
            var low := EqTable(point[..|point| / 2]);
            oracle(Seen(tr2, key, other, point, proof)) == c ==>
              (CheckOne(key, other, point, proof, oracle, tr2).0 == Ok(true)
               <==> Mul(c, Sub(Inner(other, low), Inner(coms, low))) == 0)
  {
    HonestOpening(key, f, point, rands, coms, st, coins, oracle, tr);
    CommittedState(key, f, |point|, rands, coms, st);
    var proof := OpenOne(key, coms, st, point, coins, oracle, tr).0;
    var c := oracle(Seen(tr, key, coms, point, proof));
    var low := EqTable(point[..|point| / 2]);
    CheckDecides(key, coms, point, proof, oracle, tr);
    CheckDecides(key, other, point, proof, oracle, tr2);
    Balances(c, Inner(other, low), Inner(coms, low), proof.comD);
  }

  lemma Balances(c: Fp, a: Fp, b: Fp, d: Fp)
    ensures Add(Mul(c, a), d) == Add(Mul(c, b), d) <==> Mul(c, Sub(a, b)) == 0
  {
    SubZero(Mul(c, a), Mul(c, b));
    Distributes(c, a, Neg(b));
    NegDistributes(c, b);
    if Add(Mul(c, a), d) == Add(Mul(c, b), d) {
      SubIff(Add(Mul(c, a), d), d, Mul(c, a));
      Commutes(Mul(c, a), d);
      SubIff(Add(Mul(c, b), d), d, Mul(c, b));
      Commutes(Mul(c, b), d);
    }
  }
}
