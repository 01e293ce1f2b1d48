/** Hyrax (hyrax/mod.rs, hyrax/utils.rs): one Pedersen commitment per row of the coefficient
    matrix and a dot-product argument. */
module HyraxPC {
  import opened PrimeField
  import opened Numbers
  import opened Vectors
  import opened MultilinearExtensions
  import opened LinearCodes
  import SparseMatrices

  datatype Key = Key(comKey: seq<Fp>, h: Fp)
  datatype State = State(randomness: seq<Fp>, mat: Matrix)
  datatype Proof = Proof(comEval: Fp, comD: Fp, comB: Fp, z: seq<Fp>, zD: Fp, zB: Fp)

  /** The random choices of open for one polynomial. */
  datatype Coins = Coins(rEval: Fp, d: seq<Fp>, rD: Fp, rB: Fp)

  /** What goes into the sponge and comes out of it; the challenge is any function of it. */
  datatype Event = AbsorbedKey(key: Key) | AbsorbedRows(rows: seq<Fp>) | AbsorbedPoint(point: seq<Fp>) |
                   AbsorbedElement(element: Fp) | Squeezed
  type Transcript = seq<Event>
  type Oracle = Transcript -> Fp

  // ----- matrices and tensors

  /** flat_to_matrix_column_major; None where the assertion fails. */
  method FlatToMatrixColumnMajor(flat: seq<Fp>, n: nat, m: nat) returns (r: Option<seq<seq<Fp>>>)
    ensures r.None? <==> |flat| != n * m
    ensures r.Some? ==> r.value == ColumnMajor(flat, n, m)
  {
    if |flat| != n * m {
      return None;
    }
    var res: seq<seq<Fp>> := [];
    for row := 0 to n
      invariant res == ColumnMajor(flat, n, m)[..row]
    {
      res := res + [MajorRow(flat, n, m, row)];
    }
    assert ColumnMajor(flat, n, m)[..n] == ColumnMajor(flat, n, m);
    r := Some(res);
  }

  /** Row i takes every n-th element from i on. */
  function MajorRow(flat: seq<Fp>, n: nat, m: nat, i: nat): (r: seq<Fp>)
    requires |flat| == n * m && i < n
    ensures |r| == m
    ensures forall j :: 0 <= j < m ==> Coord(n, m, i, j) < |flat| && r[j] == flat[Coord(n, m, i, j)]
  {
    seq(m, j requires 0 <= j < m => flat[Coord(n, m, i, j)])
  }

  /** The position of row i, column j. */
  function Coord(n: nat, m: nat, i: nat, j: nat): (k: nat)
    requires i < n && j < m
    ensures k == j * n + i < n * m
  {
    RowFits(m, n, j);
    j * n + i
  }

  function ColumnMajor(flat: seq<Fp>, n: nat, m: nat): (r: seq<seq<Fp>>)
    requires |flat| == n * m
    ensures |r| == n && forall i :: 0 <= i < n ==> r[i] == MajorRow(flat, n, m, i)
  {
    seq(n, i requires 0 <= i < n => MajorRow(flat, n, m, i))
  }

  /** tensor_prime: the first value decides the highest bit. */
  function TensorPrime(values: seq<Fp>): (r: seq<Fp>)
    ensures |r| == Pow2(|values|)
  {
    if values == [] then [1] else
      var tail := TensorPrime(values[1..]);
      Scale(Sub(1, values[0]), tail) + Scale(values[0], tail)
  }

  /** It is the eq-table of the reversed values. */
  lemma {:induction false} TensorPrimeIsEqTable(values: seq<Fp>)
    ensures TensorPrime(values) == EqTable(Rev(values))
  {
    if values == [] {
      EqTableEmpty();
    } else {
      var t, v, p := Rev(values[1..]), values[0], Pow2(|values| - 1);
      TensorPrimeIsEqTable(values[1..]);
      forall j | 0 <= j < p
        ensures TensorPrime(values)[j] == Mul(EqTable(t)[j], Sub(1, v))
        ensures TensorPrime(values)[p + j] == Mul(EqTable(t)[j], v)
      {
        ScaleIndex(Sub(1, v), EqTable(t), j);
        ScaleIndex(v, EqTable(t), j);
        Commutes(EqTable(t)[j], Sub(1, v));
        Commutes(EqTable(t)[j], v);
      }
      EqTablePush(t, v, TensorPrime(values));
    }
  }

  /** The two tensors of open and check. */
  function Tensors(point: seq<Fp>): (seq<Fp>, seq<Fp>) {
    var n, rev := |point|, Rev(point);
    (TensorPrime(rev[n / 2..]), TensorPrime(rev[..n / 2]))
  }

  lemma TensorsAreEqTables(point: seq<Fp>)
    requires |point| % 2 == 0
    ensures Tensors(point) == (EqTable(point[..|point| / 2]), EqTable(point[|point| / 2..]))
  {
    var n, h := |point|, |point| / 2;
    var low, high := point[..h], point[h..];
    assert point == low + high;
    RevAppend(low, high);
    assert Rev(point)[n / 2..] == Rev(low) && Rev(point)[..n / 2] == Rev(high);
    TensorPrimeIsEqTable(Rev(low));
    TensorPrimeIsEqTable(Rev(high));
    RevRev(low);
    RevRev(high);
  }

  // ----- commit

  /** pedersen_commit, plus the blinding; None where the assertion fails. */
  function CommitRow(key: Key, row: seq<Fp>, r: Fp): Option<Fp> {
    if |key.comKey| != |row| then None else Some(Add(Inner(key.comKey, row), Mul(key.h, r)))
  }

  function CommitRows(key: Key, rows: seq<seq<Fp>>, rands: seq<Fp>): (r: Option<seq<Fp>>)
    requires |rows| == |rands|
    ensures r.Some? ==> |r.value| == |rows|
  {
    if rows == [] then Some([]) else
      match CommitRow(key, rows[0], rands[0])
      case None => None
      case Some(c) =>
        match CommitRows(key, rows[1..], rands[1..])
        case None => None
        case Some(rest) => Some([c] + rest)
  }

  /** commit for one polynomial in n variables, given by its values. */
  function CommitOne(key: Key, f: seq<Fp>, n: nat, rands: seq<Fp>): Outcome<(seq<Fp>, State)>
    requires |f| == Pow2(n)
  {
    if n % 2 == 1 || n > |key.comKey| then Err
    else if |rands| != Pow2(n / 2) then Panic
    else
      SquareHalves(n);
      var rows := ColumnMajor(f, Pow2(n / 2), Pow2(n / 2));
      match CommitRows(key, rows, rands)
      case None => Panic
      case Some(coms) => Ok((coms, State(rands, Matrix(Pow2(n / 2), Pow2(n / 2), rows))))
  }

  lemma SquareHalves(n: nat)
    requires n % 2 == 0
    ensures Pow2(n) == Pow2(n / 2) * Pow2(n / 2)
  {
    Pow2Add(n / 2, n / 2);
  }

  // ----- open

  /** The transcript up to the challenge. */
  function Absorbed(tr: Transcript, key: Key, rows: seq<Fp>, point: seq<Fp>, comEval: Fp, comD: Fp,
                    comB: Fp): Transcript {
    tr + [AbsorbedKey(key), AbsorbedRows(rows), AbsorbedPoint(point), AbsorbedElement(comEval), AbsorbedElement(comD),
          AbsorbedElement(comB)]
  }

  /** scalar_by_vector and vector_sum: d + c * v. */
  function ChallengeVector(d: seq<Fp>, c: Fp, v: seq<Fp>): seq<Fp>
    requires |d| == |v|
  {
    Plus(d, Scale(c, v))
  }

  /** open for one polynomial, and the transcript afterwards. */
  function OpenOne(key: Key, coms: seq<Fp>, st: State, point: seq<Fp>, coins: Coins, oracle: Oracle, tr: Transcript):
    (Proof, Transcript)
    requires Shaped(st.mat) && |key.comKey| == st.mat.m == |coins.d| && key.comKey != []
  {
    var (l, r) := Tensors(point);
    var lt := MatRowMul(st.mat, l);
    var rLt := Inner(l, st.randomness);
    var eval := Inner(lt, r);
    var comEval := Add(Mul(key.comKey[0], eval), Mul(key.h, coins.rEval));
    var b := Inner(r, coins.d);
    var comD := Add(Inner(key.comKey, coins.d), Mul(key.h, coins.rD));
    var comB := Add(Mul(key.comKey[0], b), Mul(key.h, coins.rB));
    var tr' := Absorbed(tr, key, coms, point, comEval, comD, comB);
    var c := oracle(tr');
    (Proof(comEval, comD, comB, ChallengeVector(coins.d, c, lt),
           Add(Mul(c, rLt), coins.rD), Add(Mul(c, coins.rEval), coins.rB)),
     tr' + [Squeezed])
  }

  // ----- check

  /** check for one commitment, and the transcript afterwards; the claimed value plays no part. */
  function CheckOne(key: Key, coms: seq<Fp>, point: seq<Fp>, proof: Proof, oracle: Oracle, tr: Transcript):
    (Outcome<bool>, Transcript)
  {
    if |coms| != Pow2(|point| / 2) then (Err, tr)
    else if key.comKey == [] then (Panic, tr)
    else
      var (l, r) := Tensors(point);
      var tr' := Absorbed(tr, key, coms, point, proof.comEval, proof.comD, proof.comB);
      var c := oracle(tr');
      if Add(Mul(key.comKey[0], Inner(r, proof.z)), Mul(key.h, proof.zB)) != Add(Mul(proof.comEval, c), proof.comB)
      then (Ok(false), tr' + [Squeezed])
      else if |key.comKey| != |proof.z| then (Panic, tr' + [Squeezed])
      else
        var tPrime := Inner(coms, l);
        (Ok(Add(Inner(key.comKey, proof.z), Mul(key.h, proof.zD)) == Add(Mul(tPrime, c), proof.comD)), tr' + [Squeezed])
  }

  /** check: stops at the first commitment that is not accepted. */
  method Check(key: Key, comms: seq<seq<Fp>>, point: seq<Fp>, proofs: seq<Proof>, oracle: Oracle, tr0: Transcript)
    returns (r: Outcome<(bool, Transcript)>)
    ensures r == if |point| % 2 == 1 then Err else CheckFrom(key, comms, point, proofs, oracle, tr0)
  {
    if |point| % 2 == 1 {
      return Err;
    }
    var tr := tr0;
    for i := 0 to Decided(|comms|, |proofs|)
      invariant CheckFrom(key, comms[i..], point, proofs[i..], oracle, tr)
                == CheckFrom(key, comms, point, proofs, oracle, tr0)
    {
      var (outcome, tr') := CheckOne(key, comms[i], point, proofs[i], oracle, tr);
      assert comms[i..][1..] == comms[i + 1..] && proofs[i..][1..] == proofs[i + 1..];
      match outcome {
        case Err => return Err;
        case Panic => return Panic;
        case Ok(accepted) =>
          if !accepted { return Ok((false, tr')); }
      }
      tr := tr';
    }
    return Ok((true, tr));
  }

  function CheckFrom(key: Key, comms: seq<seq<Fp>>, point: seq<Fp>, proofs: seq<Proof>, oracle: Oracle, tr: Transcript):
    Outcome<(bool, Transcript)>
    decreases |comms|
  {
    if comms == [] || proofs == [] then Ok((true, tr)) else
      var (outcome, tr') := CheckOne(key, comms[0], point, proofs[0], oracle, tr);
      match outcome
      case Err => Err
      case Panic => Panic
      case Ok(accepted) =>
        if accepted then CheckFrom(key, comms[1..], point, proofs[1..], oracle, tr') else Ok((false, tr'))
  }

  /** How many commitments have a proof. */
  function Decided(comms: nat, proofs: nat): (n: nat)
    ensures n <= comms && n <= proofs && (n == comms || n == proofs)
  {
    if comms < proofs then comms else proofs
  }

  /** The transcript after the first i checks. */
  function After(key: Key, comms: seq<seq<Fp>>, point: seq<Fp>, proofs: seq<Proof>, oracle: Oracle, tr: Transcript,
                 i: nat): Transcript
    requires i <= Decided(|comms|, |proofs|)
  {
    if i == 0 then tr
    else CheckOne(key, comms[i - 1], point, proofs[i - 1], oracle,
                  After(key, comms, point, proofs, oracle, tr, i - 1)).1
  }

  lemma {:induction false} AfterFirst(key: Key, comms: seq<seq<Fp>>, point: seq<Fp>, proofs: seq<Proof>,
                                      oracle: Oracle, tr: Transcript, i: nat)
    requires i + 1 <= Decided(|comms|, |proofs|)
    ensures After(key, comms, point, proofs, oracle, tr, i + 1)
            == After(key, comms[1..], point, proofs[1..], oracle,
                     CheckOne(key, comms[0], point, proofs[0], oracle, tr).1, i)
  {
    if i > 0 { AfterFirst(key, comms, point, proofs, oracle, tr, i - 1); }
  }

  ghost predicate AcceptedAt(key: Key, comms: seq<seq<Fp>>, point: seq<Fp>, proofs: seq<Proof>, oracle: Oracle,
                             tr: Transcript, i: nat)
    requires i < Decided(|comms|, |proofs|)
  {
    CheckOne(key, comms[i], point, proofs[i], oracle, After(key, comms, point, proofs, oracle, tr, i)).0 == Ok(true)
  }

  /** Exactly the commitments that have a proof are decided: the others do not matter, and without
      proofs any commitments are accepted. */
  lemma {:induction false} DecidesExactly(key: Key, comms: seq<seq<Fp>>, point: seq<Fp>, proofs: seq<Proof>,
                                          oracle: Oracle, tr: Transcript)
    ensures var r := CheckFrom(key, comms, point, proofs, oracle, tr);
            r.Ok? && r.value.0
            <==> forall i :: 0 <= i < Decided(|comms|, |proofs|) ==>
                               AcceptedAt(key, comms, point, proofs, oracle, tr, i)
    decreases |comms|
  {
    if comms != [] && proofs != [] {
      var tr' := CheckOne(key, comms[0], point, proofs[0], oracle, tr).1;
      DecidesExactly(key, comms[1..], point, proofs[1..], oracle, tr');
      forall i | 0 <= i < Decided(|comms|, |proofs|) - 1
        ensures AcceptedAt(key, comms, point, proofs, oracle, tr, i + 1)
                <==> AcceptedAt(key, comms[1..], point, proofs[1..], oracle, tr', i)
      {
        AfterFirst(key, comms, point, proofs, oracle, tr, i);
      }
      ShiftedForall(key, comms, point, proofs, oracle, tr, tr');
    }
  }

  lemma {:induction false} ShiftedForall(key: Key, comms: seq<seq<Fp>>, point: seq<Fp>, proofs: seq<Proof>,
                                         oracle: Oracle, tr: Transcript, tr': Transcript)
    requires comms != [] && proofs != []
    requires forall i :: 0 <= i < Decided(|comms|, |proofs|) - 1 ==>
               (AcceptedAt(key, comms, point, proofs, oracle, tr, i + 1)
                <==> AcceptedAt(key, comms[1..], point, proofs[1..], oracle, tr', i))
    ensures (forall i :: 0 <= i < Decided(|comms|, |proofs|) ==> AcceptedAt(key, comms, point, proofs, oracle, tr, i))
            <==> AcceptedAt(key, comms, point, proofs, oracle, tr, 0)
                 && forall i :: 0 <= i < Decided(|comms[1..]|, |proofs[1..]|) ==>
                      AcceptedAt(key, comms[1..], point, proofs[1..], oracle, tr', i)
  {
    if AcceptedAt(key, comms, point, proofs, oracle, tr, 0)
       && forall i :: 0 <= i < Decided(|comms[1..]|, |proofs[1..]|) ==>
            AcceptedAt(key, comms[1..], point, proofs[1..], oracle, tr', i)
    {
      forall i | 0 <= i < Decided(|comms|, |proofs|) ensures AcceptedAt(key, comms, point, proofs, oracle, tr, i) {
        if i > 0 { assert AcceptedAt(key, comms[1..], point, proofs[1..], oracle, tr', i - 1); }
      }
    }
    if forall i :: 0 <= i < Decided(|comms|, |proofs|) ==> AcceptedAt(key, comms, point, proofs, oracle, tr, i) {
      forall i | 0 <= i < Decided(|comms|, |proofs|) - 1
        ensures AcceptedAt(key, comms[1..], point, proofs[1..], oracle, tr', i)
      {
        assert AcceptedAt(key, comms, point, proofs, oracle, tr, i + 1);
      }
    }
  }

  // ----- honest openings

  /** The commitments to the rows combine to a commitment to the combined row. */
  lemma {:induction false} RowsCombine(key: Key, rows: seq<seq<Fp>>, rands: seq<Fp>, l: seq<Fp>, m: nat)
    requires |rows| == |rands| == |l| && CommitRows(key, rows, rands).Some?
    requires forall i :: 0 <= i < |rows| ==> |rows[i]| == m
    ensures Inner(CommitRows(key, rows, rands).value, l)
            == Add(Inner(key.comKey, Combined(l, rows, m)), Mul(key.h, Inner(l, rands)))
  {
    if rows == [] {
      InnerZeros(m, key.comKey);
      Units(key.h);
      Units(0);
    } else {
      assert forall i :: 0 <= i < |rows| - 1 ==> rows[1..][i] == rows[i + 1];
      RowsCombine(key, rows[1..], rands[1..], l[1..], m);
      var c, rest := CommitRow(key, rows[0], rands[0]).value, CommitRows(key, rows[1..], rands[1..]).value;
      assert ([c] + rest)[1..] == rest;
      KeyMix(key.comKey, Combined(l[1..], rows[1..], m), l[0], rows[0]);
      RowsStep(key.h, Inner(key.comKey, rows[0]), rands[0], l[0], Inner(key.comKey, Combined(l[1..], rows[1..], m)),
               Inner(l[1..], rands[1..]));
    }
  }

  lemma KeyMix(key: seq<Fp>, u: seq<Fp>, c: Fp, w: seq<Fp>)
    requires |u| == |w|
    ensures Inner(key, SparseMatrices.Mix(u, c, w)) == Add(Inner(key, u), Mul(c, Inner(key, w)))
  {
    InnerMix(u, c, w, key);
    InnerCommutes(key, SparseMatrices.Mix(u, c, w));
    InnerCommutes(key, u);
    InnerCommutes(key, w);
  }

  lemma RowsStep(h: Fp, k: Fp, r: Fp, l: Fp, sum: Fp, rs: Fp)
    ensures Add(Mul(Add(k, Mul(h, r)), l), Add(sum, Mul(h, rs))) == Add(Add(sum, Mul(l, k)), Mul(h, Add(Mul(l, r), rs)))
  {
    assert Mul(Add(k, Mul(h, r)), l) == Add(Mul(l, k), Mul(h, Mul(l, r))) by { RingLaws(); }
    Distributes(h, Mul(l, r), rs);
    RowsRegroup(Mul(l, k), Mul(h, Mul(l, r)), sum, Mul(h, rs));
  }

  lemma RowsRegroup(a: Fp, b: Fp, c: Fp, d: Fp)
    ensures Add(Add(a, b), Add(c, d)) == Add(Add(c, a), Add(b, d))
  {
    RingLaws();
  }

  /** A column of the column-major matrix is a run of the values. */
  lemma ColumnIsRun(f: seq<Fp>, n: nat, j: nat)
    requires |f| == n * n && j < n
    ensures Column(Matrix(n, n, ColumnMajor(f, n, n)), j) == Row(f, n, n, j)
  {
    forall i | 0 <= i < n ensures Column(Matrix(n, n, ColumnMajor(f, n, n)), j)[i] == Row(f, n, n, j)[i] {
      assert Coord(n, n, i, j) == j * n + i;
    }
  }

  /** L * M * R is the value of the multilinear extension. */
  lemma MatrixValue(f: seq<Fp>, low: seq<Fp>, high: seq<Fp>)
    requires |low| == |high| && |f| == Pow2(|low|) * Pow2(|low|) == Pow2(|low + high|)
    ensures var mat := Matrix(Pow2(|low|), Pow2(|low|), ColumnMajor(f, Pow2(|low|), Pow2(|low|)));
            Inner(MatRowMul(mat, EqTable(low)), EqTable(high)) == Value(f, low + high)
  {
    var n := Pow2(|low|);
    var mat := Matrix(n, n, ColumnMajor(f, n, n));
    var lt, values := MatRowMul(mat, EqTable(low)), RowValues(f, n, low);
    forall j | 0 <= j < n ensures lt[j] == values[j] {
      ColumnIsRun(f, n, j);
      TableEvaluates(low, Row(f, n, n, j));
    }
    assert lt == values;
    InnerCommutes(lt, EqTable(high));
    TableEvaluates(high, values);
    ValueOfRows(f, n, low, high);
  }

  lemma CommittedState(key: Key, f: seq<Fp>, n: nat, rands: seq<Fp>, coms: seq<Fp>, st: State)
    requires |f| == Pow2(n) && CommitOne(key, f, n, rands) == Ok((coms, st))
    ensures n % 2 == 0 && |f| == Pow2(n / 2) * Pow2(n / 2) && Shaped(st.mat)
    ensures st == State(rands, Matrix(Pow2(n / 2), Pow2(n / 2), ColumnMajor(f, Pow2(n / 2), Pow2(n / 2))))
    ensures |rands| == Pow2(n / 2) == |coms| && |key.comKey| == Pow2(n / 2)
    ensures CommitRows(key, st.mat.entries, rands) == Some(coms)
  {
    SquareHalves(n);
    KeyLength(key, ColumnMajor(f, Pow2(n / 2), Pow2(n / 2)), rands);
  }

  lemma KeyLength(key: Key, rows: seq<seq<Fp>>, rands: seq<Fp>)
    requires |rows| == |rands| > 0 && CommitRows(key, rows, rands).Some?
    ensures |key.comKey| == |rows[0]|
  {
  }

  /** The evaluation that open commits to is the value of the polynomial at the point. */
  lemma OpenedValue(key: Key, f: seq<Fp>, point: seq<Fp>, rands: seq<Fp>, coms: seq<Fp>, st: State)
    requires |f| == Pow2(|point|) && CommitOne(key, f, |point|, rands) == Ok((coms, st))
    ensures Shaped(st.mat) && Inner(MatRowMul(st.mat, Tensors(point).0), Tensors(point).1) == Value(f, point)
  {
    CommittedState(key, f, |point|, rands, coms, st);
    var low, high := point[..|point| / 2], point[|point| / 2..];
    assert Tensors(point) == (EqTable(low), EqTable(high)) by { TensorsAreEqTables(point); }
    assert point == low + high;
    HalvesValue(f, low, high, st.mat);
  }

  lemma HalvesValue(f: seq<Fp>, low: seq<Fp>, high: seq<Fp>, mat: Matrix)
    requires |low| == |high| && |f| == Pow2(|low|) * Pow2(|low|) == Pow2(|low + high|)
    requires mat == Matrix(Pow2(|low|), Pow2(|low|), ColumnMajor(f, Pow2(|low|), Pow2(|low|)))
    ensures Shaped(mat) && Inner(MatRowMul(mat, EqTable(low)), EqTable(high)) == Value(f, low + high)
  {
    MatrixValue(f, low, high);
  }

  lemma ChallengeInner(a: seq<Fp>, d: seq<Fp>, c: Fp, v: seq<Fp>)
    requires |d| == |v|
    ensures Inner(a, ChallengeVector(d, c, v)) == Add(Inner(a, d), Mul(c, Inner(a, v)))
  {
    InnerPlusRight(d, Scale(c, v), a);
    InnerScale(c, v, a);
    InnerCommutes(v, a);
  }

  /** Both verifier equations have this shape: key and blinding part of d + c * v against the
      commitments to v and d. */
  lemma ResponseOpens(k: Fp, kd: Fp, kv: Fp, h: Fp, c: Fp, rv: Fp, rd: Fp)
    requires k == Add(kd, Mul(c, kv))
    ensures Add(k, Mul(h, Add(Mul(c, rv), rd))) == Add(Mul(Add(kv, Mul(h, rv)), c), Add(kd, Mul(h, rd)))
  {
    assert Mul(h, Add(Mul(c, rv), rd)) == Add(Mul(h, Mul(c, rv)), Mul(h, rd)) by { RingLaws(); }
    assert Mul(Add(kv, Mul(h, rv)), c) == Add(Mul(c, kv), Mul(h, Mul(c, rv))) by { RingLaws(); }
    ResponseRegroup(kd, Mul(c, kv), Mul(h, Mul(c, rv)), Mul(h, rd));
  }

  lemma ResponseRegroup(a: Fp, b: Fp, c: Fp, d: Fp)
    ensures Add(Add(a, b), Add(c, d)) == Add(Add(b, c), Add(a, d))
  {
    RingLaws();
  }

  /** An honest opening is accepted, leaves the two sponges in step, and its commitment opens to
      the value of the polynomial at the point. */
  lemma HonestOpening(key: Key, f: seq<Fp>, point: seq<Fp>, rands: seq<Fp>, coms: seq<Fp>, st: State, coins: Coins,
                      oracle: Oracle, tr: Transcript)
    requires |f| == Pow2(|point|) && CommitOne(key, f, |point|, rands) == Ok((coms, st))
    requires |coins.d| == |key.comKey|
    ensures Shaped(st.mat) && |key.comKey| == st.mat.m && key.comKey != []
    ensures var (proof, tr') := OpenOne(key, coms, st, point, coins, oracle, tr);
            && CheckOne(key, coms, point, proof, oracle, tr) == (Ok(true), tr')
            && proof.comEval == Add(Mul(key.comKey[0], Value(f, point)), Mul(key.h, coins.rEval))
  {
    CommittedState(key, f, |point|, rands, coms, st);
    TensorsAreEqTables(point);
    OpenedValue(key, f, point, rands, coms, st);
    var (l, r) := Tensors(point);
    var lt, rLt := MatRowMul(st.mat, l), Inner(l, rands);
    var (proof, tr') := OpenOne(key, coms, st, point, coins, oracle, tr);
    var c := oracle(Absorbed(tr, key, coms, point, proof.comEval, proof.comD, proof.comB));
    FirstEquation(key, r, lt, coins, c);
    assert Inner(coms, l) == Add(Inner(key.comKey, lt), Mul(key.h, rLt)) by {
      RowMulIsCombined(st.mat, l);
      RowsCombine(key, st.mat.entries, rands, l, st.mat.m);
    }
    ChallengeInner(key.comKey, coins.d, c, lt);
    ResponseOpens(Inner(key.comKey, proof.z), Inner(key.comKey, coins.d), Inner(key.comKey, lt), key.h, c, rLt,
                  coins.rD);
  }

  /** The equation for the evaluation. */
  lemma FirstEquation(key: Key, r: seq<Fp>, lt: seq<Fp>, coins: Coins, c: Fp)
    requires key.comKey != [] && |coins.d| == |lt|
    ensures Add(Mul(key.comKey[0], Inner(r, ChallengeVector(coins.d, c, lt))),
                Mul(key.h, Add(Mul(c, coins.rEval), coins.rB)))
            == Add(Mul(Add(Mul(key.comKey[0], Inner(lt, r)), Mul(key.h, coins.rEval)), c),
                   Add(Mul(key.comKey[0], Inner(r, coins.d)), Mul(key.h, coins.rB)))
  {
    var k, a, b := key.comKey[0], Inner(r, coins.d), Inner(lt, r);
    ChallengeInner(r, coins.d, c, lt);
    InnerCommutes(r, lt);
    Distributes(k, a, Mul(c, b));
    MulSwaps(k, c, b);
    ResponseOpens(Mul(k, Add(a, Mul(c, b))), Mul(k, a), Mul(k, b), key.h, c, coins.rEval, coins.rB);
  }

  // ----- several polynomials

  /** What commit produced for one polynomial, and the coins with which it is opened. */
  datatype Committed = Committed(f: seq<Fp>, rands: seq<Fp>, coms: seq<Fp>, st: State, coins: Coins)

  ghost predicate Honest(key: Key, point: seq<Fp>, cs: seq<Committed>) {
    forall i :: 0 <= i < |cs| ==> HonestOne(key, point, cs[i])
  }

  ghost predicate HonestOne(key: Key, point: seq<Fp>, c: Committed) {
    && |c.f| == Pow2(|point|) && CommitOne(key, c.f, |point|, c.rands) == Ok((c.coms, c.st))
    && |c.coins.d| == |key.comKey| == c.st.mat.m && key.comKey != [] && Shaped(c.st.mat)
  }

  /** The proofs of open, one after the other, and the transcript afterwards. */
  ghost function OpenFrom(key: Key, cs: seq<Committed>, point: seq<Fp>, oracle: Oracle, tr: Transcript):
    (seq<Proof>, Transcript)
    requires Honest(key, point, cs)
    decreases |cs|
  {
    if cs == [] then ([], tr) else
      assert HonestOne(key, point, cs[0]);
      var (proof, tr') := OpenOne(key, cs[0].coms, cs[0].st, point, cs[0].coins, oracle, tr);
      assert forall i :: 0 <= i < |cs| - 1 ==> cs[1..][i] == cs[i + 1];
      var (rest, last) := OpenFrom(key, cs[1..], point, oracle, tr');
      ([proof] + rest, last)
  }

  function Comms(cs: seq<Committed>): seq<seq<Fp>> {
    if cs == [] then [] else [cs[0].coms] + Comms(cs[1..])
  }

  lemma {:induction false} CheckFirst(key: Key, coms: seq<Fp>, comms: seq<seq<Fp>>, point: seq<Fp>, proof: Proof,
                                      proofs: seq<Proof>, oracle: Oracle, tr: Transcript, tr': Transcript)
    requires CheckOne(key, coms, point, proof, oracle, tr) == (Ok(true), tr')
    ensures CheckFrom(key, [coms] + comms, point, [proof] + proofs, oracle, tr)
            == CheckFrom(key, comms, point, proofs, oracle, tr')
  {
    assert ([proof] + proofs)[1..] == proofs && ([coms] + comms)[1..] == comms;
  }

  /** Completeness for any list of polynomials in an even number of variables; prover and verifier
      end in step. */
  lemma {:induction false} Completeness(key: Key, cs: seq<Committed>, point: seq<Fp>, oracle: Oracle, tr: Transcript)
    requires Honest(key, point, cs)
    ensures var (proofs, tr') := OpenFrom(key, cs, point, oracle, tr);
            CheckFrom(key, Comms(cs), point, proofs, oracle, tr) == Ok((true, tr'))
    decreases |cs|
  {
    if cs != [] {
      var c := cs[0];
      assert HonestOne(key, point, c);
      HonestOpening(key, c.f, point, c.rands, c.coms, c.st, c.coins, oracle, tr);
      var (proof, tr') := OpenOne(key, c.coms, c.st, point, c.coins, oracle, tr);
      assert forall i :: 0 <= i < |cs| - 1 ==> cs[1..][i] == cs[i + 1];
      Completeness(key, cs[1..], point, oracle, tr');
      CheckFirst(key, c.coms, Comms(cs[1..]), point, proof, OpenFrom(key, cs[1..], point, oracle, tr').0,
                 oracle, tr, tr');
    }
  }
}
