/** The polynomial commitment scheme from the inner-product argument (ipa_pc/mod.rs):
    trimming, committing, opening and checking, with degree bounds and hiding. */
module InnerProductPC {
  import opened PrimeField
  import opened Numbers
  import opened Vectors
  import opened Polynomials
  import opened IpaRounds

  datatype Key = Key(commKey: seq<Fp>, h: Fp, s: Fp) {
    function SupportedDegree(): int {
      |commKey| - 1
    }
  }

  /** A polynomial without zero coefficients at the end. */
  type Poly = f: seq<Fp> | f == [] || f[|f| - 1] != 0

  function Degree(f: Poly): nat {
    if f == [] then 0 else |f| - 1
  }

  datatype LabeledPolynomial = LabeledPolynomial(polynomial: Poly, degreeBound: Option<nat>, hiding: bool)
  datatype Commitment = Commitment(comm: Fp, shiftedComm: Option<Fp>)
  datatype LabeledCommitment = LabeledCommitment(commitment: Commitment, degreeBound: Option<nat>)
  datatype Randomness = Randomness(rand: Fp, shiftedRand: Option<Fp>)
  datatype Proof = Proof(lVec: seq<Fp>, rVec: seq<Fp>, finalCommKey: Fp, c: Fp, hidingComm: Option<Fp>,
                         rand: Option<Fp>)

  /** The field elements squeezed from the sponge, in order. */
  type Squeezes = nat -> Fp

  // ----- key sizes

  /** trim: the key is cut to the next power of two; None where the source reports that the
      parameters are too small. */
  function Trim(pp: Key, supportedDegree: nat): (r: Option<Key>)
    ensures r.Some? ==> |r.value.commKey| == Pow2(Log2(supportedDegree + 1)) >= supportedDegree + 1
    ensures r.Some? ==> r.value.commKey <= pp.commKey && r.value.h == pp.h && r.value.s == pp.s
    ensures r.None? <==> |pp.commKey| < Pow2(Log2(supportedDegree + 1))
  {
    Log2Covers(supportedDegree + 1);
    var size := Pow2(Log2(supportedDegree + 1));
    if size > |pp.commKey| then None else Some(pp.(commKey := pp.commKey[..size]))
  }

  // ----- committing

  function CmCommit(key: seq<Fp>, scalars: seq<Fp>, s: Fp, randomizer: Option<Fp>): Fp {
    var comm := Inner(key, scalars);
    if randomizer.Some? then Add(comm, Mul(s, randomizer.value)) else comm
  }

  /** check_degrees_and_bounds. */
  predicate DegreesOk(supported: int, p: LabeledPolynomial) {
    && Degree(p.polynomial) <= supported
    && (p.degreeBound.Some? ==> Degree(p.polynomial) <= p.degreeBound.value <= supported)
  }

  /** What commit produces for one polynomial and the coins its blinding would use. */
  function CommitOne(ck: Key, p: LabeledPolynomial, coin: (Fp, Fp)): (LabeledCommitment, Randomness)
    requires DegreesOk(ck.SupportedDegree(), p)
  {
    var state := if !p.hiding then Randomness(0, None)
                 else Randomness(coin.0, if p.degreeBound.Some? then Some(coin.1) else None);
    var comm := CmCommit(ck.commKey[..Degree(p.polynomial) + 1], p.polynomial, ck.s, Some(state.rand));
    var shiftedComm :=
      if p.degreeBound.None? then None
      else Some(CmCommit(ck.commKey[ck.SupportedDegree() - p.degreeBound.value..], p.polynomial,
                         ck.s, state.shiftedRand));
    (LabeledCommitment(Commitment(comm, shiftedComm), p.degreeBound), state)
  }

  /** commit; None where the source returns an error. */
  method Commit(ck: Key, polynomials: seq<LabeledPolynomial>, coins: seq<(Fp, Fp)>)
    returns (r: Option<(seq<LabeledCommitment>, seq<Randomness>)>)
    requires |coins| == |polynomials|
    ensures r.None? <==> exists i :: 0 <= i < |polynomials|
                                     && var f, b := polynomials[i].polynomial, polynomials[i].degreeBound;
                                     Degree(f) > ck.SupportedDegree()
                                     || (b.Some? && (Degree(f) > b.value || b.value > ck.SupportedDegree()))
    ensures r.Some? ==> Committed(ck, polynomials, coins, r.value.0, r.value.1)
  {
    var comms: seq<LabeledCommitment>, states: seq<Randomness> := [], [];
    for i := 0 to |polynomials|
      invariant |comms| == |states| == i
      invariant forall j :: 0 <= j < i ==> DegreesOk(ck.SupportedDegree(), polynomials[j])
      invariant forall j :: 0 <= j < i ==> (comms[j], states[j]) == CommitOne(ck, polynomials[j], coins[j])
    {
      if !DegreesOk(ck.SupportedDegree(), polynomials[i]) {
        return None;
      }
      var (comm, state) := CommitOne(ck, polynomials[i], coins[i]);
      comms := comms + [comm];
      states := states + [state];
    }
    return Some((comms, states));
  }

  ghost predicate Committed(ck: Key, polynomials: seq<LabeledPolynomial>, coins: seq<(Fp, Fp)>,
                            comms: seq<LabeledCommitment>, states: seq<Randomness>) {
    && |polynomials| == |coins| == |comms| == |states|
    && (forall i :: 0 <= i < |polynomials| ==> DegreesOk(ck.SupportedDegree(), polynomials[i]))
    && (forall i :: 0 <= i < |polynomials| ==> (comms[i], states[i]) == CommitOne(ck, polynomials[i], coins[i]))
  }

  // ----- combining the polynomials of one query

  /** shift_polynomial. */
  function ShiftPolynomial(supported: int, p: seq<Fp>, degreeBound: nat): seq<Fp>
    requires degreeBound <= supported
  {
    if p == [] then [] else Zeros(supported - degreeBound) + p
  }

  /** The combination of the first n polynomials; squeezes 2i and 2i + 1 belong to the i-th. */
  function CombinedPolynomial(supported: int, ps: seq<LabeledPolynomial>, xi: Squeezes, n: nat): seq<Fp>
    requires n <= |ps| && forall i :: 0 <= i < n ==> DegreesOk(supported, ps[i])
  {
    if n == 0 then [] else
      assert DegreesOk(supported, ps[n - 1]);
      PolynomialTerm(supported, CombinedPolynomial(supported, ps, xi, n - 1), ps[n - 1], xi(2 * n - 2), xi(2 * n - 1))
  }

  function PolynomialTerm(supported: int, sum: seq<Fp>, p: LabeledPolynomial, x: Fp, y: Fp): seq<Fp>
    requires DegreesOk(supported, p)
  {
    var sum' := Plus(sum, Scale(x, p.polynomial));
    if p.degreeBound.None? then sum'
    else Plus(sum', Scale(y, ShiftPolynomial(supported, p.polynomial, p.degreeBound.value)))
  }

  function CombinedRand(ps: seq<LabeledPolynomial>, states: seq<Randomness>, xi: Squeezes, n: nat): Fp
    requires n <= |ps| == |states|
    requires forall i :: 0 <= i < |ps| && ps[i].hiding && ps[i].degreeBound.Some? ==> states[i].shiftedRand.Some?
  {
    if n == 0 then 0
    else RandTerm(CombinedRand(ps, states, xi, n - 1), ps[n - 1], states[n - 1], xi(2 * n - 2), xi(2 * n - 1))
  }

  function RandTerm(sum: Fp, p: LabeledPolynomial, state: Randomness, x: Fp, y: Fp): Fp
    requires p.hiding && p.degreeBound.Some? ==> state.shiftedRand.Some?
  {
    if !p.hiding then sum else
      var sum' := Add(sum, Mul(x, state.rand));
      if p.degreeBound.None? then sum' else Add(sum', Mul(y, state.shiftedRand.value))
  }

  /** Every commitment carries a shifted one exactly when it has a degree bound. */
  predicate ShiftsPresent(comms: seq<LabeledCommitment>) {
    forall i :: 0 <= i < |comms| ==> (comms[i].degreeBound.Some? <==> comms[i].commitment.shiftedComm.Some?)
  }

  function CombinedCommitment(comms: seq<LabeledCommitment>, xi: Squeezes, n: nat): Fp
    requires n <= |comms| && ShiftsPresent(comms)
  {
    if n == 0 then 0 else
      CommitmentTerm(CombinedCommitment(comms, xi, n - 1), comms[n - 1].commitment, xi(2 * n - 2), xi(2 * n - 1))
  }

  function CommitmentTerm(sum: Fp, c: Commitment, x: Fp, y: Fp): Fp {
    var sum' := Add(sum, Mul(c.comm, x));
    if c.shiftedComm.None? then sum' else Add(sum', Mul(c.shiftedComm.value, y))
  }

  predicate BoundsFit(supported: int, comms: seq<LabeledCommitment>) {
    forall i :: 0 <= i < |comms| && comms[i].degreeBound.Some? ==> comms[i].degreeBound.value <= supported
  }

  function CombinedValue(supported: int, comms: seq<LabeledCommitment>, values: seq<Fp>, point: Fp, xi: Squeezes,
                         n: nat): Fp
    requires n <= |comms| && n <= |values| && BoundsFit(supported, comms)
  {
    if n == 0 then 0 else
      var sum := Add(CombinedValue(supported, comms, values, point, xi, n - 1), Mul(xi(2 * n - 2), values[n - 1]));
      match comms[n - 1].degreeBound
      case None => sum
      case Some(bound) => Add(sum, Mul(Mul(xi(2 * n - 1), values[n - 1]), Pow(point, supported - bound)))
  }

  // ----- what the combinations have to do with each other

  lemma ShiftInner(key: seq<Fp>, p: seq<Fp>, d: nat)
    requires d + |p| <= |key|
    ensures Inner(key, Zeros(d) + p) == Inner(key[d..], p)
  {
    assert key == key[..d] + key[d..];
    InnerAppend(key[..d], key[d..], Zeros(d), p);
    InnerZeros(d, key[..d]);
    Units(Inner(key[d..], p));
  }

  /** One commitment: the polynomial, or the shifted one, under the key, plus its blinding. */
  lemma CommitOneOpens(ck: Key, p: LabeledPolynomial, coin: (Fp, Fp))
    requires DegreesOk(ck.SupportedDegree(), p)
    ensures var (c, r) := CommitOne(ck, p, coin);
            && c.degreeBound == p.degreeBound && (p.degreeBound.Some? <==> c.commitment.shiftedComm.Some?)
            && r.rand == (if p.hiding then coin.0 else 0)
            && r.shiftedRand == (if p.hiding && p.degreeBound.Some? then Some(coin.1) else None)
            && c.commitment.comm == Add(Inner(ck.commKey, p.polynomial), Mul(ck.s, r.rand))
            && (p.degreeBound.Some? ==>
                  c.commitment.shiftedComm ==
                  Some(Add(Inner(ck.commKey, ShiftPolynomial(ck.SupportedDegree(), p.polynomial, p.degreeBound.value)),
                           Mul(ck.s, if p.hiding then r.shiftedRand.value else 0))))
  {
    var f, d := p.polynomial, ck.SupportedDegree();
    InnerCut(ck.commKey, f, Degree(f) + 1);
    if p.degreeBound.Some? {
      var k := d - p.degreeBound.value;
      if f == [] {
        assert Inner(ck.commKey[k..], f) == 0;
      } else {
        ShiftInner(ck.commKey, f, k);
      }
      Units(ck.s);
      Units(Inner(ck.commKey[k..], f));
    }
  }

  lemma {:induction false} CombinedLength(supported: int, ps: seq<LabeledPolynomial>, xi: Squeezes, n: nat)
    requires supported >= 0 && n <= |ps| && forall i :: 0 <= i < |ps| ==> DegreesOk(supported, ps[i])
    ensures |CombinedPolynomial(supported, ps, xi, n)| <= supported + 1
  {
    if n > 0 {
      CombinedLength(supported, ps, xi, n - 1);
      assert DegreesOk(supported, ps[n - 1]);
    }
  }

  /** The combined commitment opens to the combined polynomial with the combined blinding. */
  lemma {:induction false} CombinedOpens(ck: Key, ps: seq<LabeledPolynomial>, coins: seq<(Fp, Fp)>,
                                         comms: seq<LabeledCommitment>, states: seq<Randomness>, xi: Squeezes, n: nat)
    requires Committed(ck, ps, coins, comms, states) && n <= |ps|
    ensures ShiftsPresent(comms)
    ensures forall i :: 0 <= i < |ps| && ps[i].hiding && ps[i].degreeBound.Some? ==> states[i].shiftedRand.Some?
    ensures CombinedCommitment(comms, xi, n)
            == Add(Inner(ck.commKey, CombinedPolynomial(ck.SupportedDegree(), ps, xi, n)),
                   Mul(ck.s, CombinedRand(ps, states, xi, n)))
  {
    CommittedShape(ck, ps, coins, comms, states);
    if n == 0 {
      Units(ck.s);
      Units(0);
    } else {
      CombinedOpens(ck, ps, coins, comms, states, xi, n - 1);
      CombinedOpensStep(ck, ps[n - 1], coins[n - 1], comms[n - 1], states[n - 1],
                        CombinedPolynomial(ck.SupportedDegree(), ps, xi, n - 1), CombinedRand(ps, states, xi, n - 1),
                        xi(2 * n - 2), xi(2 * n - 1));
    }
  }

  lemma CommittedShape(ck: Key, ps: seq<LabeledPolynomial>, coins: seq<(Fp, Fp)>, comms: seq<LabeledCommitment>,
                       states: seq<Randomness>)
    requires Committed(ck, ps, coins, comms, states)
    ensures ShiftsPresent(comms)
    ensures forall i :: 0 <= i < |ps| && ps[i].hiding && ps[i].degreeBound.Some? ==> states[i].shiftedRand.Some?
    ensures forall i :: 0 <= i < |ps| ==> comms[i].degreeBound == ps[i].degreeBound
  {
    forall i | 0 <= i < |ps|
      ensures comms[i].degreeBound.Some? <==> comms[i].commitment.shiftedComm.Some?
      ensures ps[i].hiding && ps[i].degreeBound.Some? ==> states[i].shiftedRand.Some?
      ensures comms[i].degreeBound == ps[i].degreeBound
    {
      assert (comms[i], states[i]) == CommitOne(ck, ps[i], coins[i]);
    }
  }

  lemma CombinedOpensStep(ck: Key, p: LabeledPolynomial, coin: (Fp, Fp), comm: LabeledCommitment, state: Randomness,
                          sum: seq<Fp>, rand: Fp, x: Fp, y: Fp)
    requires DegreesOk(ck.SupportedDegree(), p) && (comm, state) == CommitOne(ck, p, coin)
    ensures var d, c := ck.SupportedDegree(), comm.commitment;
            var before := Add(Inner(ck.commKey, sum), Mul(ck.s, rand));
            var sum1 := Plus(sum, Scale(x, p.polynomial));
            var rand1 := if p.hiding then Add(rand, Mul(x, state.rand)) else rand;
            && Add(before, Mul(c.comm, x)) == Add(Inner(ck.commKey, sum1), Mul(ck.s, rand1))
            && (p.degreeBound.Some? ==>
                  var sum2 := Plus(sum1, Scale(y, ShiftPolynomial(d, p.polynomial, p.degreeBound.value)));
                  var rand2 := if p.hiding then Add(rand1, Mul(y, state.shiftedRand.value)) else rand1;
                  Add(Add(before, Mul(c.comm, x)), Mul(c.shiftedComm.value, y))
                  == Add(Inner(ck.commKey, sum2), Mul(ck.s, rand2)))
  {
    CommitOneOpens(ck, p, coin);
    AddOpening(ck, sum, rand, p.polynomial, state.rand, x);
    Units(x);
    Units(rand);
    if p.degreeBound.Some? {
      var sum1 := Plus(sum, Scale(x, p.polynomial));
      var rand1 := if p.hiding then Add(rand, Mul(x, state.rand)) else rand;
      AddOpening(ck, sum1, rand1, ShiftPolynomial(ck.SupportedDegree(), p.polynomial, p.degreeBound.value),
                 if p.hiding then state.shiftedRand.value else 0, y);
      Units(y);
      Units(rand1);
    }
  }

  lemma AddOpening(ck: Key, sum: seq<Fp>, rand: Fp, f: seq<Fp>, r: Fp, x: Fp)
    ensures Add(Add(Inner(ck.commKey, sum), Mul(ck.s, rand)), Mul(Add(Inner(ck.commKey, f), Mul(ck.s, r)), x))
            == Add(Inner(ck.commKey, Plus(sum, Scale(x, f))), Mul(ck.s, Add(rand, Mul(x, r))))
  {
    InnerPlusRight(sum, Scale(x, f), ck.commKey);
    InnerScale(x, f, ck.commKey);
    OpeningAlgebra(Inner(ck.commKey, sum), Inner(ck.commKey, f), ck.s, rand, r, x);
  }

  lemma OpeningAlgebra(i: Fp, j: Fp, s: Fp, rand: Fp, r: Fp, x: Fp)
    ensures Add(Add(i, Mul(s, rand)), Mul(Add(j, Mul(s, r)), x)) == Add(Add(i, Mul(x, j)), Mul(s, Add(rand, Mul(x, r))))
  {
    assert Mul(Add(j, Mul(s, r)), x) == Add(Mul(x, j), Mul(s, Mul(x, r))) by { RingLaws(); }
    Distributes(s, rand, Mul(x, r));
    FourSum(i, Mul(s, rand), Mul(x, j), Mul(s, Mul(x, r)));
  }

  /** With the true values, the verifier's combined value is the combined polynomial's. */
  lemma {:induction false} CombinedValueTrue(supported: int, ps: seq<LabeledPolynomial>, comms: seq<LabeledCommitment>,
                                             values: seq<Fp>, point: Fp, xi: Squeezes, n: nat)
    requires |ps| == |comms| == |values| && n <= |ps|
    requires forall i :: 0 <= i < |ps| ==> DegreesOk(supported, ps[i]) && comms[i].degreeBound == ps[i].degreeBound
    requires BoundsFit(supported, comms)
    requires forall i :: 0 <= i < |ps| ==> values[i] == Eval(ps[i].polynomial, point)
    ensures CombinedValue(supported, comms, values, point, xi, n)
            == Eval(CombinedPolynomial(supported, ps, xi, n), point)
  {
    if n > 0 {
      CombinedValueTrue(supported, ps, comms, values, point, xi, n - 1);
      var p := ps[n - 1];
      assert DegreesOk(supported, p) && comms[n - 1].degreeBound == p.degreeBound;
      CombinedValueStep(supported, p, CombinedPolynomial(supported, ps, xi, n - 1), point, xi(2 * n - 2),
                        xi(2 * n - 1));
    }
  }

  lemma CombinedValueStep(supported: int, p: LabeledPolynomial, sum: seq<Fp>, point: Fp, x: Fp, y: Fp)
    requires DegreesOk(supported, p)
    ensures var v := Eval(p.polynomial, point);
            var sum1 := Plus(sum, Scale(x, p.polynomial));
            && Eval(sum1, point) == Add(Eval(sum, point), Mul(x, v))
            && (p.degreeBound.Some? ==>
                  Eval(Plus(sum1, Scale(y, ShiftPolynomial(supported, p.polynomial, p.degreeBound.value))), point)
                  == Add(Eval(sum1, point), Mul(Mul(y, v), Pow(point, supported - p.degreeBound.value))))
  {
    var f, v := p.polynomial, Eval(p.polynomial, point);
    var sum1 := Plus(sum, Scale(x, f));
    EvalPlus(sum, Scale(x, f), point);
    EvalScale(x, f, point);
    if p.degreeBound.Some? {
      var k := supported - p.degreeBound.value;
      var shifted := ShiftPolynomial(supported, f, p.degreeBound.value);
      EvalPlus(sum1, Scale(y, shifted), point);
      EvalScale(y, shifted, point);
      assert Eval(shifted, point) == Mul(Pow(point, k), v) by {
        if f == [] { Units(Pow(point, k)); } else { EvalShifted(f, k, point); }
      }
      Commutes(Pow(point, k), v);
      MulAssociates(y, v, Pow(point, k));
    }
  }

  // ----- opening

  /** A combined polynomial with its blinding and its commitment. */
  datatype Opening = Opening(polynomial: seq<Fp>, rand: Fp, commitment: Fp)

  ghost predicate Opens(ck: Key, o: Opening) {
    o.commitment == Add(Inner(ck.commKey, o.polynomial), Mul(ck.s, o.rand))
  }

  /** What the caller of open has to supply besides polynomials of the right degree. */
  ghost predicate OpenInputs(ps: seq<LabeledPolynomial>, comms: seq<LabeledCommitment>, states: seq<Randomness>) {
    && |ps| == |comms| == |states| && ShiftsPresent(comms)
    && (forall i :: 0 <= i < |ps| ==> comms[i].degreeBound == ps[i].degreeBound)
    && (forall i :: 0 <= i < |ps| && ps[i].hiding && ps[i].degreeBound.Some? ==> states[i].shiftedRand.Some?)
  }

  predicate AllDegreesOk(supported: int, ps: seq<LabeledPolynomial>, n: nat)
    requires n <= |ps|
  {
    forall i :: 0 <= i < n ==> DegreesOk(supported, ps[i])
  }

  /** Some polynomial among the first n asks for hiding. */
  predicate HasHiding(ps: seq<LabeledPolynomial>, n: nat)
    requires n <= |ps|
  {
    n > 0 && (HasHiding(ps, n - 1) || ps[n - 1].hiding)
  }

  /** The combination of the first n polynomials that open works on, before any blinding. */
  function Combined(ck: Key, ps: seq<LabeledPolynomial>, comms: seq<LabeledCommitment>, states: seq<Randomness>,
                    xi: Squeezes, n: nat): Opening
    requires n <= |ps| == |comms| == |states| && ShiftsPresent(comms)
    requires AllDegreesOk(ck.SupportedDegree(), ps, n)
    requires forall i :: 0 <= i < |ps| && ps[i].hiding && ps[i].degreeBound.Some? ==> states[i].shiftedRand.Some?
  {
    Opening(CombinedPolynomial(ck.SupportedDegree(), ps, xi, n), CombinedRand(ps, states, xi, n),
            CombinedCommitment(comms, xi, n))
  }

  /** One turn of the first loop of open, for a polynomial whose degree is in order. */
  method CombineOne(d: int, p: LabeledPolynomial, c: Commitment, state: Randomness, x: Fp, y: Fp,
                    polynomial: seq<Fp>, rand: Fp, commitment: Fp)
    returns (combinedPolynomial: seq<Fp>, combinedRand: Fp, combinedCommitment: Fp)
    requires DegreesOk(d, p) && (p.degreeBound.Some? <==> c.shiftedComm.Some?)
    requires p.hiding && p.degreeBound.Some? ==> state.shiftedRand.Some?
    ensures combinedPolynomial == PolynomialTerm(d, polynomial, p, x, y)
    ensures combinedRand == RandTerm(rand, p, state, x, y)
    ensures combinedCommitment == CommitmentTerm(commitment, c, x, y)
  {
    combinedPolynomial := Plus(polynomial, Scale(x, p.polynomial));
    combinedCommitment := Add(commitment, Mul(c.comm, x));
    combinedRand := rand;
    if p.hiding {
      combinedRand := Add(combinedRand, Mul(x, state.rand));
    }
    if p.degreeBound.Some? {
      var shifted := ShiftPolynomial(d, p.polynomial, p.degreeBound.value);
      combinedPolynomial := Plus(combinedPolynomial, Scale(y, shifted));
      combinedCommitment := Add(combinedCommitment, Mul(c.shiftedComm.value, y));
      if p.hiding {
        combinedRand := Add(combinedRand, Mul(y, state.shiftedRand.value));
      }
    }
  }

  /** The first loop of open; None where the source returns an error. */
  method CombineForOpening(ck: Key, ps: seq<LabeledPolynomial>, comms: seq<LabeledCommitment>,
                           states: seq<Randomness>, xi: Squeezes)
    returns (r: Option<Opening>, hasHiding: bool)
    requires OpenInputs(ps, comms, states)
    ensures r.None? <==> !AllDegreesOk(ck.SupportedDegree(), ps, |ps|)
    ensures r.Some? ==> hasHiding == HasHiding(ps, |ps|)
    ensures r.Some? ==> r.value == Combined(ck, ps, comms, states, xi, |ps|)
  {
    var d := ck.SupportedDegree();
    ghost var acc := Opening([], 0, 0);
    var combinedPolynomial: seq<Fp> := [];
    var combinedRand: Fp, combinedCommitment: Fp := 0, 0;
    hasHiding := false;
    for i := 0 to |ps|
      invariant AllDegreesOk(d, ps, i) && hasHiding == HasHiding(ps, i)
      invariant acc == Opening(combinedPolynomial, combinedRand, combinedCommitment)
      invariant acc == Combined(ck, ps, comms, states, xi, i)
    {
      if !DegreesOk(d, ps[i]) {
        return None, hasHiding;
      }
      if ps[i].hiding {
        hasHiding := true;
      }
      combinedPolynomial, combinedRand, combinedCommitment :=
        CombineOne(d, ps[i], comms[i].commitment, states[i], xi(2 * i), xi(2 * i + 1),
                   combinedPolynomial, combinedRand, combinedCommitment);
      acc := Opening(combinedPolynomial, combinedRand, combinedCommitment);
    }
    r := Some(Opening(combinedPolynomial, combinedRand, combinedCommitment));
  }

  /** Blinding the combination with a random polynomial that vanishes at the point. */
  function Hide(ck: Key, o: Opening, value: Fp, point: Fp, oracle: Oracle, raw: seq<Fp>, hidingRand: Fp)
      : (Opening, Fp) {
    var hidingPolynomial := Plus(raw, [Neg(Eval(raw, point))]);
    var hidingComm := CmCommit(ck.commKey, hidingPolynomial, ck.s, Some(hidingRand));
    var challenge := oracle(HidingQuery(o.commitment, point, value, hidingComm));
    var rand := Add(o.rand, Mul(challenge, hidingRand));
    (Opening(Plus(o.polynomial, Scale(challenge, hidingPolynomial)), rand,
             Add(o.commitment, Sub(Mul(hidingComm, challenge), Mul(ck.s, rand)))),
     hidingComm)
  }

  /** After blinding, the commitment opens without any randomness, to the same value. */
  lemma HideOpens(ck: Key, o: Opening, value: Fp, point: Fp, oracle: Oracle, raw: seq<Fp>, hidingRand: Fp)
    requires Opens(ck, o)
    ensures var o' := Hide(ck, o, value, point, oracle, raw, hidingRand).0;
            && o'.commitment == Inner(ck.commKey, o'.polynomial)
            && Eval(o'.polynomial, point) == Eval(o.polynomial, point)
  {
    var hp := Plus(raw, [Neg(Eval(raw, point))]);
    var hidingComm := CmCommit(ck.commKey, hp, ck.s, Some(hidingRand));
    var x := oracle(HidingQuery(o.commitment, point, value, hidingComm));
    AddOpening(ck, o.polynomial, o.rand, hp, hidingRand, x);
    RemoveBlinding(o.commitment, Mul(hidingComm, x), Inner(ck.commKey, Plus(o.polynomial, Scale(x, hp))),
                   Mul(ck.s, Add(o.rand, Mul(x, hidingRand))));
    assert Eval(hp, point) == 0 by {
      EvalPlus(raw, [Neg(Eval(raw, point))], point);
      assert [Neg(Eval(raw, point))][1..] == [];
      Units(point);
      Units(Neg(Eval(raw, point)));
      Units(Eval(raw, point));
    }
    EvalPlus(o.polynomial, Scale(x, hp), point);
    EvalScale(x, hp, point);
    Units(x);
    Units(Eval(o.polynomial, point));
  }

  lemma RemoveBlinding(a: Fp, b: Fp, i: Fp, r: Fp)
    requires Add(a, b) == Add(i, r)
    ensures Add(a, Sub(b, r)) == i
  {
    AddAssociates(a, b, Neg(r));
    AddAssociates(i, r, Neg(r));
    Units(r);
    Units(i);
  }

  /** The rest of open: the rounds on the padded coefficients; None where the source panics. */
  function FinishOpening(ck: Key, o: Opening, value: Fp, point: Fp, oracle: Oracle, hidingComm: Option<Fp>,
                         rand: Option<Fp>): Option<Proof>
    requires |o.polynomial| <= |ck.commKey| == Pow2(Log2(|ck.commKey|))
  {
    var n := |ck.commKey|;
    var challenge := oracle(InitialQuery(o.commitment, point, value));
    var coeffs := o.polynomial + Zeros(n - |o.polynomial|);
    match ProverRounds(ck.commKey, coeffs, PowersFrom(1, point, n), Mul(ck.h, challenge), challenge, oracle, Log2(n))
    case None => None
    case Some(p) => Some(Proof(p.lVec, p.rVec, p.finalCommKey, p.c, hidingComm, rand))
  }

  /** What open returns for inputs it does not reject. */
  function OpenSpec(ck: Key, ps: seq<LabeledPolynomial>, comms: seq<LabeledCommitment>, states: seq<Randomness>,
                    point: Fp, xi: Squeezes, oracle: Oracle, raw: seq<Fp>, hidingRand: Fp): Option<Proof>
    requires |ps| == |comms| == |states| && ShiftsPresent(comms)
    requires AllDegreesOk(ck.SupportedDegree(), ps, |ps|)
    requires forall i :: 0 <= i < |ps| && ps[i].hiding && ps[i].degreeBound.Some? ==> states[i].shiftedRand.Some?
    requires |raw| <= |ck.commKey| == Pow2(Log2(|ck.commKey|))
  {
    var o := Combined(ck, ps, comms, states, xi, |ps|);
    var value := Eval(o.polynomial, point);
    CombinedLength(ck.SupportedDegree(), ps, xi, |ps|);
    if HasHiding(ps, |ps|) then
      var (o', hidingComm) := Hide(ck, o, value, point, oracle, raw, hidingRand);
      FinishOpening(ck, o', value, point, oracle, Some(hidingComm), Some(o'.rand))
    else
      FinishOpening(ck, o, value, point, oracle, None, None)
  }

  method PadCoefficients(f: seq<Fp>, n: nat) returns (coeffs: seq<Fp>)
    requires |f| <= n
    ensures coeffs == f + Zeros(n - |f|)
  {
    coeffs := f;
    while |coeffs| < n
      invariant |f| <= |coeffs| <= n && coeffs == f + Zeros(|coeffs| - |f|)
    {
      coeffs := coeffs + [0];
    }
  }

  /** open.  The key has a power of two of elements, as trim leaves it; raw and hidingRand are
      the coins for the blinding. */
  method Open(ck: Key, ps: seq<LabeledPolynomial>, comms: seq<LabeledCommitment>, states: seq<Randomness>, point: Fp,
              xi: Squeezes, oracle: Oracle, raw: seq<Fp>, hidingRand: Fp) returns (r: Outcome<Proof>)
    requires OpenInputs(ps, comms, states) && |raw| <= |ck.commKey| == Pow2(Log2(|ck.commKey|))
    ensures r.Err? <==> !AllDegreesOk(ck.SupportedDegree(), ps, |ps|)
    ensures !r.Err? ==> r == match OpenSpec(ck, ps, comms, states, point, xi, oracle, raw, hidingRand)
                             case None => Panic
                             case Some(proof) => Ok(proof)
  {
    var combined, hasHiding := CombineForOpening(ck, ps, comms, states, xi);
    if combined.None? {
      return Err;
    }
    CombinedLength(ck.SupportedDegree(), ps, xi, |ps|);
    var o := combined.value;
    var combinedV := Eval(o.polynomial, point);
    var hidingComm: Option<Fp>, rand: Option<Fp> := None, None;
    if hasHiding {
      var hidden := Hide(ck, o, combinedV, point, oracle, raw, hidingRand);
      o, hidingComm, rand := hidden.0, Some(hidden.1), Some(hidden.0.rand);
    }
    var proof := RunRounds(ck, o, combinedV, point, oracle, hidingComm, rand);
    r := if proof.None? then Panic else Ok(proof.value);
  }

  /** The rest of open, after the blinding. */
  method RunRounds(ck: Key, o: Opening, value: Fp, point: Fp, oracle: Oracle, hidingComm: Option<Fp>, rand: Option<Fp>)
    returns (r: Option<Proof>)
    requires |o.polynomial| <= |ck.commKey| == Pow2(Log2(|ck.commKey|))
    ensures r == FinishOpening(ck, o, value, point, oracle, hidingComm, rand)
  {
    var roundChallenge := oracle(InitialQuery(o.commitment, point, value));
    var hPrime := Mul(ck.h, roundChallenge);
    var coeffs := PadCoefficients(o.polynomial, |ck.commKey|);
    var rounds := FoldingLoop(ck.commKey, coeffs, point, hPrime, roundChallenge, oracle, Log2(|ck.commKey|));
    if rounds.None? {
      return None;
    }
    var p := rounds.value;
    r := Some(Proof(p.lVec, p.rVec, p.finalCommKey, p.c, hidingComm, rand));
  }
}
