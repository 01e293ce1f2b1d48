/** Setup and trimming of the multilinear scheme (multilinear_pc/mod.rs): the eq-tables are
    built by repeated products over the whole hypercube and then thinned out. */
module MultilinearSetup {
  import opened PrimeField
  import opened Numbers
  import opened Vectors
  import opened MultilinearExtensions

  datatype UniversalParams = UniversalParams(
    numVars: nat, g: Fp, gMask: seq<Fp>, h: Fp, powersOfG: seq<seq<Fp>>, powersOfH: seq<seq<Fp>>)
  datatype CommitterKey = CommitterKey(nv: nat, g: Fp, h: Fp, powersOfG: seq<seq<Fp>>, powersOfH: seq<seq<Fp>>)
  datatype VerifierKey = VerifierKey(nv: nat, g: Fp, h: Fp, gMaskRandom: seq<Fp>)

  // ----- eq_extension and remove_dummy_variable

  /** Bit i of x. */
  function Bit(x: nat, i: nat): bool {
    FloorHalf(x, i) % 2 == 1
  }

  /** eq_extension: one table per variable, each over the whole hypercube. */
  method EqExtension(t: seq<Fp>) returns (result: seq<seq<Fp>>)
    ensures |result| == |t|
    ensures forall i :: 0 <= i < |t| ==> |result[i]| == Pow2(|t|)
    ensures forall i, x :: 0 <= i < |t| && 0 <= x < Pow2(|t|) ==> result[i][x] == EqBit(t[i], Bit(x, i))
  {
    var dim := |t|;
    result := [];
    for i := 0 to dim
      invariant |result| == i
      invariant forall j :: 0 <= j < i ==> |result[j]| == Pow2(dim)
      invariant forall j, x :: 0 <= j < i && 0 <= x < Pow2(dim) ==> result[j][x] == EqBit(t[j], Bit(x, j))
    {
      var poly := EqVariable(t[i], i, Pow2(dim));
      result := result + [poly];
    }
  }

  method EqVariable(ti: Fp, i: nat, size: nat) returns (poly: seq<Fp>)
    ensures |poly| == size && forall x :: 0 <= x < size ==> poly[x] == EqBit(ti, Bit(x, i))
  {
    poly := [];
    for x := 0 to size
      invariant |poly| == x && forall y :: 0 <= y < x ==> poly[y] == EqBit(ti, Bit(y, i))
    {
      var xi: Fp := if Bit(x, i) then 1 else 0;
      var tiXi := Mul(ti, xi);
      EqFormula(ti, Bit(x, i));
      poly := poly + [Add(Sub(Sub(Add(tiXi, tiXi), xi), ti), 1)];
    }
  }

  /** 2 * t * x - x - t + 1 is eq(t, x) for a bit x. */
  lemma EqFormula(t: Fp, bit: bool)
    ensures var x: Fp := if bit then 1 else 0;
            Add(Sub(Sub(Add(Mul(t, x), Mul(t, x)), x), t), 1) == EqBit(t, bit)
  {
    Units(t);
    if bit {
      var a, b := Sub(Add(t, t), 1), Sub(Sub(Add(t, t), 1), t);
      SubIff(Add(t, t), 1, a);
      SubIff(a, t, b);
      assert Add(t, t) == Add(t, Add(1, b)) by {
        Commutes(t, b);
        AddAssociates(1, t, b);
        AddAssociates(t, 1, b);
        Commutes(1, t);
      }
      SubIff(Add(t, t), t, t);
      SubIff(Add(t, t), t, Add(1, b));
      Commutes(1, b);
    } else {
      Units(0);
      assert Sub(Add(0, 0), 0) == 0 by { SubZero(0, 0); }
      assert Sub(0, t) == Neg(t) by { Units(Neg(t)); }
      Commutes(Neg(t), 1);
    }
  }

  /** remove_dummy_variable; None where the source panics. */
  function RemoveDummyVariable(poly: seq<Fp>, pad: nat): Option<seq<Fp>> {
    if pad == 0 then Some(poly)
    else if |poly| != Pow2(Log2(|poly|)) || pad > Log2(|poly|) then None
    else
      var nv := Log2(|poly|) - pad;
      assert forall x :: 0 <= x < Pow2(nv) ==> x * Pow2(pad) < |poly| by { Strides(nv, pad); }
      Some(seq(Pow2(nv), x requires 0 <= x < Pow2(nv) => poly[x * Pow2(pad)]))
  }

  lemma Strides(nv: nat, pad: nat)
    ensures forall x :: 0 <= x < Pow2(nv) ==> 0 <= x * Pow2(pad) < Pow2(nv + pad)
  {
    Pow2Add(nv, pad);
    forall x | 0 <= x < Pow2(nv) ensures 0 <= x * Pow2(pad) < Pow2(nv + pad) { Stride(x, Pow2(nv), Pow2(pad)); }
  }

  lemma Stride(x: int, n: int, p: int)
    requires 0 <= x < n && p > 0
    ensures 0 <= x * p < n * p
  {
  }

  // ----- the product tables

  /** The product of the tables of variables i, i + 1, ... over the whole hypercube. */
  ghost predicate IsTail(base: seq<Fp>, t: seq<Fp>, i: nat)
    requires i <= |t|
  {
    |base| == Pow2(|t|) && forall x :: 0 <= x < |base| ==> base[x] == EqAt(t[i..], FloorHalf(x, i))
  }

  lemma EqAtOne(t: seq<Fp>, y: nat)
    requires |t| == 1
    ensures EqAt(t, y) == EqBit(t[0], y % 2 == 1)
  {
    assert t[1..] == [];
    Units(EqBit(t[0], y % 2 == 1));
  }

  lemma LastTail(base: seq<Fp>, t: seq<Fp>)
    requires t != [] && |base| == Pow2(|t|)
    requires forall x :: 0 <= x < |base| ==> base[x] == EqBit(t[|t| - 1], Bit(x, |t| - 1))
    ensures IsTail(base, t, |t| - 1)
  {
    var i := |t| - 1;
    forall x | 0 <= x < |base| ensures base[x] == EqAt(t[i..], FloorHalf(x, i)) {
      EqAtOne(t[i..], FloorHalf(x, i));
    }
  }

  lemma TailStep(base: seq<Fp>, t: seq<Fp>, i: nat, mul: seq<Fp>, product: seq<Fp>)
    requires 0 < i <= |t| && IsTail(base, t, i) && |mul| == |product| == |base|
    requires forall x :: 0 <= x < |mul| ==> mul[x] == EqBit(t[i - 1], Bit(x, i - 1))
    requires forall x :: 0 <= x < |mul| ==> product[x] == Mul(base[x], mul[x])
    ensures IsTail(product, t, i - 1)
  {
    forall x | 0 <= x < |base| ensures product[x] == EqAt(t[i - 1..], FloorHalf(x, i - 1)) {
      assert t[i - 1..][1..] == t[i..];
      assert FloorHalf(x, i) == FloorHalf(x, i - 1) / 2;
      Commutes(base[x], mul[x]);
    }
  }

  /** Thinning out the product of all variables from i on leaves their eq-table. */
  lemma ThinnedTail(base: seq<Fp>, t: seq<Fp>, i: nat)
    requires i < |t| && IsTail(base, t, i)
    ensures RemoveDummyVariable(base, i) == Some(EqTable(t[i..]))
  {
    Log2OfPower(|t|);
    var nv := |t| - i;
    if i == 0 {
      assert t[0..] == t && base == EqTable(t);
    } else {
      Strides(nv, i);
      var thin := RemoveDummyVariable(base, i).value;
      forall x | 0 <= x < Pow2(nv) ensures thin[x] == EqTable(t[i..])[x] {
        HalvesOfMultiple(x, i, i);
        assert Pow2(0) == 1;
      }
      assert thin == EqTable(t[i..]);
    }
  }

  method Products(base: seq<Fp>, mul: seq<Fp>) returns (product: seq<Fp>)
    requires |base| == |mul|
    ensures |product| == |base| && forall x :: 0 <= x < |base| ==> product[x] == Mul(base[x], mul[x])
  {
    product := seq(|base|, x requires 0 <= x < |base| => Mul(base[x], mul[x]));
  }

  /** The first loop of setup: tables[i] is the eq-table of the secrets from i on. */
  method EqTables(t: seq<Fp>) returns (tables: seq<seq<Fp>>)
    requires t != []
    ensures |tables| == |t| && forall i :: 0 <= i < |t| ==> tables[i] == EqTable(t[i..])
  {
    var n := |t|;
    var eq := EqExtension(t);
    tables := [];
    var base := eq[n - 1];
    eq := eq[..n - 1];
    LastTail(base, t);
    for i := n downto 0
      invariant |tables| == n - i && forall k :: 0 <= k < n - i ==> tables[k] == EqTable(t[i + k..])
      invariant |eq| == if i == 0 then 0 else i - 1
      invariant i > 0 ==> IsTail(base, t, i - 1)
      invariant forall j :: 0 <= j < |eq| ==> |eq[j]| == Pow2(n)
      invariant forall j, x :: 0 <= j < |eq| && 0 <= x < Pow2(n) ==> eq[j][x] == EqBit(t[j], Bit(x, j))
    {
      ThinnedTail(base, t, i);
      tables := [RemoveDummyVariable(base, i).value] + tables;
      if i != 0 {
        var mul := eq[i - 1];
        eq := eq[..i - 1];
        var product := Products(base, mul);
        TailStep(base, t, i, mul, product);
        base := product;
      }
    }
  }

  // ----- concatenated and cut up again

  function Flatten(s: seq<seq<Fp>>): seq<Fp> {
    if s == [] then [] else s[0] + Flatten(s[1..])
  }

  lemma {:induction false} FlattenPush(s: seq<seq<Fp>>, x: seq<Fp>)
    ensures Flatten(s + [x]) == Flatten(s) + x
  {
    if s == [] {
      assert s + [x] == [x] && [x][1..] == [];
    } else {
      assert (s + [x])[1..] == s[1..] + [x];
      FlattenPush(s[1..], x);
    }
  }

  lemma {:induction false} FlattenSplit(s: seq<seq<Fp>>, i: nat)
    requires i <= |s|
    ensures Flatten(s) == Flatten(s[..i]) + Flatten(s[i..])
  {
    if i == 0 {
      assert s[i..] == s;
    } else {
      FlattenSplit(s[1..], i - 1);
      assert s[..i][1..] == s[1..][..i - 1] && s[i..] == s[1..][i - 1..];
    }
  }

  /** The i-th part of the concatenation, multiplied by g. */
  lemma Slice(s: seq<seq<Fp>>, i: nat, g: Fp)
    requires i < |s|
    ensures var start := |Flatten(s[..i])|;
            && start + |s[i]| <= |Flatten(s)|
            && Scale(g, Flatten(s))[start..start + |s[i]|] == Scale(g, s[i])
            && |Flatten(s[..i + 1])| == start + |s[i]|
  {
    FlattenSplit(s, i);
    var a, b, c := Flatten(s[..i]), s[i], Flatten(s[i + 1..]);
    assert s[i..][1..] == s[i + 1..];
    ScaleAppend(g, a, b + c);
    ScaleAppend(g, b, c);
    assert s[..i + 1] == s[..i] + [s[i]];
    FlattenPush(s[..i], s[i]);
  }

  /** Cuts the list of powers at the sizes of the tables. */
  method CutPowers(powers: seq<Fp>, numVars: nat, ghost tables: seq<seq<Fp>>, ghost g: Fp) returns (cut: seq<seq<Fp>>)
    requires powers == Scale(g, Flatten(tables)) && |tables| == numVars
    requires forall i :: 0 <= i < numVars ==> |tables[i]| == Pow2(numVars - i)
    ensures |cut| == numVars && forall i :: 0 <= i < numVars ==> cut[i] == Scale(g, tables[i])
  {
    cut := [];
    var start := 0;
    for i := 0 to numVars
      invariant |cut| == i && start == |Flatten(tables[..i])|
      invariant forall j :: 0 <= j < i ==> cut[j] == Scale(g, tables[j])
    {
      var size := Pow2(numVars - i);
      Slice(tables, i, g);
      cut := cut + [powers[start..start + size]];
      start := start + size;
    }
  }

  /** The powers of a key: the eq-tables of its secrets, the i-th without the first i. */
  ghost predicate HonestPowers(powers: seq<seq<Fp>>, t: seq<Fp>, g: Fp) {
    |powers| == |t| && forall i :: 0 <= i < |t| ==> powers[i] == Scale(g, EqTable(t[i..]))
  }

  ghost predicate HonestParams(pp: UniversalParams, t: seq<Fp>) {
    && pp.numVars == |t| && HonestPowers(pp.powersOfG, t, pp.g) && HonestPowers(pp.powersOfH, t, pp.h)
    && pp.gMask == Scale(pp.g, t)
  }

  /** setup; None where the source panics.  The secrets t and the generators are its random
      choices. */
  method Setup(numVars: nat, t: seq<Fp>, g: Fp, h: Fp) returns (r: Option<UniversalParams>)
    requires |t| == numVars
    ensures r.None? <==> numVars == 0
    ensures r.Some? ==> HonestParams(r.value, t) && r.value.g == g && r.value.h == h
  {
    if numVars == 0 {
      return None;
    }
    var eqArr := EqTables(t);
    var ppPowers: seq<Fp> := [];
    for i := 0 to numVars
      invariant ppPowers == Flatten(eqArr[..i])
    {
      assert eqArr[..i + 1] == eqArr[..i] + [eqArr[i]];
      FlattenPush(eqArr[..i], eqArr[i]);
      ppPowers := ppPowers + eqArr[i];
    }
    assert eqArr[..numVars] == eqArr;
    var powersOfG := CutPowers(Scale(g, ppPowers), numVars, eqArr, g);
    var powersOfH := CutPowers(Scale(h, ppPowers), numVars, eqArr, h);
    return Some(UniversalParams(numVars, g, Scale(g, t), h, powersOfG, powersOfH));
  }

  // ----- trim

  /** trim; None where the source's assertion fails. */
  function Trim(pp: UniversalParams, supported: nat): Option<(CommitterKey, VerifierKey)> {
    if supported > pp.numVars || |pp.powersOfG| < pp.numVars || |pp.powersOfH| < pp.numVars || |pp.gMask| < pp.numVars
    then None
    else
      var toReduce := pp.numVars - supported;
      Some((CommitterKey(supported, pp.g, pp.h, pp.powersOfG[toReduce..], pp.powersOfH[toReduce..]),
            VerifierKey(supported, pp.g, pp.h, pp.gMask[toReduce..])))
  }

  ghost predicate HonestKeys(ck: CommitterKey, vk: VerifierKey, t: seq<Fp>) {
    && ck.nv == vk.nv == |t| && ck.g == vk.g && ck.h == vk.h
    && HonestPowers(ck.powersOfG, t, ck.g) && HonestPowers(ck.powersOfH, t, ck.h)
    && vk.gMaskRandom == Scale(vk.g, t)
  }

  /** Trimming drops the first secrets. */
  lemma TrimIsHonest(pp: UniversalParams, t: seq<Fp>, supported: nat)
    requires HonestParams(pp, t)
    ensures Trim(pp, supported).Some? <==> supported <= |t|
    ensures supported <= |t| ==>
              HonestKeys(Trim(pp, supported).value.0, Trim(pp, supported).value.1, t[|t| - supported..])
  {
    if supported <= |t| {
      var k := |t| - supported;
      forall i | 0 <= i < supported
        ensures pp.powersOfG[k..][i] == Scale(pp.g, EqTable(t[k..][i..]))
        ensures pp.powersOfH[k..][i] == Scale(pp.h, EqTable(t[k..][i..]))
      {
        assert t[k..][i..] == t[k + i..];
      }
      assert t == t[..k] + t[k..];
      ScaleAppend(pp.g, t[..k], t[k..]);
    }
  }
}
