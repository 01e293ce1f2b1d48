/** Public parameters of the multivariate scheme and their trimming
    (marlin_pst13_pc/mod.rs). */
module MarlinPST13Keys {
  import opened PrimeField
  import opened SparsePolynomials
  import opened MonomialTable

  datatype UniversalParams = UniversalParams(
    powersOfG: map<Term, Fp>, gammaG: Fp, powersOfGammaG: seq<seq<Fp>>, h: Fp, betaH: seq<Fp>,
    numVars: nat, maxDegree: nat)

  datatype CommitterKey = CommitterKey(
    powersOfG: map<Term, Fp>, gammaG: Fp, powersOfGammaG: seq<seq<Fp>>, numVars: nat, supportedDegree: nat,
    maxDegree: nat)

  datatype VerifierKey = VerifierKey(
    g: Fp, gammaG: Fp, h: Fp, betaH: seq<Fp>, numVars: nat, supportedDegree: nat, maxDegree: nat)

  /** The random choices of setup. */
  datatype Trapdoor = Trapdoor(betas: seq<Fp>, g: Fp, gammaG: Fp, h: Fp)

  /** One table entry for every monomial up to the degree, and no other. */
  ghost predicate HonestTable(table: map<Term, Fp>, n: nat, degree: nat, td: Trapdoor) {
    && (forall t :: t in table <==> Valid(t, 0, n) && TermDegree(t) <= degree)
    && (forall t :: t in table ==> table[t] == Mul(td.g, EvalTerm(t, td.betas)))
  }

  ghost predicate HonestBlinding(powers: seq<seq<Fp>>, n: nat, degree: nat, td: Trapdoor) {
    |powers| == n && forall v :: 0 <= v < n ==> HonestPowers(powers[v], At(td.betas, v), degree, td.gammaG)
  }

  /** gamma * beta, gamma * beta^2, ...: degree + 1 of them. */
  ghost predicate HonestPowers(powers: seq<Fp>, beta: Fp, degree: nat, gammaG: Fp) {
    |powers| == degree + 1 && forall j :: 0 <= j <= degree ==> powers[j] == Mul(gammaG, Pow(beta, j + 1))
  }

  ghost predicate HonestBetaH(betaH: seq<Fp>, n: nat, td: Trapdoor) {
    |betaH| == n && forall j :: 0 <= j < n ==> betaH[j] == Mul(td.h, At(td.betas, j))
  }

  ghost predicate HonestParams(pp: UniversalParams, td: Trapdoor) {
    && HonestTable(pp.powersOfG, pp.numVars, pp.maxDegree, td)
    && HonestBlinding(pp.powersOfGammaG, pp.numVars, pp.maxDegree, td)
    && HonestBetaH(pp.betaH, pp.numVars, td)
    && pp.gammaG == td.gammaG && pp.h == td.h
  }

  /** g times every value, keyed by the term of the same index. */
  method BuildTable(terms: seq<Term>, values: seq<Fp>, g: Fp) returns (table: map<Term, Fp>)
    requires |terms| == |values| && forall i, j :: 0 <= i < j < |terms| ==> terms[i] != terms[j]
    ensures forall t :: t in table <==> t in terms
    ensures forall k :: 0 <= k < |terms| ==> table[terms[k]] == Mul(g, values[k])
  {
    table := map[];
    for k := 0 to |terms|
      invariant forall t :: t in table <==> t in terms[..k]
      invariant forall j :: 0 <= j < k ==> terms[j] in table && table[terms[j]] == Mul(g, values[j])
    {
      table := table[terms[k] := Mul(g, values[k])];
    }
  }

  lemma TableIsHonest(table: map<Term, Fp>, terms: seq<Term>, values: seq<Fp>, n: nat, degree: nat, td: Trapdoor)
    requires Rows(terms, values, n, 1, degree, td.betas)
    requires forall t :: t in table <==> t in terms + [[]]
    requires forall k :: 0 <= k <= |terms| ==> table[(terms + [[]])[k]] == Mul(td.g, (values + [1])[k])
    ensures HonestTable(table, n, degree, td)
  {
    forall t ensures t in table <==> Valid(t, 0, n) && TermDegree(t) <= degree {
      if Valid(t, 0, n) && TermDegree(t) < 1 { DegreeZero(t, n); }
      if t in terms {
        var k :| 0 <= k < |terms| && terms[k] == t;
        assert Row(terms[k], values[k], n, 1, degree, td.betas);
      }
      assert (terms + [[]])[|terms|] == [];
    }
    forall t | t in table ensures table[t] == Mul(td.g, EvalTerm(t, td.betas)) {
      var k :| 0 <= k <= |terms| && (terms + [[]])[k] == t;
      if k < |terms| { assert Row(terms[k], values[k], n, 1, degree, td.betas); }
    }
  }

  lemma DegreeZero(t: Term, n: nat)
    requires Valid(t, 0, n) && TermDegree(t) < 1
    ensures t == []
  {
  }

  /** The powers of one beta under the second generator. */
  method BlindingPowers(beta: Fp, maxDegree: nat, gammaG: Fp) returns (powers: seq<Fp>)
    ensures HonestPowers(powers, beta, maxDegree, gammaG)
  {
    powers := [];
    var cur: Fp := 1;
    for k := 0 to maxDegree + 1
      invariant |powers| == k && cur == Pow(beta, k)
      invariant forall j :: 0 <= j < k ==> powers[j] == Mul(gammaG, Pow(beta, j + 1))
    {
      Commutes(cur, beta);
      cur := Mul(cur, beta);
      powers := powers + [Mul(gammaG, cur)];
    }
  }

  method AllBlindingPowers(numVars: nat, maxDegree: nat, td: Trapdoor) returns (powers: seq<seq<Fp>>)
    requires |td.betas| == numVars
    ensures HonestBlinding(powers, numVars, maxDegree, td)
  {
    powers := [];
    for i := 0 to numVars
      invariant |powers| == i
      invariant forall v :: 0 <= v < i ==> HonestPowers(powers[v], At(td.betas, v), maxDegree, td.gammaG)
    {
      var v := BlindingPowers(td.betas[i], maxDegree, td.gammaG);
      powers := powers + [v];
    }
  }

  /** setup; Err for no variables or degree zero. */
  method Setup(maxDegree: nat, numVars: Option<nat>, td: Trapdoor) returns (r: Outcome<UniversalParams>)
    requires numVars.Some? ==> |td.betas| == numVars.value
    ensures r.Err? <==> numVars.None? || numVars.value < 1 || maxDegree < 1
    ensures !r.Panic?
    ensures r.Ok? ==> HonestParams(r.value, td) && r.value.numVars == numVars.value && r.value.maxDegree == maxDegree
  {
    if numVars.None? || numVars.value < 1 || maxDegree < 1 {
      return Err;
    }
    var n := numVars.value;
    var terms, values := Monomials(n, maxDegree, td.betas);
    var allTerms: seq<Term> := terms + [[]];
    forall i, j | 0 <= i < j < |allTerms| ensures allTerms[i] != allTerms[j] {
      assert Row(terms[i], values[i], n, 1, maxDegree, td.betas);
    }
    var powersOfG := BuildTable(allTerms, values + [1], td.g);
    TableIsHonest(powersOfG, terms, values, n, maxDegree, td);
    var powersOfGammaG := AllBlindingPowers(n, maxDegree, td);
    var betaH := seq(n, j requires 0 <= j < n => Mul(td.h, td.betas[j]));
    return Ok(UniversalParams(powersOfG, td.gammaG, powersOfGammaG, td.h, betaH, n, maxDegree));
  }

  ghost predicate HonestKeys(ck: CommitterKey, vk: VerifierKey, td: Trapdoor) {
    && HonestTable(ck.powersOfG, ck.numVars, ck.supportedDegree, td)
    && HonestBlinding(ck.powersOfGammaG, ck.numVars, ck.supportedDegree, td)
    && HonestBetaH(vk.betaH, vk.numVars, td)
    && ck.gammaG == vk.gammaG == td.gammaG && vk.h == td.h && vk.g == td.g
    && vk.numVars == ck.numVars && vk.supportedDegree == ck.supportedDegree
  }

  /** trim; the unwrapped table entry of the constant term is always there. */
  function Trim(pp: UniversalParams, supportedDegree: nat): Outcome<(CommitterKey, VerifierKey)> {
    if supportedDegree > pp.maxDegree then Err
    else if [] !in pp.powersOfG || exists v :: 0 <= v < |pp.powersOfGammaG| && |pp.powersOfGammaG[v]| <= supportedDegree
    then Panic
    else
      var powersOfG := map t | t in pp.powersOfG && TermDegree(t) <= supportedDegree :: pp.powersOfG[t];
      var powersOfGammaG := seq(|pp.powersOfGammaG|, v requires 0 <= v < |pp.powersOfGammaG| =>
                                  pp.powersOfGammaG[v][..supportedDegree + 1]);
      Ok((CommitterKey(powersOfG, pp.gammaG, powersOfGammaG, pp.numVars, supportedDegree, pp.maxDegree),
          VerifierKey(pp.powersOfG[[]], pp.gammaG, pp.h, pp.betaH, pp.numVars, supportedDegree, pp.maxDegree)))
  }

  /** Trimming honest parameters leaves exactly the monomials of the supported degrees. */
  lemma TrimIsHonest(pp: UniversalParams, supportedDegree: nat, td: Trapdoor)
    requires HonestParams(pp, td)
    ensures Trim(pp, supportedDegree).Err? <==> supportedDegree > pp.maxDegree
    ensures supportedDegree <= pp.maxDegree ==>
              var keys := Trim(pp, supportedDegree);
              && keys.Ok? && HonestKeys(keys.value.0, keys.value.1, td)
              && keys.value.0.numVars == pp.numVars && keys.value.0.supportedDegree == supportedDegree
  {
    if supportedDegree <= pp.maxDegree {
      assert [] in pp.powersOfG;
      assert EvalTerm([], td.betas) == 1;
      Units(td.g);
      forall v | 0 <= v < |pp.powersOfGammaG|
        ensures |pp.powersOfGammaG[v]| > supportedDegree
        ensures HonestPowers(pp.powersOfGammaG[v][..supportedDegree + 1], At(td.betas, v), supportedDegree, td.gammaG)
      {
        assert HonestPowers(pp.powersOfGammaG[v], At(td.betas, v), pp.maxDegree, td.gammaG);
      }
    }
  }
}
