/** The table of monomials that setup builds from the combinations of variables
    (marlin_pst13_pc/mod.rs), and its trimming. */
module MonomialTable {
  import opened PrimeField
  import opened SparsePolynomials
  import opened Combinations

  function Repeat(v: nat, k: nat): (r: seq<int>)
    ensures |r| == k && forall i :: 0 <= i < k ==> r[i] == v
  {
    seq(k, i => v)
  }

  /** Every variable up to n, d times each. */
  function VariableSet(v: nat, n: nat, d: nat): seq<int>
    requires v <= n
    decreases n - v
  {
    if v == n then [] else Repeat(v, d) + VariableSet(v + 1, n, d)
  }

  /** A variable with the number of its occurrences, for every variable from v on. */
  function Occurrences(m: multiset<int>, v: nat, n: nat): (r: Term)
    requires v <= n
    decreases n - v
  {
    if v == n then [] else [(v, m[v])] + Occurrences(m, v + 1, n)
  }

  /** The library's Term::new on variables that rise: powers of zero are dropped. */
  function NewTerm(t: Term): Term {
    if t == [] then []
    else if t[0].1 == 0 then NewTerm(t[1..])
    else [t[0]] + NewTerm(t[1..])
  }

  function TermOf(w: seq<int>, n: nat): Term {
    NewTerm(Occurrences(multiset(w), 0, n))
  }

  /** The product of the betas that a combination stands for. */
  function ProductOf(w: seq<int>, betas: seq<Fp>): Fp
    requires forall i :: 0 <= i < |w| ==> 0 <= w[i]
  {
    if w == [] then 1 else Mul(At(betas, w[0]), ProductOf(w[1..], betas))
  }

  /** The combination that a term stands for. */
  function Expand(t: Term): seq<int> {
    if t == [] then [] else Repeat(t[0].0, t[0].1) + Expand(t[1..])
  }

  // ----- counting

  lemma CountRepeat(v: nat, k: nat, u: int)
    ensures multiset(Repeat(v, k))[u] == if u == v then k else 0
    decreases k
  {
    if k > 0 {
      CountRepeat(v, k - 1, u);
      assert Repeat(v, k) == Repeat(v, k - 1) + [v];
    }
  }

  lemma {:induction false} CountVariableSet(v: nat, n: nat, d: nat, u: int)
    requires v <= n
    ensures multiset(VariableSet(v, n, d))[u] == if v <= u < n then d else 0
    decreases n - v
  {
    if v < n {
      CountVariableSet(v + 1, n, d, u);
      CountRepeat(v, d, u);
    }
  }

  lemma {:induction false} CountBelow(t: Term, lo: nat, n: nat, u: int)
    requires Valid(t, lo, n) && (u < lo || u >= n)
    ensures multiset(Expand(t))[u] == 0
  {
    if t != [] {
      CountBelow(t[1..], t[0].0 + 1, n, u);
      CountRepeat(t[0].0, t[0].1, u);
    }
  }

  lemma {:induction false} ExpandSize(t: Term)
    ensures |Expand(t)| == TermDegree(t)
  {
    if t != [] { ExpandSize(t[1..]); }
  }

  lemma {:induction false} ExpandSorted(t: Term, lo: nat, n: nat)
    requires Valid(t, lo, n)
    ensures Sorted(Expand(t)) && forall i :: 0 <= i < |Expand(t)| ==> lo <= Expand(t)[i] < n
  {
    if t != [] { ExpandSorted(t[1..], t[0].0 + 1, n); }
  }

  lemma {:induction false} VariableSetSorted(v: nat, n: nat, d: nat)
    requires v <= n
    ensures Sorted(VariableSet(v, n, d))
    ensures forall i :: 0 <= i < |VariableSet(v, n, d)| ==> v <= VariableSet(v, n, d)[i] < n
    ensures v < n ==> |VariableSet(v, n, d)| >= d
    decreases n - v
  {
    if v < n { VariableSetSorted(v + 1, n, d); }
  }

  lemma LeastFirst(a: seq<int>, u: int)
    requires Sorted(a) && a != [] && multiset(a)[u] > 0
    ensures a[0] <= u
  {
    assert u in a;
  }

  lemma CountTail(a: seq<int>)
    requires a != []
    ensures multiset(a)[a[0]] > 0 && multiset(a[1..]) == multiset(a) - multiset{a[0]}
  {
    assert a == [a[0]] + a[1..];
  }

  lemma SameFirst(a: seq<int>, b: seq<int>)
    requires Sorted(a) && Sorted(b) && multiset(a) == multiset(b) && a != [] && b != []
    ensures a[0] == b[0]
  {
    CountTail(a);
    CountTail(b);
    LeastFirst(a, b[0]);
    LeastFirst(b, a[0]);
  }

  lemma SameTail(a: seq<int>, b: seq<int>)
    requires multiset(a) == multiset(b) && a != [] && b != [] && a[0] == b[0]
    ensures multiset(a[1..]) == multiset(b[1..])
  {
    CountTail(a);
    CountTail(b);
  }

  lemma {:induction false} SortedUnique(a: seq<int>, b: seq<int>)
    requires Sorted(a) && Sorted(b) && multiset(a) == multiset(b)
    ensures a == b
    decreases |a|
  {
    assert |a| == |b| by { assert |a| == |multiset(a)| && |b| == |multiset(b)|; }
    if a != [] {
      SameFirst(a, b);
      SameTail(a, b);
      SortedUnique(a[1..], b[1..]);
    }
  }

  // ----- terms and combinations determine each other

  lemma {:induction false} NewTermValid(m: multiset<int>, v: nat, n: nat)
    requires v <= n
    ensures Valid(NewTerm(Occurrences(m, v, n)), v, n)
    decreases n - v
  {
    if v < n {
      NewTermValid(m, v + 1, n);
      OccurrencesStep(m, v, n);
      ValidWeakens(NewTerm(Occurrences(m, v + 1, n)), v + 1, v, n);
      assert ([(v, m[v])] + NewTerm(Occurrences(m, v + 1, n)))[1..] == NewTerm(Occurrences(m, v + 1, n));
    }
  }

  lemma OccurrencesStep(m: multiset<int>, v: nat, n: nat)
    requires v < n
    ensures NewTerm(Occurrences(m, v, n))
            == if m[v] == 0 then NewTerm(Occurrences(m, v + 1, n)) else [(v, m[v])] + NewTerm(Occurrences(m, v + 1, n))
  {
    assert ([(v, m[v])] + Occurrences(m, v + 1, n))[1..] == Occurrences(m, v + 1, n);
  }

  lemma ExpandPush(p: (nat, nat), t: Term)
    ensures Expand([p] + t) == Repeat(p.0, p.1) + Expand(t)
  {
    assert ([p] + t)[1..] == t;
  }

  lemma {:induction false} CountNewTerm(m: multiset<int>, v: nat, n: nat, u: int)
    requires v <= n
    ensures multiset(Expand(NewTerm(Occurrences(m, v, n))))[u] == if v <= u < n then m[u] else 0
    decreases n - v
  {
    if v < n {
      CountNewTerm(m, v + 1, n, u);
      OccurrencesStep(m, v, n);
      if m[v] != 0 {
        ExpandPush((v, m[v]), NewTerm(Occurrences(m, v + 1, n)));
        CountRepeat(v, m[v], u);
      }
    }
  }

  /** Expanding the term of a combination gives the combination back. */
  lemma ExpandTermOf(w: seq<int>, n: nat)
    requires Sorted(w) && forall i :: 0 <= i < |w| ==> 0 <= w[i] < n
    ensures Valid(TermOf(w, n), 0, n) && Expand(TermOf(w, n)) == w
  {
    var t := TermOf(w, n);
    NewTermValid(multiset(w), 0, n);
    ExpandSorted(t, 0, n);
    forall u ensures multiset(Expand(t))[u] == multiset(w)[u] {
      CountNewTerm(multiset(w), 0, n, u);
      if multiset(w)[u] > 0 { assert u in w; }
    }
    assert multiset(Expand(t)) == multiset(w);
    SortedUnique(Expand(t), w);
  }

  lemma {:induction false} NewTermOfExpand(t: Term, m: multiset<int>, v: nat, n: nat)
    requires v <= n && Valid(t, v, n) && forall u :: u >= v ==> m[u] == multiset(Expand(t))[u]
    ensures NewTerm(Occurrences(m, v, n)) == t
    decreases n - v
  {
    if v < n {
      OccurrencesStep(m, v, n);
      if t != [] && t[0].0 == v {
        CountRepeat(v, t[0].1, v);
        CountBelow(t[1..], v + 1, n, v);
        forall u | u >= v + 1 ensures m[u] == multiset(Expand(t[1..]))[u] { CountRepeat(v, t[0].1, u); }
        NewTermOfExpand(t[1..], m, v + 1, n);
      } else {
        CountBelow(t, v + 1, n, v);
        NewTermOfExpand(t, m, v + 1, n);
      }
    }
  }

  /** Every monomial comes from its expansion. */
  lemma TermOfExpand(t: Term, n: nat)
    requires Valid(t, 0, n)
    ensures TermOf(Expand(t), n) == t
  {
    NewTermOfExpand(t, multiset(Expand(t)), 0, n);
  }

  // ----- the value of a combination

  lemma {:induction false} ProductRepeat(v: nat, k: nat, w: seq<int>, betas: seq<Fp>)
    requires forall i :: 0 <= i < |w| ==> 0 <= w[i]
    ensures ProductOf(Repeat(v, k) + w, betas) == Mul(Pow(At(betas, v), k), ProductOf(w, betas))
    decreases k
  {
    if k == 0 {
      assert Repeat(v, k) + w == w;
      Units(ProductOf(w, betas));
    } else {
      ProductRepeat(v, k - 1, w, betas);
      assert (Repeat(v, k) + w)[1..] == Repeat(v, k - 1) + w;
      MulAssociates(At(betas, v), Pow(At(betas, v), k - 1), ProductOf(w, betas));
    }
  }

  lemma {:induction false} ProductExpand(t: Term, betas: seq<Fp>)
    ensures forall i :: 0 <= i < |Expand(t)| ==> 0 <= Expand(t)[i]
    ensures ProductOf(Expand(t), betas) == EvalTerm(t, betas)
  {
    if t != [] {
      ProductExpand(t[1..], betas);
      ProductRepeat(t[0].0, t[0].1, Expand(t[1..]), betas);
    }
  }

  // ----- which lists are combinations of the variable set

  ghost predicate IsWord(w: seq<int>, n: nat, d: nat) {
    |w| == d && Sorted(w) && forall i :: 0 <= i < |w| ==> 0 <= w[i] < n
  }

  lemma {:induction false} CountAtMost(w: seq<int>, u: int)
    ensures multiset(w)[u] <= |w|
  {
    if w != [] {
      CountAtMost(w[1..], u);
      assert w == [w[0]] + w[1..];
    }
  }

  lemma WordsAreCombinations(w: seq<int>, n: nat, d: nat, max: nat)
    requires d <= max
    ensures IsCombination(VariableSet(0, n, max), d, w) <==> IsWord(w, n, d)
  {
    var o := VariableSet(0, n, max);
    if IsWord(w, n, d) {
      forall u ensures multiset(w)[u] <= multiset(o)[u] {
        CountVariableSet(0, n, max, u);
        CountAtMost(w, u);
        if multiset(w)[u] > 0 { assert u in w; }
      }
    }
    if IsCombination(o, d, w) {
      forall i | 0 <= i < |w| ensures 0 <= w[i] < n {
        CountVariableSet(0, n, max, w[i]);
        assert w[i] in multiset(w);
      }
    }
  }

  lemma WholeIsOnly(o: seq<int>, w: seq<int>)
    requires Sorted(o) && IsCombination(o, |o|, w)
    ensures w == o
  {
    var rest := multiset(o) - multiset(w);
    assert |multiset(o)| == |o| && |multiset(w)| == |w|;
    assert multiset(o) == multiset(w) + rest;
    assert rest == multiset{};
    SortedUnique(w, o);
  }

  // ----- the table

  /** All monomials whose degree lies between lo and hi, each exactly once, with their values. */
  ghost predicate Rows(terms: seq<Term>, values: seq<Fp>, n: nat, lo: nat, hi: nat, betas: seq<Fp>) {
    && |terms| == |values|
    && (forall k :: 0 <= k < |terms| ==> Row(terms[k], values[k], n, lo, hi, betas))
    && (forall t :: Valid(t, 0, n) && lo <= TermDegree(t) <= hi ==> t in terms)
    && (forall i, j :: 0 <= i < j < |terms| ==> terms[i] != terms[j])
  }

  ghost predicate Row(t: Term, value: Fp, n: nat, lo: nat, hi: nat, betas: seq<Fp>) {
    Valid(t, 0, n) && lo <= TermDegree(t) <= hi && value == EvalTerm(t, betas)
  }

  lemma RowsAppend(ts: seq<Term>, vs: seq<Fp>, ts': seq<Term>, vs': seq<Fp>, n: nat, d: nat, betas: seq<Fp>)
    requires Rows(ts, vs, n, 1, d, betas) && Rows(ts', vs', n, d + 1, d + 1, betas)
    ensures Rows(ts + ts', vs + vs', n, 1, d + 1, betas)
  {
    var all := ts + ts';
    forall k | 0 <= k < |all| ensures Row(all[k], (vs + vs')[k], n, 1, d + 1, betas) {
      if k < |ts| { assert Row(ts[k], vs[k], n, 1, d, betas); }
      else { assert Row(ts'[k - |ts|], vs'[k - |ts|], n, d + 1, d + 1, betas); }
    }
    forall i, j | 0 <= i < j < |all| ensures all[i] != all[j] {
      if i < |ts| <= j {
        assert Row(ts[i], vs[i], n, 1, d, betas);
        assert Row(ts'[j - |ts|], vs'[j - |ts|], n, d + 1, d + 1, betas);
      }
    }
  }

  /** One row: the term and the value of a combination. */
  lemma RowOf(w: seq<int>, n: nat, d: nat, betas: seq<Fp>)
    requires IsWord(w, n, d)
    ensures forall i :: 0 <= i < |w| ==> 0 <= w[i]
    ensures Row(TermOf(w, n), ProductOf(w, betas), n, d, d, betas)
  {
    ExpandTermOf(w, n);
    ExpandSize(TermOf(w, n));
    ProductExpand(TermOf(w, n), betas);
  }

  lemma RowsOfDegree(words: seq<seq<int>>, ts: seq<Term>, vs: seq<Fp>, n: nat, d: nat, betas: seq<Fp>)
    requires forall w :: w in words <==> IsWord(w, n, d)
    requires Ascending(words) && |ts| == |vs| == |words|
    requires forall k :: 0 <= k < |words| ==> ts[k] == TermOf(words[k], n) && Row(ts[k], vs[k], n, d, d, betas)
    ensures Rows(ts, vs, n, d, d, betas)
  {
    forall i, j | 0 <= i < j < |ts| ensures ts[i] != ts[j] {
      assert LexLess(words[i], words[j]);
      assert words[i] in words && words[j] in words;
      ExpandTermOf(words[i], n);
      ExpandTermOf(words[j], n);
    }
    forall t | Valid(t, 0, n) && d <= TermDegree(t) <= d ensures t in ts {
      ExpandSize(t);
      ExpandSorted(t, 0, n);
      TermOfExpand(t, n);
      assert Expand(t) in words;
      var k :| 0 <= k < |words| && words[k] == Expand(t);
      assert ts[k] == t;
    }
  }

  /** All combinations of one degree; the whole variable set has just one of its own size. */
  method Words(n: nat, degree: nat, maxDegree: nat) returns (words: seq<seq<int>>)
    requires n >= 1 && 1 <= degree <= maxDegree
    ensures forall w :: w in words <==> IsWord(w, n, degree)
    ensures Ascending(words)
  {
    var variableSet := VariableSet(0, n, maxDegree);
    VariableSetSorted(0, n, maxDegree);
    if |variableSet| == degree {
      words := [variableSet];
      forall w ensures w in words <==> IsCombination(variableSet, degree, w) {
        if IsCombination(variableSet, degree, w) { WholeIsOnly(variableSet, w); }
      }
    } else {
      words := Collect(variableSet, variableSet, degree);
    }
    forall w ensures w in words <==> IsWord(w, n, degree) {
      WordsAreCombinations(w, n, degree, maxDegree);
    }
  }

  /** The rows of one degree. */
  method DegreeRows(n: nat, degree: nat, maxDegree: nat, betas: seq<Fp>) returns (terms: seq<Term>, values: seq<Fp>)
    requires n >= 1 && 1 <= degree <= maxDegree
    ensures Rows(terms, values, n, degree, degree, betas)
  {
    var words := Words(n, degree, maxDegree);
    terms, values := [], [];
    for k := 0 to |words|
      invariant |terms| == |values| == k
      invariant forall j :: 0 <= j < k ==> terms[j] == TermOf(words[j], n)
      invariant forall j :: 0 <= j < k ==> Row(terms[j], values[j], n, degree, degree, betas)
    {
      assert words[k] in words;
      RowOf(words[k], n, degree, betas);
      terms := terms + [TermOf(words[k], n)];
      values := values + [ProductOf(words[k], betas)];
    }
    RowsOfDegree(words, terms, values, n, degree, betas);
  }

  /** The monomials of degree 1 to maxDegree that setup generates: each exactly once. */
  method Monomials(n: nat, maxDegree: nat, betas: seq<Fp>) returns (terms: seq<Term>, values: seq<Fp>)
    requires n >= 1 && maxDegree >= 1
    ensures Rows(terms, values, n, 1, maxDegree, betas)
  {
    terms, values := [], [];
    for d := 0 to maxDegree
      invariant Rows(terms, values, n, 1, d, betas)
    {
      var ts, vs := DegreeRows(n, d + 1, maxDegree, betas);
      RowsAppend(terms, values, ts, vs, n, d, betas);
      terms, values := terms + ts, values + vs;
    }
  }
}
