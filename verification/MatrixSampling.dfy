/** The random sparse matrices of the Brakedown code (make_mat of linear_codes/brakedown.rs). */
module MatrixSampling {
  import opened PrimeField
  import opened SparseMatrices

  /** The random words and the nonzero field elements that the generator yields, in order. */
  type Words = nat -> nat
  datatype Coins = Coins(words: Words, values: nat -> Fp)

  ghost predicate Permutation(s: seq<nat>) {
    Distinct(s, |s|)
  }

  ghost predicate Distinct(s: seq<nat>, m: nat) {
    && (forall i :: 0 <= i < |s| ==> s[i] < m)
    && (forall i, j :: 0 <= i < j < |s| ==> s[i] != s[j])
  }

  function Swapped(s: seq<nat>, a: nat, b: nat): (r: seq<nat>)
    requires a < |s| && b < |s|
    ensures |r| == |s|
  {
    s[a := s[b]][b := s[a]]
  }

  /** The place among k that a random word chooses. */
  function Place(word: nat, k: nat): (r: nat)
    requires k > 0
    ensures r < k && (word < k ==> r == word)
  {
    word % k
  }

  /** The first n Fisher-Yates steps: step j exchanges one of the first m - j entries, which word
      j chooses, with the last of them. */
  function Shuffled(tmp: seq<nat>, words: Words, first: nat, n: nat): (r: seq<nat>)
    requires n <= |tmp|
    ensures |r| == |tmp|
  {
    if n == 0 then tmp
    else Swapped(Shuffled(tmp, words, first, n - 1), Place(words(first + n - 1), |tmp| - n + 1), |tmp| - n)
  }

  /** What has been picked: the entries behind, the first pick last. */
  function Picks(shuffled: seq<nat>, n: nat): (r: seq<nat>)
    requires n <= |shuffled|
    ensures |r| == n && forall j :: 0 <= j < n ==> r[j] == shuffled[|shuffled| - 1 - j]
  {
    seq(n, j requires 0 <= j < n => shuffled[|shuffled| - 1 - j])
  }

  lemma SwappedPermutation(s: seq<nat>, a: nat, b: nat)
    requires Permutation(s) && a < |s| && b < |s|
    ensures Permutation(Swapped(s, a, b))
  {
  }

  lemma {:induction false} ShuffledPermutation(tmp: seq<nat>, words: Words, first: nat, n: nat)
    requires Permutation(tmp) && n <= |tmp|
    ensures Permutation(Shuffled(tmp, words, first, n))
    ensures Distinct(Picks(Shuffled(tmp, words, first, n), n), |tmp|)
  {
    if n > 0 {
      ShuffledPermutation(tmp, words, first, n - 1);
      SwappedPermutation(Shuffled(tmp, words, first, n - 1), Place(words(first + n - 1), |tmp| - n + 1), |tmp| - n);
    }
  }

  lemma ShuffledNext(tmp: seq<nat>, words: Words, first: nat, j: nat)
    requires j < |tmp|
    ensures Shuffled(tmp, words, first, j + 1)
            == Swapped(Shuffled(tmp, words, first, j), Place(words(first + j), |tmp| - j), |tmp| - 1 - j)
  {
  }

  /** A swap with the last entry in question leaves the picks behind it alone and adds one. */
  lemma PicksNext(s: seq<nat>, a: nat, n: nat)
    requires n < |s| && a < |s| - n
    ensures Picks(Swapped(s, a, |s| - 1 - n), n + 1) == Picks(s, n) + [s[a]]
  {
    var next := Picks(Swapped(s, a, |s| - 1 - n), n + 1);
    forall k | 0 <= k < n + 1 ensures next[k] == (Picks(s, n) + [s[a]])[k] {
    }
  }

  /** One turn of the loop. */
  method PickOne(tmp: array<nat>, j: nat, words: Words, first: nat, idxs: seq<nat>, ghost before: seq<nat>)
    returns (idxs': seq<nat>)
    requires j < tmp.Length == |before|
    requires tmp[..] == Shuffled(before, words, first, j) && idxs == Picks(tmp[..], j)
    modifies tmp
    ensures tmp[..] == Shuffled(before, words, first, j + 1) && idxs' == Picks(tmp[..], j + 1)
  {
    var a, last := Place(words(first + j), tmp.Length - j), tmp.Length - 1 - j;
    ShuffledNext(before, words, first, j);
    PicksNext(tmp[..], a, j);
    Swap(tmp, a, last);
    idxs' := idxs + [tmp[last]];
  }

  method Swap(tmp: array<nat>, a: nat, b: nat)
    requires a < tmp.Length && b < tmp.Length
    modifies tmp
    ensures tmp[..] == Swapped(old(tmp[..]), a, b) && tmp[b] == old(tmp[a])
  {
    tmp[a], tmp[b] := tmp[b], tmp[a];
  }

  /** The Fisher-Yates steps for one row. */
  method Shuffle(tmp: array<nat>, d: nat, words: Words, first: nat) returns (idxs: seq<nat>)
    requires d <= tmp.Length
    modifies tmp
    ensures tmp[..] == Shuffled(old(tmp[..]), words, first, d) && idxs == Picks(tmp[..], d)
  {
    idxs := [];
    ghost var before := tmp[..];
    for j := 0 to d
      invariant tmp[..] == Shuffled(before, words, first, j) && idxs == Picks(tmp[..], j)
    {
      idxs := PickOne(tmp, j, words, first, idxs, before);
    }
  }

  /** tmp stays a permutation and the picks are distinct. */
  method PickColumns(tmp: array<nat>, d: nat, words: Words, first: nat) returns (idxs: seq<nat>)
    requires Permutation(tmp[..]) && d <= tmp.Length
    modifies tmp
    ensures tmp[..] == Shuffled(old(tmp[..]), words, first, d) && idxs == Picks(tmp[..], d)
    ensures Permutation(tmp[..]) && Distinct(idxs, tmp.Length)
  {
    ShuffledPermutation(tmp[..], words, first, d);
    idxs := Shuffle(tmp, d, words, first);
  }

  // ----- nothing is out of reach

  /** Every column is there. */
  ghost predicate Onto(s: seq<nat>) {
    forall x: nat :: x < |s| ==> x in s
  }

  lemma SwappedOnto(s: seq<nat>, a: nat, b: nat)
    requires Onto(s) && a < |s| && b < |s|
    ensures Onto(Swapped(s, a, b))
  {
    var s' := Swapped(s, a, b);
    forall x: nat | x < |s'| ensures x in s' {
      assert x in s;
      var i :| 0 <= i < |s| && s[i] == x;
      assert s'[if i == a then b else if i == b then a else i] == x;
    }
  }

  lemma {:induction false} ShuffledOnto(tmp: seq<nat>, words: Words, first: nat, n: nat)
    requires Onto(tmp) && n <= |tmp|
    ensures Onto(Shuffled(tmp, words, first, n))
  {
    if n > 0 {
      ShuffledOnto(tmp, words, first, n - 1);
      SwappedOnto(Shuffled(tmp, words, first, n - 1), Place(words(first + n - 1), |tmp| - n + 1), |tmp| - n);
    }
  }

  lemma {:induction false} SameWords(tmp: seq<nat>, words: Words, words': Words, n: nat)
    requires n <= |tmp| && forall k :: 0 <= k < n ==> words(k) == words'(k)
    ensures Shuffled(tmp, words, 0, n) == Shuffled(tmp, words', 0, n)
  {
    if n > 0 { SameWords(tmp, words, words', n - 1); }
  }

  /** Every choice of distinct columns, in every order, is what some words pick. */
  lemma {:induction false} EveryChoiceIsPicked(tmp: seq<nat>, idxs: seq<nat>) returns (words: Words)
    requires Onto(tmp) && Distinct(idxs, |tmp|) && |idxs| <= |tmp|
    ensures Picks(Shuffled(tmp, words, 0, |idxs|), |idxs|) == idxs
  {
    words := k => 0;
    if idxs != [] {
      var n := |idxs|;
      var before := EveryChoiceIsPicked(tmp, idxs[..n - 1]);
      words := NextWord(tmp, idxs, n, before);
    }
  }

  lemma NextWord(tmp: seq<nat>, idxs: seq<nat>, n: nat, before: Words) returns (words: Words)
    requires Onto(tmp) && Distinct(idxs, |tmp|) && 0 < n == |idxs| <= |tmp|
    requires Picks(Shuffled(tmp, before, 0, n - 1), n - 1) == idxs[..n - 1]
    ensures Picks(Shuffled(tmp, words, 0, n), n) == idxs
  {
    var r := NextPlace(tmp, idxs, n, before);
    words := OneMoreWord(before, n - 1, r);
    ShuffledWith(tmp, n, before, r, words);
    PickNext(Shuffled(tmp, before, 0, n - 1), idxs, n, r);
  }

  lemma NextPlace(tmp: seq<nat>, idxs: seq<nat>, n: nat, before: Words) returns (r: nat)
    requires Onto(tmp) && Distinct(idxs, |tmp|) && 0 < n == |idxs| <= |tmp|
    requires Picks(Shuffled(tmp, before, 0, n - 1), n - 1) == idxs[..n - 1]
    ensures r < |tmp| - n + 1 && Shuffled(tmp, before, 0, n - 1)[r] == idxs[n - 1]
  {
    ShuffledOnto(tmp, before, 0, n - 1);
    r := PlaceOf(Shuffled(tmp, before, 0, n - 1), idxs, n - 1);
  }

  lemma {:induction false} ShuffledWith(tmp: seq<nat>, n: nat, before: Words, r: nat, words: Words)
    requires 0 < n <= |tmp| && r < |tmp| - n + 1
    requires words(n - 1) == r && forall k :: 0 <= k < n - 1 ==> words(k) == before(k)
    ensures Shuffled(tmp, words, 0, n) == Swapped(Shuffled(tmp, before, 0, n - 1), r, |tmp| - n)
  {
    SameWords(tmp, before, words, n - 1);
    ShuffleStep(tmp, words, n, r);
  }

  lemma OneMoreWord(before: Words, n: nat, r: nat) returns (words: Words)
    ensures words(n) == r && forall k :: 0 <= k < n ==> words(k) == before(k)
  {
    words := k => if k == n then r else before(k);
  }

  lemma ShuffleStep(tmp: seq<nat>, words: Words, n: nat, r: nat)
    requires 0 < n <= |tmp| && words(n - 1) == r < |tmp| - n + 1
    ensures Shuffled(tmp, words, 0, n) == Swapped(Shuffled(tmp, words, 0, n - 1), r, |tmp| - n)
  {
  }

  /** Every column is there; one that is not among the picks stands before them. */
  lemma PlaceOf(s: seq<nat>, idxs: seq<nat>, n: nat) returns (r: nat)
    requires Onto(s) && Distinct(idxs, |s|) && n < |idxs| <= |s| && Picks(s, n) == idxs[..n]
    ensures r < |s| - n && s[r] == idxs[n]
  {
    forall k | |s| - n <= k < |s| ensures s[k] != idxs[n] {
      assert s[k] == Picks(s, n)[|s| - 1 - k] == idxs[..n][|s| - 1 - k] == idxs[|s| - 1 - k];
    }
    assert idxs[n] in s;
    r :| 0 <= r < |s| && s[r] == idxs[n];
  }

  lemma PickNext(s: seq<nat>, idxs: seq<nat>, n: nat, r: nat)
    requires 0 < n == |idxs| <= |s| && r < |s| - n + 1 && s[r] == idxs[n - 1] && Picks(s, n - 1) == idxs[..n - 1]
    ensures Picks(Swapped(s, r, |s| - n), n) == idxs
  {
    var p := Picks(Swapped(s, r, |s| - n), n);
    forall j | 0 <= j < n ensures p[j] == idxs[j] {
      if j < n - 1 { assert p[j] == Picks(s, n - 1)[j] == idxs[..n - 1][j]; }
    }
  }

  // ----- how often a row occurs

  predicate HasRow(col: Column, i: nat) {
    exists k :: 0 <= k < |col| && col[k].0 == i
  }

  /** The number of columns with an entry in row i. */
  function RowCount(cols: seq<Column>, i: nat): nat {
    if cols == [] then 0
    else RowCount(cols[..|cols| - 1], i) + if HasRow(cols[|cols| - 1], i) then 1 else 0
  }

  /** Rows rise strictly in every column, lie below i, and no value is zero. */
  ghost predicate ColumnsOk(cols: seq<Column>, i: nat) {
    forall j :: 0 <= j < |cols| ==> ColumnRises(cols[j], i)
  }

  ghost predicate ColumnRises(col: Column, i: nat) {
    && (forall k :: 0 <= k < |col| ==> col[k].0 < i && col[k].1 != 0)
    && (forall k, l :: 0 <= k < l < |col| ==> col[k].0 < col[l].0)
  }

  /** Every row below i has d entries, all in different columns. */
  ghost predicate Regular(cols: seq<Column>, i: nat, d: nat) {
    && ColumnsOk(cols, i) && Total(cols) == i * d
    && forall k :: 0 <= k < i ==> RowCount(cols, k) == d
  }

  lemma {:induction false} PushCounts(cols: seq<Column>, j: nat, i: nat, v: Fp, k: nat)
    requires j < |cols| && !HasRow(cols[j], i)
    ensures var cols' := cols[j := cols[j] + [(i, v)]];
            && Total(cols') == Total(cols) + 1
            && RowCount(cols', k) == RowCount(cols, k) + if k == i then 1 else 0
    decreases |cols|
  {
    var n, cols' := |cols| - 1, cols[j := cols[j] + [(i, v)]];
    if j == n {
      assert cols'[..n] == cols[..n];
      PushHasRow(cols[j], i, v, k);
    } else {
      assert cols'[..n] == cols[..n][j := cols[j] + [(i, v)]];
      PushCounts(cols[..n], j, i, v, k);
    }
  }

  lemma PushHasRow(col: Column, i: nat, v: Fp, k: nat)
    ensures HasRow(col + [(i, v)], k) <==> HasRow(col, k) || k == i
  {
    var col' := col + [(i, v)];
    assert col'[|col|].0 == i;
    assert forall l :: 0 <= l < |col| ==> col'[l] == col[l];
  }

  lemma {:induction false} RisingLength(col: Column, i: nat)
    requires ColumnRises(col, i)
    ensures |col| <= i
    decreases |col|
  {
    if col != [] {
      var last := |col| - 1;
      RisingLength(col[..last], col[last].0);
    }
  }

  lemma {:induction false} NoRow(cols: seq<Column>, i: nat)
    requires ColumnsOk(cols, i)
    ensures RowCount(cols, i) == 0
  {
    if cols != [] {
      var n := |cols| - 1;
      NoRow(cols[..n], i);
      assert ColumnRises(cols[n], i);
    }
  }

  /** The columns idxs[t..] have no entry in row i yet. */
  ghost predicate Unused(cols: seq<Column>, idxs: seq<nat>, t: nat, i: nat) {
    forall k :: t <= k < |idxs| ==> UnusedAt(cols, idxs[k], i)
  }

  ghost predicate UnusedAt(cols: seq<Column>, j: nat, i: nat) {
    j < |cols| ==> ColumnRises(cols[j], i)
  }

  lemma PushKeeps(cols: seq<Column>, idxs: seq<nat>, t: nat, i: nat, v: Fp)
    requires t < |idxs| && Distinct(idxs, |cols|) && ColumnsOk(cols, i + 1) && Unused(cols, idxs, t, i) && v != 0
    ensures var cols' := cols[idxs[t] := cols[idxs[t]] + [(i, v)]];
            ColumnsOk(cols', i + 1) && Unused(cols', idxs, t + 1, i) && !HasRow(cols[idxs[t]], i)
  {
    var j := idxs[t];
    var cols' := cols[j := cols[j] + [(i, v)]];
    assert UnusedAt(cols, j, i);
    assert ColumnRises(cols'[j], i + 1);
    forall k | t + 1 <= k < |idxs| ensures UnusedAt(cols', idxs[k], i) {
      assert idxs[k] != j && UnusedAt(cols, idxs[k], i);
    }
  }

  /** The counts after the first t entries of row i. */
  ghost predicate Counted(cols: seq<Column>, i: nat, d: nat, t: nat) {
    && Total(cols) == i * d + t && RowCount(cols, i) == t
    && forall k :: 0 <= k < i ==> RowCount(cols, k) == d
  }

  lemma CountedStep(cols: seq<Column>, j: nat, i: nat, v: Fp, d: nat, t: nat)
    requires j < |cols| && !HasRow(cols[j], i) && Counted(cols, i, d, t)
    ensures Counted(cols[j := cols[j] + [(i, v)]], i, d, t + 1)
  {
    var cols' := cols[j := cols[j] + [(i, v)]];
    PushCounts(cols, j, i, v, i);
    forall k | 0 <= k < i ensures RowCount(cols', k) == d {
      PushCounts(cols, j, i, v, k);
    }
  }

  /** The columns after the first t entries of row i. */
  function Pushed(cols: seq<Column>, idxs: seq<nat>, i: nat, values: nat -> Fp, first: nat, t: nat): (r: seq<Column>)
    requires t <= |idxs| && forall k :: 0 <= k < |idxs| ==> idxs[k] < |cols|
    ensures |r| == |cols|
  {
    if t == 0 then cols
    else
      var before, j := Pushed(cols, idxs, i, values, first, t - 1), idxs[t - 1];
      before[j := before[j] + [(i, values(first + t - 1))]]
  }

  /** The columns before any entry of row i. */
  lemma PushedStart(cols: seq<Column>, idxs: seq<nat>, i: nat, d: nat)
    requires Regular(cols, i, d)
    ensures ColumnsOk(cols, i + 1) && Unused(cols, idxs, 0, i) && Counted(cols, i, d, 0)
  {
    NoRow(cols, i);
    forall j | 0 <= j < |cols| ensures ColumnRises(cols[j], i + 1) { assert ColumnRises(cols[j], i); }
  }

  lemma {:induction false} PushedCounts(cols: seq<Column>, idxs: seq<nat>, i: nat, d: nat,
                                        values: nat -> Fp, first: nat,
                                        t: nat)
    requires Regular(cols, i, d) && Distinct(idxs, |cols|) && t <= |idxs| && forall k :: values(k) != 0
    ensures var r := Pushed(cols, idxs, i, values, first, t);
            ColumnsOk(r, i + 1) && Unused(r, idxs, t, i) && Counted(r, i, d, t)
  {
    if t == 0 {
      PushedStart(cols, idxs, i, d);
    } else {
      PushedCounts(cols, idxs, i, d, values, first, t - 1);
      var before, v := Pushed(cols, idxs, i, values, first, t - 1), values(first + t - 1);
      PushKeeps(before, idxs, t - 1, i, v);
      CountedStep(before, idxs[t - 1], i, v, d, t - 1);
    }
  }

  /** One more row with d entries. */
  lemma PushedRegular(cols: seq<Column>, idxs: seq<nat>, i: nat, d: nat, values: nat -> Fp, first: nat)
    requires Regular(cols, i, d) && Distinct(idxs, |cols|) && |idxs| == d && forall k :: values(k) != 0
    ensures Regular(Pushed(cols, idxs, i, values, first, d), i + 1, d)
  {
    PushedCounts(cols, idxs, i, d, values, first, d);
    assert (i + 1) * d == i * d + d;
  }

  /** The entries of one row are pushed to the picked columns. */
  method PushRow(cols: seq<Column>, idxs: seq<nat>, i: nat, values: nat -> Fp, first: nat) returns (mat: seq<Column>)
    requires Distinct(idxs, |cols|)
    ensures mat == Pushed(cols, idxs, i, values, first, |idxs|)
  {
    mat := cols;
    for t := 0 to |idxs|
      invariant mat == Pushed(cols, idxs, i, values, first, t)
    {
      var j := idxs[t];
      mat := mat[j := mat[j] + [(i, values(first + t))]];
    }
  }

  /** How much has been drawn before row i: d words and d values for each row. */
  function RowStart(i: nat, d: nat): (r: nat) {
    if i == 0 then 0 else RowStart(i - 1, d) + d
  }

  lemma {:induction false} RowStartIs(i: nat, d: nat)
    ensures RowStart(i, d) == i * d
  {
    if i > 0 {
      RowStartIs(i - 1, d);
      assert i * d == (i - 1) * d + d;
    }
  }

  /** tmp and the columns after n rows; the shuffle of a row starts where the last one ended. */
  ghost function Made(m: nat, d: nat, coins: Coins, n: nat): (r: (seq<nat>, seq<Column>))
    requires d <= m
    ensures |r.0| == |r.1| == m && Permutation(r.0)
  {
    if n == 0 then (Identity(m), seq(m, j => []))
    else
      var before := Made(m, d, coins, n - 1);
      NextRow(before.0, before.1, n - 1, d, coins, RowStart(n - 1, d))
  }

  ghost function NextRow(tmp: seq<nat>, cols: seq<Column>, i: nat, d: nat, coins: Coins, drawn: nat)
      : (r: (seq<nat>, seq<Column>))
    requires Permutation(tmp) && |cols| == |tmp| && d <= |tmp|
    ensures |r.0| == |r.1| == |tmp| && Permutation(r.0) && Distinct(Picks(r.0, d), |tmp|)
  {
    var next := Shuffled(tmp, coins.words, drawn, d);
    ShuffledPermutation(tmp, coins.words, drawn, d);
    (next, Pushed(cols, Picks(next, d), i, coins.values, drawn, d))
  }

  function Identity(m: nat): (r: seq<nat>)
    ensures |r| == m && forall i :: 0 <= i < m ==> r[i] == i
  {
    seq(m, i requires 0 <= i < m => i)
  }

  lemma {:induction false} PushedHas(cols: seq<Column>, idxs: seq<nat>, i: nat, values: nat -> Fp, first: nat, t: nat,
                                     k: nat, x: (nat, Fp))
    requires t <= |idxs| && k < |cols| && forall l :: 0 <= l < |idxs| ==> idxs[l] < |cols|
    requires x in cols[k] || exists l :: 0 <= l < t && idxs[l] == k && x == (i, values(first + l))
    ensures x in Pushed(cols, idxs, i, values, first, t)[k]
  {
    if t > 0 && (x in cols[k] || exists l :: 0 <= l < t - 1 && idxs[l] == k && x == (i, values(first + l))) {
      PushedHas(cols, idxs, i, values, first, t - 1, k, x);
    }
  }

  /** Pick t of row i puts what was drawn for it into the picked column. */
  lemma NextRowHas(tmp: seq<nat>, cols: seq<Column>, i: nat, d: nat, coins: Coins, drawn: nat, t: nat)
    requires Permutation(tmp) && |cols| == |tmp| && t < d <= |tmp|
    ensures var r := NextRow(tmp, cols, i, d, coins, drawn);
            && r.0 == Shuffled(tmp, coins.words, drawn, d)
            && r.0[|tmp| - 1 - t] < |tmp| && (i, coins.values(drawn + t)) in r.1[r.0[|tmp| - 1 - t]]
  {
    var r := NextRow(tmp, cols, i, d, coins, drawn);
    var idxs := Picks(r.0, d);
    assert idxs[t] == r.0[|tmp| - 1 - t];
    PushedHas(cols, idxs, i, coins.values, drawn, d, idxs[t], (i, coins.values(drawn + t)));
  }

  lemma NextRowKeeps(tmp: seq<nat>, cols: seq<Column>, i: nat, d: nat, coins: Coins, drawn: nat, k: nat, x: (nat, Fp))
    requires Permutation(tmp) && |cols| == |tmp| && d <= |tmp| && k < |tmp| && x in cols[k]
    ensures x in NextRow(tmp, cols, i, d, coins, drawn).1[k]
  {
    PushedHas(cols, Picks(NextRow(tmp, cols, i, d, coins, drawn).0, d), i, coins.values, drawn, d, k, x);
  }

  lemma MadeStep(m: nat, d: nat, coins: Coins, n: nat)
    requires d <= m
    ensures var before := Made(m, d, coins, n);
            Made(m, d, coins, n + 1) == NextRow(before.0, before.1, n, d, coins, RowStart(n, d))
  {
  }

  /** Row i is shuffled with the words from its start on, and where its pick t is stands value t of those
      that are drawn for it. */
  lemma MadeFrom(m: nat, d: nat, coins: Coins, i: nat, t: nat)
    requires t < d <= m
    ensures var (tmp, cols) := Made(m, d, coins, i + 1);
            && tmp == Shuffled(Made(m, d, coins, i).0, coins.words, RowStart(i, d), d)
            && tmp[m - 1 - t] < m && (i, coins.values(RowStart(i, d) + t)) in cols[tmp[m - 1 - t]]
  {
    var before := Made(m, d, coins, i);
    MadeStep(m, d, coins, i);
    NextRowHas(before.0, before.1, i, d, coins, RowStart(i, d), t);
  }

  /** A further row takes nothing away. */
  lemma MadeKeeps(m: nat, d: nat, coins: Coins, n: nat, k: nat, x: (nat, Fp))
    requires d <= m && k < m && x in Made(m, d, coins, n).1[k]
    ensures x in Made(m, d, coins, n + 1).1[k]
  {
    var before := Made(m, d, coins, n);
    MadeStep(m, d, coins, n);
    NextRowKeeps(before.0, before.1, n, d, coins, RowStart(n, d), k, x);
  }

  lemma {:induction false} MadeOnto(m: nat, d: nat, coins: Coins, n: nat)
    requires d <= m
    ensures Onto(Made(m, d, coins, n).0)
  {
    if n == 0 {
      forall x: nat | x < m ensures x in Identity(m) { assert Identity(m)[x] == x; }
    } else {
      MadeOnto(m, d, coins, n - 1);
      ShuffledOnto(Made(m, d, coins, n - 1).0, coins.words, RowStart(n - 1, d), d);
    }
  }

  lemma {:induction false} MadeRegular(m: nat, d: nat, coins: Coins, n: nat)
    requires d <= m && forall k :: coins.values(k) != 0
    ensures Regular(Made(m, d, coins, n).1, n, d)
  {
    if n == 0 {
      EmptyTotal(Made(m, d, coins, 0).1);
    } else {
      MadeRegular(m, d, coins, n - 1);
      MadeNext(m, d, coins, n);
    }
  }

  lemma {:induction false} MadeNext(m: nat, d: nat, coins: Coins, n: nat)
    requires d <= m && n > 0 && (forall k :: coins.values(k) != 0) && Regular(Made(m, d, coins, n - 1).1, n - 1, d)
    ensures Regular(Made(m, d, coins, n).1, n, d)
  {
    var before := Made(m, d, coins, n - 1);
    NextRowRegular(before.0, before.1, n - 1, d, coins, RowStart(n - 1, d));
  }

  lemma NextRowRegular(tmp: seq<nat>, cols: seq<Column>, i: nat, d: nat, coins: Coins, drawn: nat)
    requires Permutation(tmp) && |cols| == |tmp| && d <= |tmp| && forall k :: coins.values(k) != 0
    requires Regular(cols, i, d)
    ensures Regular(NextRow(tmp, cols, i, d, coins, drawn).1, i + 1, d)
  {
    PushedRegular(cols, Picks(NextRow(tmp, cols, i, d, coins, drawn).0, d), i, d, coins.values, drawn);
  }

  /** One row. */
  method MakeRow(tmp: array<nat>, columns: seq<Column>, i: nat, d: nat, coins: Coins, drawn: nat)
    returns (columns': seq<Column>)
    requires Permutation(tmp[..]) && |columns| == tmp.Length && d <= tmp.Length
    modifies tmp
    ensures (tmp[..], columns') == NextRow(old(tmp[..]), columns, i, d, coins, drawn)
  {
    var idxs := PickColumns(tmp, d, coins.words, drawn);
    columns' := PushRow(columns, idxs, i, coins.values, drawn);
  }

  /** make_mat: every row gets exactly d nonzero entries in distinct columns, and none of the
      assertions of the constructor fails. */
  method MakeMat(n: nat, m: nat, d: nat, coins: Coins) returns (mat: SprsMat, cols: seq<Column>)
    requires d <= m && forall k :: coins.values(k) != 0
    ensures cols == Made(m, d, coins, n).1 && Regular(cols, n, d)
    ensures Holds(mat, cols) && mat.n == n && mat.d == d
    ensures Multiplies(mat, n) && mat.m == m
  {
    cols := MakeColumns(n, m, d, coins);
    MadeRegular(m, d, coins, n);
    mat := FromRegular(n, m, d, cols);
  }

  /** The lists of entries that make_mat collects. */
  method MakeColumns(n: nat, m: nat, d: nat, coins: Coins) returns (columns: seq<Column>)
    requires d <= m
    ensures columns == Made(m, d, coins, n).1
  {
    var tmp := new nat[m](i => i);
    columns := seq(m, j => []);
    var drawn := 0;
    assert tmp[..] == Identity(m);
    for i := 0 to n
      invariant tmp.Length == m && (tmp[..], columns) == Made(m, d, coins, i) && drawn == RowStart(i, d)
    {
      MadeStep(m, d, coins, i);
      columns := MakeRow(tmp, columns, i, d, coins, drawn);
      drawn := drawn + d;
    }
  }

  /** No assertion of the constructor fails on regular columns. */
  method FromRegular(n: nat, m: nat, d: nat, cols: seq<Column>) returns (mat: SprsMat)
    requires |cols| == m && Regular(cols, n, d)
    ensures Holds(mat, cols) && mat.n == n && mat.d == d
    ensures Multiplies(mat, n) && mat.m == m
  {
    RegularLengths(cols, n, d);
    var r := NewFromColumns(n, m, d, cols);
    RegularRowsBelow(cols, n, d);
    HoldsMultiplies(r.value, cols, n);
    mat := r.value;
  }

  lemma RegularLengths(cols: seq<Column>, n: nat, d: nat)
    requires Regular(cols, n, d)
    ensures Total(cols) == d * n && forall j :: 0 <= j < |cols| ==> |cols[j]| <= n
  {
    forall j | 0 <= j < |cols| ensures |cols[j]| <= n {
      assert ColumnRises(cols[j], n);
      RisingLength(cols[j], n);
    }
  }

  lemma {:induction false} EmptyTotal(cols: seq<Column>)
    requires forall j :: 0 <= j < |cols| ==> cols[j] == []
    ensures Total(cols) == 0
  {
    if cols != [] { EmptyTotal(cols[..|cols| - 1]); }
  }

  /** Such a matrix multiplies every row vector of the right length. */
  lemma RegularRowsBelow(cols: seq<Column>, n: nat, d: nat)
    requires Regular(cols, n, d)
    ensures RowsBelow(cols, n)
  {
    forall j | 0 <= j < |cols| ensures ColumnBelow(cols[j], n) { assert ColumnRises(cols[j], n); }
  }
}
