/** The iterator over the distinct sub-multisets of a sorted list
    (marlin_pst13_pc/combinations.rs).  Elements are integers: only their order matters. */
module Combinations {
  import opened PrimeField

  ghost predicate Sorted(s: seq<int>) {
    forall i, j :: 0 <= i < j < |s| ==> s[i] <= s[j]
  }

  /** Indices that rise strictly. */
  ghost predicate Rising(p: seq<int>, bound: int) {
    && (forall i :: 0 <= i < |p| ==> 0 <= p[i] < bound)
    && (forall i, j :: 0 <= i < j < |p| ==> p[i] < p[j])
  }

  /** The elements at the given positions. */
  function Pick(o: seq<int>, p: seq<int>): (r: seq<int>)
    requires forall i :: 0 <= i < |p| ==> 0 <= p[i] < |o|
    ensures |r| == |p| && forall i :: 0 <= i < |p| ==> r[i] == o[p[i]]
  {
    seq(|p|, i requires 0 <= i < |p| => o[p[i]])
  }

  /** w is a sorted sub-multiset of o with len elements. */
  ghost predicate IsCombination(o: seq<int>, len: nat, w: seq<int>) {
    |w| == len && Sorted(w) && multiset(w) <= multiset(o)
  }

  /** Lexicographic order on lists of equal length. */
  ghost predicate LexLess(v: seq<int>, w: seq<int>) {
    |v| == |w| && exists k :: 0 <= k < |v| && v[..k] == w[..k] && v[k] < w[k]
  }

  // ----- sub-multisets are rising positions

  lemma {:induction false} PositionsOf(o: seq<int>, w: seq<int>) returns (p: seq<int>)
    requires Sorted(o) && Sorted(w) && multiset(w) <= multiset(o)
    ensures |p| == |w| && Rising(p, |o|) && Pick(o, p) == w
    decreases |o|
  {
    if w == [] {
      p := [];
    } else {
      var n, m := |o|, |w|;
      assert n > 0 by { assert w[m - 1] in multiset(w) && w[m - 1] in multiset(o); }
      if o[n - 1] == w[m - 1] {
        LastUsed(o, w);
        var q := PositionsOf(o[..n - 1], w[..m - 1]);
        p := q + [n - 1];
        assert Pick(o, p) == w by { PickShorter(o, q); }
      } else {
        LastUnused(o, w);
        p := PositionsOf(o[..n - 1], w);
        PickShorter(o, p);
      }
    }
  }

  lemma PickShorter(o: seq<int>, q: seq<int>)
    requires o != [] && Rising(q, |o| - 1)
    ensures Pick(o[..|o| - 1], q) == Pick(o, q)
  {
  }

  lemma LastUsed(o: seq<int>, w: seq<int>)
    requires multiset(w) <= multiset(o) && w != [] && o != [] && o[|o| - 1] == w[|w| - 1]
    ensures multiset(w[..|w| - 1]) <= multiset(o[..|o| - 1])
  {
    WithoutLast(o);
    WithoutLast(w);
  }

  lemma WithoutLast(s: seq<int>)
    requires s != []
    ensures multiset(s[..|s| - 1]) == multiset(s) - multiset{s[|s| - 1]}
  {
    assert s == s[..|s| - 1] + [s[|s| - 1]];
  }

  lemma LastUnused(o: seq<int>, w: seq<int>)
    requires Sorted(o) && Sorted(w) && multiset(w) <= multiset(o) && w != [] && o != []
    requires o[|o| - 1] != w[|w| - 1]
    ensures multiset(w) <= multiset(o[..|o| - 1])
  {
    var x, y := o[|o| - 1], w[|w| - 1];
    assert o == o[..|o| - 1] + [x];
    assert y in multiset(w) && y in multiset(o);
    assert y <= x by {
      var j :| 0 <= j < |o| && o[j] == y;
    }
    forall i | 0 <= i < |w| ensures w[i] != x {
    }
    assert x !in multiset(w);
  }

  lemma {:induction false} PickIsCombination(o: seq<int>, p: seq<int>)
    requires Sorted(o) && Rising(p, |o|)
    ensures IsCombination(o, |p|, Pick(o, p))
  {
    PickSubset(o, p);
  }

  lemma {:induction false} PickSubset(o: seq<int>, p: seq<int>)
    requires Rising(p, |o|)
    ensures multiset(Pick(o, p)) <= multiset(o)
    decreases |p|
  {
    if p != [] {
      var m := |p|;
      var last := p[m - 1];
      var q := p[..m - 1];
      PickSubset(o[..last], q);
      assert Pick(o, p) == Pick(o[..last], q) + [o[last]];
      assert o == o[..last] + [o[last]] + o[last + 1..];
    }
  }

  // ----- positions bound the elements

  lemma {:induction false} RisingGap(p: seq<int>, bound: int, a: nat, b: nat)
    requires Rising(p, bound) && a <= b < |p|
    ensures p[b] - p[a] >= b - a
    decreases b - a
  {
    if a < b {
      RisingGap(p, bound, a, b - 1);
      assert p[b - 1] < p[b];
    }
  }

  /** Position k lies between k and the k-th place of the last possible selection. */
  lemma RisingBounds(p: seq<int>, bound: int, k: nat)
    requires Rising(p, bound) && k < |p|
    ensures k <= p[k] <= bound - (|p| - k)
  {
    RisingGap(p, bound, 0, k);
    RisingGap(p, bound, k, |p| - 1);
  }

  /** A list that is nowhere smaller after a common prefix is equal or greater. */
  lemma {:induction false} NowhereSmaller(v: seq<int>, w: seq<int>, t: nat)
    requires |v| == |w| && t <= |v| && v[..t] == w[..t]
    requires forall k :: t <= k < |v| ==> v[k] <= w[k]
    ensures w == v || LexLess(v, w)
    decreases |v| - t
  {
    if t == |v| {
      assert v == v[..t] && w == w[..t];
    } else if v[t] == w[t] {
      assert v[..t + 1] == w[..t + 1] by { assert v[..t + 1] == v[..t] + [v[t]] && w[..t + 1] == w[..t] + [w[t]]; }
      NowhereSmaller(v, w, t + 1);
    }
  }

  // ----- the successor in lexicographic order

  /** next is the least combination above v. */
  ghost predicate Successor(o: seq<int>, len: nat, v: seq<int>, next: seq<int>) {
    && IsCombination(o, len, next) && LexLess(v, next)
    && forall w :: IsCombination(o, len, w) && LexLess(v, w) ==> w == next || LexLess(next, w)
  }

  ghost predicate IsLast(o: seq<int>, len: nat, v: seq<int>) {
    forall w :: IsCombination(o, len, w) ==> !LexLess(v, w)
  }

  /** From place t on, the selection is as large as it can be. */
  ghost predicate MaximalFrom(o: seq<int>, p: seq<int>, t: nat)
    requires Rising(p, |o|)
  {
    forall k :: t <= k < |p| ==> MaximalAt(o, p, k)
  }

  ghost predicate MaximalAt(o: seq<int>, p: seq<int>, k: nat)
    requires Rising(p, |o|) && k < |p|
  {
    RisingBounds(p, |o|, k);
    o[p[k]] >= o[|o| - (|p| - k)]
  }

  /** The positions after place t has been bumped to j and the rest follows consecutively. */
  function Bumped(p: seq<int>, t: nat, j: int): (r: seq<int>)
    requires t < |p|
    ensures |r| == |p| && forall k :: 0 <= k < |r| ==> r[k] == if k < t then p[k] else j + (k - t)
  {
    seq(|p|, k requires 0 <= k < |p| => if k < t then p[k] else j + (k - t))
  }

  /** j is the first index whose element exceeds the one at place t, and t can be bumped. */
  ghost predicate BumpPoint(o: seq<int>, p: seq<int>, t: nat, j: int)
    requires Rising(p, |o|)
  {
    && t < |p| && p[t] < j < |o| && o[p[t]] < o[j] && (forall k :: p[t] <= k < j ==> o[k] == o[p[t]])
    && j <= |o| - (|p| - t) && MaximalFrom(o, p, t + 1)
  }

  lemma BumpedRises(o: seq<int>, p: seq<int>, t: nat, j: int)
    requires Rising(p, |o|) && BumpPoint(o, p, t, j)
    ensures Rising(Bumped(p, t, j), |o|)
  {
  }

  lemma BumpAbove(o: seq<int>, p: seq<int>, t: nat, j: int, e: seq<int>, q: nat)
    requires Sorted(o) && Rising(p, |o|) && BumpPoint(o, p, t, j) && Rising(e, |o|) && |e| == |p|
    requires Rising(Bumped(p, t, j), |o|)
    requires q < |p| && Pick(o, p)[..q] == Pick(o, e)[..q] && Pick(o, p)[q] < Pick(o, e)[q]
    ensures Pick(o, e) == Pick(o, Bumped(p, t, j)) || LexLess(Pick(o, Bumped(p, t, j)), Pick(o, e))
  {
    var v, w, v' := Pick(o, p), Pick(o, e), Pick(o, Bumped(p, t, j));
    RisingBounds(e, |o|, q);
    assert q <= t by { assert q > t ==> MaximalAt(o, p, q); }
    if q < t {
      assert v'[..q] == w[..q] && v'[q] < w[q];
    } else {
      assert e[t] >= j;
      forall k | t <= k < |p| ensures v'[k] <= w[k] {
        RisingGap(e, |o|, t, k);
        assert j + (k - t) <= e[k];
      }
      assert v'[..t] == w[..t];
      NowhereSmaller(v', w, t);
    }
  }

  /** Bumping the last place that can be bumped gives the successor. */
  lemma BumpIsSuccessor(o: seq<int>, p: seq<int>, t: nat, j: int)
    requires Sorted(o) && Rising(p, |o|) && BumpPoint(o, p, t, j)
    ensures Rising(Bumped(p, t, j), |o|)
    ensures Successor(o, |p|, Pick(o, p), Pick(o, Bumped(p, t, j)))
  {
    BumpedRises(o, p, t, j);
    var v, v' := Pick(o, p), Pick(o, Bumped(p, t, j));
    PickIsCombination(o, Bumped(p, t, j));
    assert LexLess(v, v') by { assert v[..t] == v'[..t] && v[t] < v'[t]; }
    forall w | IsCombination(o, |p|, w) && LexLess(v, w) ensures w == v' || LexLess(v', w) {
      var e := PositionsOf(o, w);
      var q :| 0 <= q < |v| && v[..q] == w[..q] && v[q] < w[q];
      BumpAbove(o, p, t, j, e, q);
    }
  }

  lemma MaximalIsLast(o: seq<int>, p: seq<int>)
    requires Sorted(o) && Rising(p, |o|) && MaximalFrom(o, p, 0)
    ensures IsLast(o, |p|, Pick(o, p))
  {
    var v := Pick(o, p);
    forall w | IsCombination(o, |p|, w) ensures !LexLess(v, w) {
      var e := PositionsOf(o, w);
      forall q | 0 <= q < |v| ensures v[q] >= w[q] {
        RisingBounds(e, |o|, q);
        assert MaximalAt(o, p, q);
      }
    }
  }

  lemma FirstIsLeast(o: seq<int>, p: seq<int>, w: seq<int>)
    requires Sorted(o) && Rising(p, |o|) && (forall k :: 0 <= k < |p| ==> p[k] == k) && IsCombination(o, |p|, w)
    ensures w == Pick(o, p) || LexLess(Pick(o, p), w)
  {
    var e := PositionsOf(o, w);
    forall k | 0 <= k < |p| ensures Pick(o, p)[k] <= w[k] { RisingBounds(e, |o|, k); }
    NowhereSmaller(Pick(o, p), w, 0);
  }

  // ----- the iterator

  class Combinations {
    const original: seq<int>
    var possition: seq<int>
    const len: nat
    var started: bool

    ghost predicate Valid()
      reads this
    {
      && 1 <= len < |original| && |possition| == len
      && Sorted(original) && Rising(possition, |original|)
      && (!started ==> forall k :: 0 <= k < len ==> possition[k] == k)
    }

    /** The combination at the current positions. */
    ghost function Current(): seq<int>
      reads this
      requires Valid()
    {
      Pick(original, possition)
    }

    /** new: sorted is what the library's sort makes of the list. */
    constructor (list: seq<int>, sorted: seq<int>, len: nat)
      requires |list| > len >= 1 && Sorted(sorted) && multiset(sorted) == multiset(list)
      ensures Valid() && !started && original == sorted && this.len == len
    {
      assert |multiset(sorted)| == |multiset(list)|;
      original := sorted;
      possition := seq(len, k => k);
      this.len := len;
      started := false;
    }

    /** insert. */
    method Insert() returns (col: seq<int>)
      requires Valid()
      ensures col == Current()
    {
      col := [];
      for p := 0 to len
        invariant |col| == p
        invariant forall k :: 0 <= k < p ==> col[k] == original[possition[k]]
      {
        col := col + [original[possition[p]]];
      }
    }

    /** Bounds the number of combinations still to come. */
    ghost function Remaining(): int
      reads this
    {
      Power(|original|, len) - Rank(possition, |original|)
    }

    /** Sets the last i positions to j, j + 1, .... */
    method Reposition(i: nat, j: nat)
      requires Valid() && started && 1 <= i <= len && BumpPoint(original, possition, len - i, j)
      modifies `possition
      ensures Valid() && Successor(original, len, old(Current()), Current())
      ensures 0 < Remaining() < old(Remaining())
    {
      ghost var p, t := possition, len - i;
      for k := 0 to i
        invariant |possition| == len
        invariant forall m :: 0 <= m < len ==> possition[m] == if t <= m < t + k then j + (m - t) else p[m]
      {
        possition := possition[len - i + k := j + k];
      }
      assert possition == Bumped(p, t, j);
      BumpIsSuccessor(original, p, t, j);
      RankRises(p, possition, |original|, t);
      RankBound(possition, |original|);
    }

    /** The last element can be replaced by a greater one. */
    method BumpLast() returns (comb: seq<int>)
      requires Valid() && started && original[possition[len - 1]] != original[|original| - 1]
      modifies `possition
      ensures Valid() && Successor(original, len, old(Current()), Current()) && comb == Current()
      ensures 0 < Remaining() < old(Remaining())
    {
      RisingBounds(possition, |original|, len - 1);
      var i := possition[len - 1];
      var current := original[i];
      var next := current;
      while current == next
        invariant possition[len - 1] <= i < |original| && next == original[i]
        invariant forall k :: possition[len - 1] <= k < i ==> original[k] == current
        decreases |original| - i
      {
        i := i + 1;
        next := original[i];
      }
      Reposition(1, i);
      comb := Insert();
    }

    /** Place len - i can be bumped and no later one can. */
    method BumpEarlier(i: nat) returns (comb: seq<int>)
      requires Valid() && started && 2 <= i <= len && MaximalFrom(original, possition, len - i + 1)
      requires original[possition[len - i]] < original[|original| - i]
      modifies `possition
      ensures Valid() && Successor(original, len, old(Current()), Current()) && comb == Current()
      ensures 0 < Remaining() < old(Remaining())
    {
      RisingBounds(possition, |original|, len - i);
      var lastpos := possition[len - i];
      var j := lastpos + 1;
      while !(original[lastpos] < original[j])
        invariant lastpos < j <= |original| - i
        invariant forall k :: lastpos <= k < j ==> original[k] == original[lastpos]
        decreases |original| - i - j
      {
        j := j + 1;
      }
      Reposition(i, j);
      comb := Insert();
    }

    /** The last element is as large as it can be: look for the closest place before it that can be bumped. */
    method BumpSearch() returns (found: bool, comb: seq<int>)
      requires Valid() && started && MaximalFrom(original, possition, len - 1)
      modifies `possition
      ensures Valid()
      ensures found ==> comb == Current() && Successor(original, len, old(Current()), Current())
      ensures found ==> 0 < Remaining() < old(Remaining())
      ensures !found ==> IsLast(original, len, Current()) && possition == old(possition)
    {
      comb := [];
      for i := 2 to len + 1
        invariant possition == old(possition) && MaximalFrom(original, possition, len - i + 1)
      {
        RisingBounds(possition, |original|, len - i);
        if original[possition[len - i]] < original[|original| - i] {
          comb := BumpEarlier(i);
          return true, comb;
        }
        assert MaximalAt(original, possition, len - i);
      }
      MaximalIsLast(original, possition);
      return false, comb;
    }

    /** next_combination: the bool says whether there is one. */
    method NextCombination() returns (found: bool, comb: seq<int>)
      requires Valid()
      modifies this
      ensures Valid() && started
      ensures found ==> comb == Current()
      ensures !old(started) ==> found && possition == old(possition)
      ensures old(started) && found ==> Successor(original, len, old(Current()), Current())
      ensures old(started) && found ==> 0 < Remaining() < old(Remaining())
      ensures !found ==> old(started) && IsLast(original, len, Current()) && possition == old(possition)
    {
      if !started {
        started := true;
        comb := Insert();
        found := true;
      } else {
        RisingBounds(possition, |original|, len - 1);
        if original[possition[len - 1]] == original[|original| - 1] {
          assert MaximalAt(original, possition, len - 1);
          found, comb := BumpSearch();
        } else {
          comb := BumpLast();
          found := true;
        }
      }
    }

    /** next: once the last combination has been yielded, the iterator stays exhausted. */
    method Next() returns (vals: Option<seq<int>>)
      requires Valid()
      modifies this
      ensures Valid() && started
      ensures vals.Some? ==> vals.value == Current()
      ensures !old(started) ==> vals.Some? && possition == old(possition)
      ensures old(started) ==> (vals.None? <==> old(IsLast(original, len, Current())))
      ensures vals.Some? && old(started) ==> Successor(original, len, old(Current()), Current())
      ensures vals.Some? && old(started) ==> 0 < Remaining() < old(Remaining())
      ensures vals.None? ==> Current() == old(Current())
    {
      var found, comb := NextCombination();
      vals := if found then Some(comb) else None;
    }
  }

  // ----- termination of a whole run

  function Power(b: nat, n: nat): nat {
    if n == 0 then 1 else Power(b, n - 1) * b
  }

  /** The positions read as a number in base b. */
  function Rank(p: seq<int>, b: nat): int {
    if p == [] then 0 else Rank(p[..|p| - 1], b) * b + p[|p| - 1]
  }

  lemma {:induction false} RankBound(p: seq<int>, b: nat)
    requires forall i :: 0 <= i < |p| ==> 0 <= p[i] < b
    ensures Rank(p, b) < Power(b, |p|)
  {
    if p != [] {
      RankBound(p[..|p| - 1], b);
      DigitBelow(Rank(p[..|p| - 1], b), Power(b, |p| - 1), b, p[|p| - 1], 0);
    }
  }

  lemma {:induction false} RankRises(p: seq<int>, q: seq<int>, b: nat, t: nat)
    requires |p| == |q| && t < |p| && p[..t] == q[..t] && p[t] < q[t]
    requires forall i :: 0 <= i < |p| ==> 0 <= p[i] < b && 0 <= q[i] < b
    ensures Rank(p, b) < Rank(q, b)
  {
    var n := |p| - 1;
    if t < n {
      assert p[..n][..t] == p[..t] && q[..n][..t] == q[..t];
      RankRises(p[..n], q[..n], b, t);
      DigitBelow(Rank(p[..n], b), Rank(q[..n], b), b, p[n], q[n]);
    }
  }

  lemma {:induction false} AtLeastOnce(k: int, b: nat)
    requires k >= 1
    ensures k * b >= b
  {
    if k > 1 { AtLeastOnce(k - 1, b); }
  }

  lemma DigitBelow(x: int, y: int, b: nat, d: int, e: int)
    requires x < y && 0 <= d < b && 0 <= e
    ensures x * b + d < y * b + e
  {
    AtLeastOnce(y - x, b);
    assert y * b == x * b + (y - x) * b;
  }

  // ----- a whole run

  ghost predicate Ascending(all: seq<seq<int>>) {
    forall i, j :: 0 <= i < j < |all| ==> LexLess(all[i], all[j])
  }

  lemma LexTransitive(u: seq<int>, v: seq<int>, w: seq<int>)
    requires LexLess(u, v) && LexLess(v, w)
    ensures LexLess(u, w)
  {
    var a :| 0 <= a < |u| && u[..a] == v[..a] && u[a] < v[a];
    var b :| 0 <= b < |v| && v[..b] == w[..b] && v[b] < w[b];
    var k := if a < b then a else b;
    assert u[..k] == u[..a][..k] && v[..k] == v[..a][..k] && v[..k] == v[..b][..k] && w[..k] == w[..b][..k];
    assert a < b ==> v[a] == v[..b][a] == w[..b][a] == w[a];
    assert b < a ==> u[b] == u[..a][b] == v[..a][b] == v[b];
    assert u[..k] == w[..k] && u[k] < w[k];
  }

  /** What has been yielded so far: an ascending list of all combinations up to the last one.
      Peek opens it. */
  ghost predicate YieldedUpTo(o: seq<int>, len: nat, all: seq<seq<int>>, last: seq<int>) {
    forall u :: Peek(u) ==>
      && all != [] && all[|all| - 1] == last && Ascending(all)
      && (forall i :: 0 <= i < |all| ==> IsCombination(o, len, all[i]))
      && (forall w :: IsCombination(o, len, w) ==> w in all || LexLess(last, w))
  }

  lemma FirstYielded(o: seq<int>, len: nat, p: seq<int>)
    requires Sorted(o) && Rising(p, |o|) && (forall k :: 0 <= k < |p| ==> p[k] == k) && |p| == len
    ensures YieldedUpTo(o, len, [Pick(o, p)], Pick(o, p))
  {
    PickIsCombination(o, p);
    forall w | IsCombination(o, len, w) ensures w in [Pick(o, p)] || LexLess(Pick(o, p), w) {
      FirstIsLeast(o, p, w);
    }
  }

  lemma YieldNext(o: seq<int>, len: nat, all: seq<seq<int>>, last: seq<int>, next: seq<int>)
    requires YieldedUpTo(o, len, all, last) && Successor(o, len, last, next)
    ensures YieldedUpTo(o, len, all + [next], next)
  {
    assert Peek(0);
    var all' := all + [next];
    forall i, j | 0 <= i < j < |all'| ensures LexLess(all'[i], all'[j]) {
      if j == |all| && i < |all| - 1 { LexTransitive(all[i], last, next); }
    }
    forall w | IsCombination(o, len, w) ensures w in all' || LexLess(next, w) {
      assert w in all ==> w in all';
    }
  }

  lemma AllYielded(o: seq<int>, len: nat, all: seq<seq<int>>, last: seq<int>)
    requires YieldedUpTo(o, len, all, last) && IsLast(o, len, last)
    ensures forall w :: w in all <==> IsCombination(o, len, w)
    ensures Ascending(all)
  {
    assert Peek(0);
  }

  /** Everything the iterator yields: every combination exactly once, in ascending order. */
  method Collect(list: seq<int>, sorted: seq<int>, len: nat) returns (all: seq<seq<int>>)
    requires |list| > len >= 1 && Sorted(sorted) && multiset(sorted) == multiset(list)
    ensures forall w :: w in all <==> IsCombination(sorted, len, w)
    ensures Ascending(all)
  {
    var it := new Combinations(list, sorted, len);
    var vals := it.Next();
    all := [vals.value];
    FirstYielded(sorted, len, it.possition);
    while vals.Some?
      invariant it.Valid() && it.started && it.original == sorted && it.len == len
      invariant YieldedUpTo(sorted, len, all, it.Current())
      invariant vals.None? ==> IsLast(sorted, len, it.Current())
      decreases vals.Some?, it.Remaining()
    {
      ghost var last := it.Current();
      vals := it.Next();
      if vals.Some? {
        YieldNext(sorted, len, all, last, vals.value);
        all := all + [vals.value];
      }
    }
    AllYielded(sorted, len, all, it.Current());
  }
}
