/** Committing to all foldings of a polynomial, and opening them, in one pass over its
    coefficients (commit_folding and open_folding of streaming_kzg/space.rs). */
module StreamingFolding {
  import opened PrimeField
  import opened Numbers
  import opened Vectors
  import opened Division
  import opened FoldedPolynomial
  import opened FoldedPolynomialIterators
  import opened StreamingKzg

  /** The key has a base for every coefficient of every folding; the i-th folding of n
      coefficients has CeilHalf(n, i) of them. */
  ghost predicate KeyFits(g: seq<Fp>, n: nat, depth: nat) {
    forall i :: 1 <= i <= depth ==> CeilHalf(n, i) <= |g|
  }

  /** One level of the commitment loop: the bases still to be used and the sum so far, after
      the items done. */
  ghost predicate CommitState(bases: seq<Fp>, rest: seq<Fp>, sum: Fp, done: seq<Fp>) {
    |done| <= |bases| && rest == bases[|done|..] && sum == Inner(bases, done)
  }

  ghost predicate CommitAt(g: seq<Fp>, n: nat, i: nat, rest: seq<Fp>, sum: Fp, done: seq<Fp>) {
    CeilHalf(n, i) <= |g| && CommitState(StreamBases(g, CeilHalf(n, i)), rest, sum, done)
  }

  lemma ItemsAtPush(items: seq<Item>, item: Item, i: nat)
    ensures ItemsAt(items + [item], i) == ItemsAt(items, i) + if item.0 == i then [item.1] else []
  {
    assert (items + [item])[..|items|] == items;
  }

  ghost predicate CommitAll(g: seq<Fp>, n: nat, depth: nat, rests: seq<seq<Fp>>, sums: seq<Fp>, items: seq<Item>)
    requires |rests| == |sums| == depth
  {
    forall i :: 1 <= i <= depth ==> CommitAt(g, n, i, rests[i - 1], sums[i - 1], ItemsAt(items, i))
  }

  lemma CommitAtStep(g: seq<Fp>, n: nat, i: nat, rest: seq<Fp>, sum: Fp, done: seq<Fp>, v: Fp)
    requires CommitAt(g, n, i, rest, sum, done) && |done| < CeilHalf(n, i)
    ensures |rest| > 0 && CommitAt(g, n, i, rest[1..], Add(sum, Mul(rest[0], v)), done + [v])
  {
    InnerExtend(StreamBases(g, CeilHalf(n, i)), done, v);
  }

  lemma CommitStep(g: seq<Fp>, n: nat, depth: nat, rests: seq<seq<Fp>>, sums: seq<Fp>, items: seq<Item>, item: Item)
    requires |rests| == |sums| == depth && CommitAll(g, n, depth, rests, sums, items)
    requires 1 <= item.0 <= depth && |ItemsAt(items, item.0)| < CeilHalf(n, item.0)
    ensures var l := item.0 - 1;
            && |rests[l]| > 0
            && CommitAll(g, n, depth, rests[l := rests[l][1..]], sums[l := Add(sums[l], Mul(rests[l][0], item.1))],
                         items + [item])
  {
    var l := item.0 - 1;
    assert CommitAt(g, n, item.0, rests[l], sums[l], ItemsAt(items, item.0));
    CommitAtStep(g, n, item.0, rests[l], sums[l], ItemsAt(items, item.0), item.1);
    var rests' := rests[l := rests[l][1..]];
    var sums': seq<Fp> := sums[l := Add(sums[l], Mul(rests[l][0], item.1))];
    forall i | 1 <= i <= depth ensures CommitAt(g, n, i, rests'[i - 1], sums'[i - 1], ItemsAt(items + [item], i)) {
      assert CommitAt(g, n, i, rests[i - 1], sums[i - 1], ItemsAt(items, i));
      ItemsAtPush(items, item, i);
      if i != item.0 {
        assert ItemsAt(items + [item], i) == ItemsAt(items, i);
      }
    }
  }

  /** The next item of level i still has a base. */
  lemma BaseLeft(ch: seq<Fp>, pad: nat, stack: seq<Item>, items: seq<Item>, item: Item, seen: seq<Fp>,
                 carry: Option<nat>, rest: seq<Fp>, f: seq<Fp>)
    requires TreeInv(ch, pad, stack, items + [item], seen, carry)
    requires 1 <= item.0 <= |ch| && HalvesEvenly(pad + |f|, |ch|) && seen + rest == Zeros(pad) + Rev(f)
    ensures |ItemsAt(items, item.0)| < CeilHalf(|f|, item.0)
  {
    TreeBound(ch, pad, stack, items + [item], seen, carry, rest, f, item.0);
    ItemsAtPush(items, item, item.0);
    FoldingHalves(ch, item.0, f);
  }

  /** For every level the streaming key without the bases of too high a degree. */
  method FoldedBases(g: seq<Fp>, n: nat, depth: nat) returns (bases: seq<seq<Fp>>)
    requires KeyFits(g, n, depth)
    ensures |bases| == depth
    ensures forall i :: 1 <= i <= depth ==> CeilHalf(n, i) <= |g| && bases[i - 1] == StreamBases(g, CeilHalf(n, i))
  {
    bases := [];
    for i := 1 to depth + 1
      invariant |bases| == i - 1
      invariant forall j :: 1 <= j < i ==> CeilHalf(n, j) <= |g| && bases[j - 1] == StreamBases(g, CeilHalf(n, j))
    {
      CeilHalfIsCeilDiv(n, i);
      var delta := |g| - CeilDiv(n, Pow2(i));
      bases := bases + [Rev(g)[delta..]];
    }
  }

  /** commit_folding: the commitments to all foldings of f. */
  method CommitFolding(g: seq<Fp>, f: seq<Fp>, challenges: seq<Fp>) returns (commitments: seq<Fp>)
    requires KeyFits(g, |f|, |challenges|)
    ensures |commitments| == |challenges|
    ensures forall i :: 1 <= i <= |challenges| ==>
              commitments[i - 1] == Commit(g, Folding(challenges, i, f))
  {
    var n := |challenges|;
    var foldedBases := FoldedBases(g, |f|, n);
    var pippengers: seq<Fp> := Zeros(n);
    var tree := new FoldedPolynomialTreeIter(Rev(f), challenges);
    ghost var items: seq<Item> := [];
    var next := tree.Next();
    while next.Some?
      invariant tree.Valid()
      invariant next.Some? ==> 1 <= next.value.0 <= n
      invariant tree.emitted == items + if next.Some? then [next.value] else []
      invariant next.None? ==> tree.seen == Zeros(tree.pad) + Rev(f) && tree.carry == None
      invariant |pippengers| == |foldedBases| == n
      invariant CommitAll(g, |f|, n, foldedBases, pippengers, items)
      decreases next.Some?, tree.Remaining()
    {
      var (i, coefficient) := next.value;
      BaseLeft(challenges, tree.pad, tree.stack, items, next.value, tree.seen, tree.carry, tree.source, f);
      CommitStep(g, |f|, n, foldedBases, pippengers, items, next.value);
      var base := foldedBases[i - 1][0];
      foldedBases := foldedBases[i - 1 := foldedBases[i - 1][1..]];
      pippengers := pippengers[i - 1 := Add(pippengers[i - 1], Mul(base, coefficient))];
      items := items + [next.value];
      next := tree.Next();
    }
    commitments := pippengers;
    assert tree.emitted == items;
    TreeEnd(challenges, tree.pad, tree.stack, items, f);
    CommitAllEnd(g, f, challenges, foldedBases, pippengers, items);
  }

  lemma CommitAllEnd(g: seq<Fp>, f: seq<Fp>, ch: seq<Fp>, rests: seq<seq<Fp>>, sums: seq<Fp>, items: seq<Item>)
    requires |rests| == |sums| == |ch| && CommitAll(g, |f|, |ch|, rests, sums, items)
    requires forall i :: 1 <= i <= |ch| ==> ItemsAt(items, i) == Rev(Folding(ch, i, f))
    ensures forall i :: 1 <= i <= |ch| ==> sums[i - 1] == Commit(g, Folding(ch, i, f))
  {
    forall i | 1 <= i <= |ch| ensures sums[i - 1] == Commit(g, Folding(ch, i, f)) {
      assert CommitAt(g, |f|, i, rests[i - 1], sums[i - 1], ItemsAt(items, i));
      CommitAtEnd(g, f, ch, i, rests[i - 1], sums[i - 1], ItemsAt(items, i));
    }
  }

  lemma CommitAtEnd(g: seq<Fp>, f: seq<Fp>, ch: seq<Fp>, i: nat, rest: seq<Fp>, sum: Fp, done: seq<Fp>)
    requires i <= |ch| && CommitAt(g, |f|, i, rest, sum, done) && done == Rev(Folding(ch, i, f))
    ensures sum == Commit(g, Folding(ch, i, f))
  {
    FoldingHalves(ch, i, f);
    StreamCommit(g, done);
    RevRev(Folding(ch, i, f));
  }

  // ----- opening all foldings at once

  /** One level of the opening loop: the bases still to be used, the deque, and the commitment
      to the quotient so far, after the items done. */
  ghost predicate OpenAt(g: seq<Fp>, n: nat, z: seq<Fp>, i: nat, rest: seq<Fp>, deque: seq<Fp>, comm: Fp,
                         done: seq<Fp>)
    requires |z| >= 2
  {
    && CeilHalf(n, i) <= |g| && |done| <= CeilHalf(n, i)
    && rest == StreamBases(g, CeilHalf(n, i))[|done|..] && deque == Divide(z, done).1
    && comm == Inner(StreamBases(g, CeilHalf(n, i)), Divide(z, done).0)
  }

  lemma OpenAtStep(g: seq<Fp>, n: nat, z: seq<Fp>, i: nat, rest: seq<Fp>, deque: seq<Fp>, comm: Fp,
                   done: seq<Fp>, v: Fp)
    requires |z| >= 2 && OpenAt(g, n, z, i, rest, deque, comm, done) && |done| < CeilHalf(n, i)
    ensures |rest| > 0 && |deque| == |z| - 1
    ensures OpenAt(g, n, z, i, rest[1..], Reduce(deque[1..] + [v], z, deque[0]), Add(comm, Mul(rest[0], deque[0])),
                   done + [v])
  {
    assert (done + [v])[..|done|] == done;
    InnerExtend(StreamBases(g, CeilHalf(n, i)), Divide(z, done).0, deque[0]);
  }

  ghost predicate OpenAll(g: seq<Fp>, n: nat, z: seq<Fp>, depth: nat, rests: seq<seq<Fp>>, deques: seq<seq<Fp>>,
                          comms: seq<Fp>, items: seq<Item>)
    requires |rests| == |deques| == |comms| == depth && |z| >= 2
  {
    forall i :: 1 <= i <= depth ==> OpenAt(g, n, z, i, rests[i - 1], deques[i - 1], comms[i - 1], ItemsAt(items, i))
  }

  lemma OpenAllStep(g: seq<Fp>, n: nat, z: seq<Fp>, depth: nat, rests: seq<seq<Fp>>, deques: seq<seq<Fp>>,
                    comms: seq<Fp>, items: seq<Item>, item: Item, rest: seq<Fp>, deque: seq<Fp>, comm: Fp)
    requires |rests| == |deques| == |comms| == depth && |z| >= 2
    requires OpenAll(g, n, z, depth, rests, deques, comms, items)
    requires 1 <= item.0 <= depth && OpenAt(g, n, z, item.0, rest, deque, comm, ItemsAt(items, item.0) + [item.1])
    ensures var l := item.0 - 1;
            OpenAll(g, n, z, depth, rests[l := rest], deques[l := deque], comms[l := comm], items + [item])
  {
    var l := item.0 - 1;
    var rests', deques' := rests[l := rest], deques[l := deque];
    var comms': seq<Fp> := comms[l := comm];
    forall i | 1 <= i <= depth
      ensures OpenAt(g, n, z, i, rests'[i - 1], deques'[i - 1], comms'[i - 1], ItemsAt(items + [item], i))
    {
      ItemsAtPush(items, item, i);
      if i != item.0 {
        assert ItemsAt(items + [item], i) == ItemsAt(items, i);
        assert OpenAt(g, n, z, i, rests[i - 1], deques[i - 1], comms[i - 1], ItemsAt(items, i));
      }
    }
  }

  /** The invariant of the opening loop, as a whole: Peek opens it.  The sum is the batched
      commitment to the quotients so far. */
  ghost predicate OpenInv(g: seq<Fp>, n: nat, z: seq<Fp>, etas: seq<Fp>, depth: nat, rests: seq<seq<Fp>>,
                          deques: seq<seq<Fp>>, comms: seq<Fp>, sum: Fp, items: seq<Item>)
    requires |rests| == |deques| == |comms| == depth && |z| >= 2
  {
    forall u :: Peek(u) ==>
      OpenAll(g, n, z, depth, rests, deques, comms, items) && sum == Inner(etas, comms)
  }

  lemma OpenInvStart(g: seq<Fp>, n: nat, z: seq<Fp>, etas: seq<Fp>, depth: nat, rests: seq<seq<Fp>>,
                     deques: seq<seq<Fp>>)
    requires |rests| == |deques| == depth && |z| >= 2
    requires forall i :: 1 <= i <= depth ==> CeilHalf(n, i) <= |g| && rests[i - 1] == StreamBases(g, CeilHalf(n, i))
    requires forall l :: 0 <= l < depth ==> deques[l] == Zeros(|z| - 1)
    ensures OpenInv(g, n, z, etas, depth, rests, deques, Zeros(depth), 0, [])
  {
    InnerZeros(depth, etas);
  }

  /** One item: its level's base and deque entry are there, and using them keeps the invariant. */
  lemma OpenInvStep(g: seq<Fp>, n: nat, z: seq<Fp>, etas: seq<Fp>, depth: nat, rests: seq<seq<Fp>>,
                    deques: seq<seq<Fp>>, comms: seq<Fp>, sum: Fp, items: seq<Item>, item: Item)
    requires |rests| == |deques| == |comms| == depth <= |etas| && |z| >= 2
    requires OpenInv(g, n, z, etas, depth, rests, deques, comms, sum, items)
    requires 1 <= item.0 <= depth && |ItemsAt(items, item.0)| < CeilHalf(n, item.0)
    ensures var l := item.0 - 1;
            && |rests[l]| > 0 && |deques[l]| == |z| - 1
            && OpenInv(g, n, z, etas, depth, rests[l := rests[l][1..]],
                       deques[l := Reduce(deques[l][1..] + [item.1], z, deques[l][0])],
                       comms[l := Add(comms[l], Mul(rests[l][0], deques[l][0]))],
                       Add(sum, Mul(rests[l][0], Mul(etas[l], deques[l][0]))), items + [item])
  {
    assert Peek(0);
    var l := item.0 - 1;
    var done := ItemsAt(items, item.0);
    assert OpenAt(g, n, z, item.0, rests[l], deques[l], comms[l], done);
    OpenAtStep(g, n, z, item.0, rests[l], deques[l], comms[l], done, item.1);
    OpenAllStep(g, n, z, depth, rests, deques, comms, items, item, rests[l][1..],
                Reduce(deques[l][1..] + [item.1], z, deques[l][0]), Add(comms[l], Mul(rests[l][0], deques[l][0])));
    InnerUpdate(etas, comms, l, Mul(rests[l][0], deques[l][0]));
    MulSwaps(etas[l], rests[l][0], deques[l][0]);
  }

  /** The commitments to the quotients of the foldings 1..depth. */
  function QuotientCommitments(g: seq<Fp>, f: seq<Fp>, ch: seq<Fp>, z: seq<Fp>, depth: nat): (r: seq<Fp>)
    requires |z| >= 2 && depth <= |ch|
    ensures |r| == depth
    ensures forall k :: 0 <= k < depth ==> r[k] == QuotientCommitment(g, f, ch, z, k + 1)
  {
    seq(depth, k requires 0 <= k < depth => QuotientCommitment(g, f, ch, z, k + 1))
  }

  function QuotientCommitment(g: seq<Fp>, f: seq<Fp>, ch: seq<Fp>, z: seq<Fp>, i: nat): Fp
    requires |z| >= 2 && i <= |ch|
  {
    Commit(g, Rev(Divide(z, Rev(Folding(ch, i, f))).0))
  }

  lemma OpenAtEnd(g: seq<Fp>, f: seq<Fp>, ch: seq<Fp>, z: seq<Fp>, i: nat, rest: seq<Fp>, deque: seq<Fp>, comm: Fp,
                  done: seq<Fp>)
    requires |z| >= 2 && i <= |ch| && OpenAt(g, |f|, z, i, rest, deque, comm, done)
    requires done == Rev(Folding(ch, i, f))
    ensures deque == Divide(z, done).1 && comm == Commit(g, Rev(Divide(z, done).0))
  {
    FoldingHalves(ch, i, f);
    StreamCommit(g, Divide(z, done).0);
  }

  lemma OpenInvEnd(g: seq<Fp>, f: seq<Fp>, ch: seq<Fp>, z: seq<Fp>, etas: seq<Fp>, rests: seq<seq<Fp>>,
                   deques: seq<seq<Fp>>, comms: seq<Fp>, sum: Fp, items: seq<Item>)
    requires |rests| == |deques| == |comms| == |ch| && |z| >= 2
    requires OpenInv(g, |f|, z, etas, |ch|, rests, deques, comms, sum, items)
    requires forall i :: 1 <= i <= |ch| ==> ItemsAt(items, i) == Rev(Folding(ch, i, f))
    ensures forall i :: 1 <= i <= |ch| ==> deques[i - 1] == Divide(z, Rev(Folding(ch, i, f))).1
    ensures sum == Inner(etas, QuotientCommitments(g, f, ch, z, |ch|))
  {
    assert Peek(0);
    forall i | 1 <= i <= |ch|
      ensures deques[i - 1] == Divide(z, Rev(Folding(ch, i, f))).1
      ensures comms[i - 1] == QuotientCommitment(g, f, ch, z, i)
    {
      assert OpenAt(g, |f|, z, i, rests[i - 1], deques[i - 1], comms[i - 1], ItemsAt(items, i));
      OpenAtEnd(g, f, ch, z, i, rests[i - 1], deques[i - 1], comms[i - 1], ItemsAt(items, i));
    }
    forall k | 0 <= k < |ch| ensures comms[k] == QuotientCommitments(g, f, ch, z, |ch|)[k] {
      assert comms[(k + 1) - 1] == QuotientCommitment(g, f, ch, z, k + 1);
    }
    assert comms == QuotientCommitments(g, f, ch, z, |ch|);
  }

  /** One item of the tree: the base of its level is used up, its deque turns, and the quotient
      coefficient goes into the proof. */
  method OpenItem(zeros: seq<Fp>, etas: seq<Fp>, rests: seq<seq<Fp>>, deques: seq<seq<Fp>>, sum: Fp, item: Item)
    returns (rests': seq<seq<Fp>>, deques': seq<seq<Fp>>, sum': Fp)
    requires 1 <= item.0 <= |rests| == |deques| && item.0 <= |etas|
    requires |zeros| >= 2 && |rests[item.0 - 1]| > 0 && |deques[item.0 - 1]| == |zeros| - 1
    ensures var l := item.0 - 1;
            && rests' == rests[l := rests[l][1..]]
            && deques' == deques[l := Reduce(deques[l][1..] + [item.1], zeros, deques[l][0])]
            && sum' == Add(sum, Mul(rests[l][0], Mul(etas[l], deques[l][0])))
  {
    var (i, coefficient) := item;
    var base := rests[i - 1][0];
    rests' := rests[i - 1 := rests[i - 1][1..]];
    var quotientCoefficient, deque := TurnDeque(deques[i - 1], zeros, coefficient);
    deques' := deques[i - 1 := deque];
    var scalar := Mul(etas[i - 1], quotientCoefficient);
    sum' := Add(sum, Mul(base, scalar));
  }

  /** open_folding: the remainders of all foldings modulo the vanishing polynomial of the
      points, and one proof that batches the quotients. */
  method OpenFolding(g: seq<Fp>, f: seq<Fp>, challenges: seq<Fp>, points: seq<Fp>, etas: seq<Fp>)
    returns (remainders: seq<seq<Fp>>, proof: Fp)
    requires KeyFits(g, |f|, |challenges|) && |points| >= 1 && |challenges| <= |etas|
    ensures |remainders| == |challenges|
    ensures forall i :: 1 <= i <= |challenges| ==>
              remainders[i - 1] == Divide(Vanishing(points), Rev(Folding(challenges, i, f))).1
    ensures proof == Inner(etas, QuotientCommitments(g, f, challenges, Vanishing(points), |challenges|))
  {
    var n := |challenges|;
    var pippenger: Fp := 0;
    var zeros := Vanishing(points);
    var foldedBases := FoldedBases(g, |f|, n);
    remainders := seq(n, i => Zeros(|points|));

    var tree := new FoldedPolynomialTreeIter(Rev(f), challenges);
    ghost var items: seq<Item> := [];
    ghost var comms: seq<Fp> := Zeros(n);
    OpenInvStart(g, |f|, zeros, etas, n, foldedBases, remainders);
    var next := tree.Next();
    while next.Some?
      invariant tree.Valid()
      invariant next.Some? ==> 1 <= next.value.0 <= n
      invariant tree.emitted == items + if next.Some? then [next.value] else []
      invariant next.None? ==> tree.seen == Zeros(tree.pad) + Rev(f) && tree.carry == None
      invariant |remainders| == |foldedBases| == |comms| == n
      invariant OpenInv(g, |f|, zeros, etas, n, foldedBases, remainders, comms, pippenger, items)
      decreases next.Some?, tree.Remaining()
    {
      BaseLeft(challenges, tree.pad, tree.stack, items, next.value, tree.seen, tree.carry, tree.source, f);
      OpenInvStep(g, |f|, zeros, etas, n, foldedBases, remainders, comms, pippenger, items, next.value);
      ghost var l := next.value.0 - 1;
      comms := comms[l := Add(comms[l], Mul(foldedBases[l][0], remainders[l][0]))];
      foldedBases, remainders, pippenger := OpenItem(zeros, etas, foldedBases, remainders, pippenger, next.value);
      items := items + [next.value];
      next := tree.Next();
    }
    proof := pippenger;
    assert tree.emitted == items;
    TreeEnd(challenges, tree.pad, tree.stack, items, f);
    OpenInvEnd(g, f, challenges, zeros, etas, foldedBases, remainders, comms, pippenger, items);
  }
}
