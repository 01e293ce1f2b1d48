/** The two iterators over a folded polynomial (streaming_kzg/data_structures.rs): the tree
    iterator yields the items of every level, the stream iterator those of the last level. */
module FoldedPolynomialIterators {
  import opened PrimeField
  import opened Numbers
  import opened Vectors
  import opened FoldedPolynomial

  // ----- one step of the stack machine

  /** What the stack holds after the prefix `seen` of the padded stream: either nothing waits
      to be merged, or the two topmost entries are both of level carry.value. */
  ghost predicate StackInv(ch: seq<Fp>, stack: seq<Item>, seen: seq<Fp>, carry: Option<nat>) {
    match carry
    case None => stack == StackOf(ch, 0, seen)
    case Some(i) =>
      && i < |ch| && |seen| > 0 && AllEvenBelow(ch, i + 1, seen) && |Level(ch, i, seen)| > 0
      && stack == CarryOf(ch, i, Level(ch, i, seen))
  }

  /** The state after an item of level i has been produced. */
  ghost function CarryAfter(ch: seq<Fp>, i: nat, seen: seq<Fp>): Option<nat>
    requires i <= |ch|
  {
    if i == |ch| || |Level(ch, i, seen)| % 2 == 1 then None else Some(i)
  }

  lemma TieIffCarry(ch: seq<Fp>, stack: seq<Item>, seen: seq<Fp>, carry: Option<nat>)
    requires StackInv(ch, stack, seen, carry)
    ensures carry.Some? <==> |stack| > 1 && stack[|stack| - 1].0 == stack[|stack| - 2].0
    ensures forall k :: 0 <= k < |stack| ==> stack[k].0 < |ch|
  {
    StackFalls(ch, 0, seen);
    if carry.Some? {
      var i := carry.value;
      var x := Level(ch, i, seen);
      assert |x| % 2 == 0;
      Merges(ch, i, x);
      StackFalls(ch, i, x[..|x| - 1]);
    }
  }

  /** Level i has just received an item and no lower level is odd. */
  lemma AfterItem(ch: seq<Fp>, i: nat, seen: seq<Fp>)
    requires i <= |ch| && |seen| > 0 && AllEvenBelow(ch, i, seen) && |Level(ch, i, seen)| > 0
    ensures StackInv(ch, CarryOf(ch, i, Level(ch, i, seen)), seen, CarryAfter(ch, i, seen))
  {
    if CarryAfter(ch, i, seen).None? {
      Settles(ch, i, Level(ch, i, seen));
      StackFromLevel(ch, i, seen);
    }
  }

  lemma AfterRead(ch: seq<Fp>, stack: seq<Item>, seen: seq<Fp>, v: Fp)
    requires StackInv(ch, stack, seen, None)
    ensures StackInv(ch, if |ch| == 0 then stack else stack + [(0, v)], seen + [v], CarryAfter(ch, 0, seen + [v]))
  {
    var x := seen + [v];
    assert x[..|x| - 1] == seen;
    AfterItem(ch, 0, x);
  }

  lemma AfterMerge(ch: seq<Fp>, stack: seq<Item>, seen: seq<Fp>, i: nat)
    requires StackInv(ch, stack, seen, Some(i))
    ensures var n, y := |stack|, Level(ch, i + 1, seen);
            && |y| > 0 && n >= 2 && stack[n - 1].0 == i && stack[n - 2].0 == i
            && y[|y| - 1] == Add(Mul(stack[n - 2].1, ch[i]), stack[n - 1].1)
            && StackInv(ch, if i + 1 == |ch| then stack[..n - 2] else stack[..n - 2] + [(i + 1, y[|y| - 1])],
                        seen, CarryAfter(ch, i + 1, seen))
  {
    Merges(ch, i, Level(ch, i, seen));
    AfterItem(ch, i + 1, seen);
  }

  // ----- what has been produced so far

  /** The values of level i among a list of items, in order. */
  function ItemsAt(items: seq<Item>, i: nat): seq<Fp> {
    if items == [] then [] else
      var last := items[|items| - 1];
      ItemsAt(items[..|items| - 1], i) + if last.0 == i then [last.1] else []
  }

  /** The items of level i that the prefix seen has completed. */
  ghost function Done(ch: seq<Fp>, i: nat, seen: seq<Fp>, carry: Option<nat>): seq<Fp>
    requires i <= |ch| && (carry.Some? ==> |seen| > 0)
  {
    if carry.None? || i <= carry.value then Level(ch, i, seen) else Level(ch, i, seen[..|seen| - 1])
  }

  lemma DoneAfterRead(ch: seq<Fp>, i: nat, seen: seq<Fp>, v: Fp)
    requires 1 <= i <= |ch|
    ensures Done(ch, i, seen + [v], CarryAfter(ch, 0, seen + [v])) == Done(ch, i, seen, None)
  {
    var x := seen + [v];
    assert x[..|x| - 1] == seen;
    if CarryAfter(ch, 0, x).None? { LevelKeeps(ch, 0, i, x); }
  }

  lemma DoneAfterMerge(ch: seq<Fp>, i: nat, seen: seq<Fp>, j: nat)
    requires 1 <= i <= |ch| && j < |ch|
    requires |seen| > 0 && AllEvenBelow(ch, j + 1, seen) && |Level(ch, j, seen)| > 0
    ensures |Level(ch, j + 1, seen)| > 0
    ensures Done(ch, i, seen, CarryAfter(ch, j + 1, seen))
            == Done(ch, i, seen, Some(j)) + if i == j + 1 then [Level(ch, i, seen)[|Level(ch, i, seen)| - 1]] else []
  {
    assert |Level(ch, j, seen)| % 2 == 0;
    if i == j + 1 {
      LevelDrop(ch, i, seen);
    } else if i > j + 1 && CarryAfter(ch, j + 1, seen).None? {
      LevelKeeps(ch, j + 1, i, seen);
    }
  }

  /** Padding aside, the items of level i so far are the completed ones, in order. */
  ghost predicate EmittedAt(ch: seq<Fp>, pad: nat, items: seq<Item>, i: nat, seen: seq<Fp>, carry: Option<nat>)
    requires i <= |ch| && (carry.Some? ==> |seen| > 0)
  {
    Level(ch, i, Zeros(pad)) + ItemsAt(items, i) == Done(ch, i, seen, carry)
  }

  ghost predicate EmittedInv(ch: seq<Fp>, pad: nat, items: seq<Item>, seen: seq<Fp>, carry: Option<nat>) {
    && (carry.Some? ==> |seen| > 0)
    && (forall k :: 0 <= k < |items| ==> 1 <= items[k].0 <= |ch|)
    && forall i :: 1 <= i <= |ch| ==> EmittedAt(ch, pad, items, i, seen, carry)
  }

  lemma EmittedAfterRead(ch: seq<Fp>, pad: nat, items: seq<Item>, seen: seq<Fp>, v: Fp)
    requires EmittedInv(ch, pad, items, seen, None)
    ensures EmittedInv(ch, pad, items, seen + [v], CarryAfter(ch, 0, seen + [v]))
  {
    forall i | 1 <= i <= |ch|
      ensures EmittedAt(ch, pad, items, i, seen + [v], CarryAfter(ch, 0, seen + [v]))
    {
      assert EmittedAt(ch, pad, items, i, seen, None);
      DoneAfterRead(ch, i, seen, v);
    }
  }

  lemma EmittedAtAfterMerge(ch: seq<Fp>, pad: nat, items: seq<Item>, i: nat, seen: seq<Fp>, j: nat, item: Item)
    requires 1 <= i <= |ch| && j < |ch|
    requires |seen| > 0 && AllEvenBelow(ch, j + 1, seen) && |Level(ch, j, seen)| > 0
    requires item.0 == j + 1 && |Level(ch, j + 1, seen)| > 0
    requires item.1 == Level(ch, j + 1, seen)[|Level(ch, j + 1, seen)| - 1]
    requires EmittedAt(ch, pad, items, i, seen, Some(j))
    ensures EmittedAt(ch, pad, items + [item], i, seen, CarryAfter(ch, j + 1, seen))
  {
    assert (items + [item])[..|items|] == items;
    DoneAfterMerge(ch, i, seen, j);
    assert ItemsAt(items + [item], i) == ItemsAt(items, i) + if i == j + 1 then [item.1] else [];
  }

  lemma EmittedAfterMerge(ch: seq<Fp>, pad: nat, items: seq<Item>, seen: seq<Fp>, j: nat)
    requires EmittedInv(ch, pad, items, seen, Some(j))
    requires j < |ch| && AllEvenBelow(ch, j + 1, seen) && |Level(ch, j, seen)| > 0 && |Level(ch, j + 1, seen)| > 0
    ensures var y := Level(ch, j + 1, seen);
            EmittedInv(ch, pad, items + [(j + 1, y[|y| - 1])], seen, CarryAfter(ch, j + 1, seen))
  {
    var y := Level(ch, j + 1, seen);
    var item := (j + 1, y[|y| - 1]);
    var items', carry' := items + [item], CarryAfter(ch, j + 1, seen);
    forall i | 1 <= i <= |ch| ensures EmittedAt(ch, pad, items', i, seen, carry') {
      EmittedAtAfterMerge(ch, pad, items, i, seen, j, item);
    }
  }

  lemma EmittedAtStart(ch: seq<Fp>, pad: nat)
    ensures EmittedInv(ch, pad, [], Zeros(pad), None)
  {
  }

  /** When the stream is exhausted, the items of level i are the i-th folding, highest degree
      first. */
  lemma EmittedAtEnd(ch: seq<Fp>, pad: nat, items: seq<Item>, f: seq<Fp>, i: nat)
    requires HalvesEvenly(pad + |f|, |ch|) && 1 <= i <= |ch|
    requires EmittedAt(ch, pad, items, i, Zeros(pad) + Rev(f), None)
    ensures ItemsAt(items, i) == Rev(Folding(ch, i, f))
  {
    var z, x, y := Level(ch, i, Zeros(pad)), ItemsAt(items, i), Rev(Folding(ch, i, f));
    assert z + x == z + y by {
      LevelsFold(ch, i, pad, f);
      LevelOfZeros(ch, i, pad);
    }
    assert x == (z + x)[|z|..] && y == (z + y)[|z|..];
  }

  /** The invariant of the tree iterator, as a whole: Peek opens it. */
  ghost predicate TreeInv(ch: seq<Fp>, pad: nat, stack: seq<Item>, items: seq<Item>, seen: seq<Fp>,
                          carry: Option<nat>) {
    forall u :: Peek(u) ==> StackInv(ch, stack, seen, carry) && EmittedInv(ch, pad, items, seen, carry)
  }

  lemma TreeStart(ch: seq<Fp>, pad: nat)
    ensures TreeInv(ch, pad, ZeroStack(|ch|, 0, pad), [], Zeros(pad), None)
  {
    ZeroStackIsStack(ch, 0, pad);
    EmittedAtStart(ch, pad);
  }

  lemma TreeTie(ch: seq<Fp>, pad: nat, stack: seq<Item>, items: seq<Item>, seen: seq<Fp>, carry: Option<nat>)
    requires TreeInv(ch, pad, stack, items, seen, carry)
    ensures carry.Some? <==> |stack| > 1 && stack[|stack| - 1].0 == stack[|stack| - 2].0
    ensures carry.Some? ==> carry.value == stack[|stack| - 1].0 < |ch|
  {
    assert Peek(0);
    TieIffCarry(ch, stack, seen, carry);
    if carry.Some? { Merges(ch, carry.value, Level(ch, carry.value, seen)); }
  }

  /** The stack is a binary counter: levels fall strictly towards the top, except that the two
      topmost entries may tie. */
  lemma TreeStackFalls(ch: seq<Fp>, pad: nat, stack: seq<Item>, items: seq<Item>, seen: seq<Fp>, carry: Option<nat>)
    requires TreeInv(ch, pad, stack, items, seen, carry)
    ensures forall j, k :: 0 <= j < k < |stack| ==>
              stack[j].0 > stack[k].0 || (j == |stack| - 2 && k == |stack| - 1 && stack[j].0 == stack[k].0)
    ensures |stack| <= |ch| + 1
  {
    assert StackInv(ch, stack, seen, carry) by { assert Peek(0); }
    if carry.None? {
      StackFalls(ch, 0, seen);
      StackBound(stack, |ch|);
    } else {
      var x := Level(ch, carry.value, seen);
      var lower := StackOf(ch, carry.value, x[..|x| - 1]);
      StackFalls(ch, carry.value, x[..|x| - 1]);
      StackBound(lower, |ch|);
      Merges(ch, carry.value, x);
      assert stack == lower + [stack[|stack| - 1]];
    }
  }

  lemma {:induction false} StackBound(stack: seq<Item>, bound: nat)
    requires forall k :: 0 <= k < |stack| ==> stack[k].0 < bound
    requires forall j, k :: 0 <= j < k < |stack| ==> stack[j].0 > stack[k].0
    ensures |stack| <= bound
  {
    if stack != [] {
      var rest := stack[1..];
      assert forall k :: 0 <= k < |rest| ==> rest[k] == stack[k + 1];
      StackBound(rest, stack[0].0);
    }
  }

  lemma TreeRead(ch: seq<Fp>, pad: nat, stack: seq<Item>, items: seq<Item>, seen: seq<Fp>, v: Fp)
    requires TreeInv(ch, pad, stack, items, seen, None)
    ensures TreeInv(ch, pad, if |ch| == 0 then stack else stack + [(0, v)], items, seen + [v],
                    CarryAfter(ch, 0, seen + [v]))
  {
    assert Peek(0);
    AfterRead(ch, stack, seen, v);
    EmittedAfterRead(ch, pad, items, seen, v);
  }

  lemma TreeMerge(ch: seq<Fp>, pad: nat, stack: seq<Item>, items: seq<Item>, seen: seq<Fp>, i: nat, item: Item)
    requires TreeInv(ch, pad, stack, items, seen, Some(i))
    requires i < |ch| && |stack| > 1
    requires item == (i + 1, Add(Mul(stack[|stack| - 2].1, ch[i]), stack[|stack| - 1].1))
    ensures TreeInv(ch, pad, stack[..|stack| - 2] + if i + 1 == |ch| then [] else [item], items + [item], seen,
                    CarryAfter(ch, i + 1, seen))
  {
    assert Peek(0);
    AfterMerge(ch, stack, seen, i);
    EmittedAfterMerge(ch, pad, items, seen, i);
  }

  lemma TreeEnd(ch: seq<Fp>, pad: nat, stack: seq<Item>, items: seq<Item>, f: seq<Fp>)
    requires HalvesEvenly(pad + |f|, |ch|)
    requires TreeInv(ch, pad, stack, items, Zeros(pad) + Rev(f), None)
    ensures forall k :: 0 <= k < |items| ==> 1 <= items[k].0 <= |ch|
    ensures forall i :: 1 <= i <= |ch| ==> ItemsAt(items, i) == Rev(Folding(ch, i, f))
  {
    assert Peek(0);
    forall i | 1 <= i <= |ch| ensures ItemsAt(items, i) == Rev(Folding(ch, i, f)) {
      assert EmittedAt(ch, pad, items, i, Zeros(pad) + Rev(f), None);
      EmittedAtEnd(ch, pad, items, f, i);
    }
  }

  lemma DoneLength(ch: seq<Fp>, i: nat, seen: seq<Fp>, carry: Option<nat>)
    requires i <= |ch| && (carry.Some? ==> |seen| > 0)
    ensures |Done(ch, i, seen, carry)| <= FloorHalf(|seen|, i)
  {
    LevelLength(ch, i, seen);
    if carry.Some? {
      LevelLength(ch, i, seen[..|seen| - 1]);
      FloorHalfMonotone(|seen| - 1, |seen|, i);
    }
  }

  lemma ItemsBound(ch: seq<Fp>, pad: nat, stack: seq<Item>, items: seq<Item>, seen: seq<Fp>, carry: Option<nat>,
                   n: nat, i: nat)
    requires TreeInv(ch, pad, stack, items, seen, carry)
    requires 1 <= i <= |ch| && |seen| <= n
    ensures FloorHalf(pad, i) + |ItemsAt(items, i)| <= FloorHalf(n, i)
  {
    assert EmittedAt(ch, pad, items, i, seen, carry) && (carry.Some? ==> |seen| > 0) by { assert Peek(0); }
    DoneLength(ch, i, seen, carry);
    LevelLength(ch, i, Zeros(pad));
    FloorHalfMonotone(|seen|, n, i);
  }

  lemma PaddedFoldingLength(ch: seq<Fp>, pad: nat, f: seq<Fp>, i: nat)
    requires i <= |ch| && HalvesEvenly(pad + |f|, |ch|)
    ensures FloorHalf(pad, i) + |Folding(ch, i, f)| == FloorHalf(pad + |f|, i)
  {
    LevelsFold(ch, i, pad, f);
    LevelLength(ch, i, Zeros(pad) + Rev(f));
  }

  /** No level ever produces more items than its folding has coefficients. */
  lemma TreeBound(ch: seq<Fp>, pad: nat, stack: seq<Item>, items: seq<Item>, seen: seq<Fp>, carry: Option<nat>,
                  rest: seq<Fp>, f: seq<Fp>, i: nat)
    requires TreeInv(ch, pad, stack, items, seen, carry)
    requires 1 <= i <= |ch| && HalvesEvenly(pad + |f|, |ch|) && seen + rest == Zeros(pad) + Rev(f)
    ensures |ItemsAt(items, i)| <= |Folding(ch, i, f)|
  {
    assert |seen| <= pad + |f| by { assert |seen| <= |Zeros(pad) + Rev(f)|; }
    ItemsBound(ch, pad, stack, items, seen, carry, pad + |f|, i);
    PaddedFoldingLength(ch, pad, f, i);
  }

  // ----- the tree iterator

  /** Iterator of the polynomial tree: FoldedPolynomialTreeIter. */
  class FoldedPolynomialTreeIter {
    const challenges: seq<Fp>
    var source: seq<Fp>  // what the underlying iterator has yet to yield
    var stack: seq<Item>

    ghost const stream: seq<Fp>  // all that the underlying iterator yields
    ghost const pad: nat
    ghost var seen: seq<Fp>      // the padding and the coefficients read so far
    ghost var carry: Option<nat>
    ghost var emitted: seq<Item>

    ghost predicate Valid()
      reads this
    {
      && seen + source == Zeros(pad) + stream
      && TreeInv(challenges, pad, stack, emitted, seen, carry)
    }

    /** Bounds the number of calls to Next that still yield an item. */
    ghost function Remaining(): nat
      reads this
    {
      2 * |source| + |stack|
    }

    constructor (source: seq<Fp>, challenges: seq<Fp>)
      ensures Valid() && this.source == stream == source && this.challenges == challenges
      ensures emitted == [] && HalvesEvenly(pad + |stream|, |challenges|)
    {
      var initial := InitStack(|source|, |challenges|);
      this.challenges := challenges;
      this.source := source;
      stack := initial;
      stream := source;
      pad := Padding(|source|, |challenges|);
      seen := Zeros(Padding(|source|, |challenges|));
      carry := None;
      emitted := [];
      new;
      PaddingHalves(|source|, |challenges|);
      TreeStart(challenges, pad);
    }

    /** Yields the next item above level 0, or None once the stream is exhausted. */
    method Next() returns (r: Option<Item>)
      requires Valid()
      modifies this
      ensures Valid()
      ensures r.Some? ==> emitted == old(emitted) + [r.value] && 1 <= r.value.0 <= |challenges|
      ensures r.Some? ==> Remaining() < old(Remaining())
      ensures r.None? ==> emitted == old(emitted) && source == [] && seen == Zeros(pad) + stream && carry == None
      decreases |source|
    {
      TreeTie(challenges, pad, stack, emitted, seen, carry);
      var len := |stack|;
      var item: Item;
      if len > 1 && stack[len - 1].0 == stack[len - 2].0 {
        var (_, lhs) := stack[len - 1];
        var (level, rhs) := stack[len - 2];
        var foldedCoefficient := Add(Mul(rhs, challenges[level]), lhs);
        item := (level + 1, foldedCoefficient);
        TreeMerge(challenges, pad, stack, emitted, seen, level, item);
        stack := stack[..len - 2];
        emitted := emitted + [item];
        carry := CarryAfter(challenges, level + 1, seen);
      } else {
        if source == [] {
          return None;
        }
        TreeRead(challenges, pad, stack, emitted, seen, source[0]);
        item := (0, source[0]);
        seen := seen + [source[0]];
        source := source[1..];
        carry := CarryAfter(challenges, 0, seen);
      }
      if item.0 != |challenges| {
        stack := stack + [item];
      }
      if item.0 == 0 {
        r := Next();
      } else {
        r := Some(item);
      }
    }
  }

  /** A whole run of the tree iterator over the coefficients of f, given highest degree first. */
  method Collect(f: seq<Fp>, challenges: seq<Fp>) returns (items: seq<Item>)
    ensures forall k :: 0 <= k < |items| ==> 1 <= items[k].0 <= |challenges|
    ensures forall i :: 1 <= i <= |challenges| ==> ItemsAt(items, i) == Rev(Folding(challenges, i, f))
  {
    var tree := new FoldedPolynomialTreeIter(Rev(f), challenges);
    items := [];
    var item := tree.Next();
    while item.Some?
      invariant tree.Valid()
      invariant tree.emitted == items + if item.Some? then [item.value] else []
      invariant item.None? ==> tree.seen == Zeros(tree.pad) + Rev(f) && tree.carry == None
      decreases item.Some?, tree.Remaining()
    {
      items := items + [item.value];
      item := tree.Next();
    }
    assert tree.emitted == items;
    TreeEnd(challenges, tree.pad, tree.stack, items, f);
  }

  // ----- the stream iterator

  /** The invariant of the stream iterator, as a whole: Peek opens it. */
  ghost predicate StreamInv(ch: seq<Fp>, pad: nat, stack: seq<Item>, items: seq<Fp>, seen: seq<Fp>,
                            carry: Option<nat>) {
    forall u :: Peek(u) ==>
      && StackInv(ch, stack, seen, carry)
      && Level(ch, |ch|, Zeros(pad)) + items == Done(ch, |ch|, seen, carry)
  }

  lemma StreamStart(ch: seq<Fp>, pad: nat)
    ensures StreamInv(ch, pad, ZeroStack(|ch|, 0, pad), [], Zeros(pad), None)
  {
    ZeroStackIsStack(ch, 0, pad);
  }

  lemma StreamTie(ch: seq<Fp>, pad: nat, stack: seq<Item>, items: seq<Fp>, seen: seq<Fp>, carry: Option<nat>)
    requires StreamInv(ch, pad, stack, items, seen, carry)
    ensures carry.Some? <==> |stack| > 1 && stack[|stack| - 1].0 == stack[|stack| - 2].0
    ensures carry.Some? ==> carry.value == stack[|stack| - 1].0 < |ch|
  {
    assert Peek(0);
    TieIffCarry(ch, stack, seen, carry);
    if carry.Some? { Merges(ch, carry.value, Level(ch, carry.value, seen)); }
  }

  /** A single coefficient waits on the stack exactly while an odd number has been seen. */
  lemma StreamTop(ch: seq<Fp>, pad: nat, stack: seq<Item>, items: seq<Fp>, seen: seq<Fp>)
    requires StreamInv(ch, pad, stack, items, seen, None) && |ch| > 0
    ensures |seen| % 2 == 1 <==> |stack| > 0 && stack[|stack| - 1].0 == 0
  {
    var deeper := StackOf(ch, 1, Pairs(ch[0], seen));
    assert stack == deeper + if |seen| % 2 == 1 then [(0, seen[|seen| - 1])] else [] by { assert Peek(0); }
    StackFalls(ch, 1, Pairs(ch[0], seen));
  }

  lemma StreamRead(ch: seq<Fp>, pad: nat, stack: seq<Item>, items: seq<Fp>, seen: seq<Fp>, v: Fp)
    requires StreamInv(ch, pad, stack, items, seen, None)
    ensures |ch| == 0 ==> StreamInv(ch, pad, stack, items + [v], seen + [v], None)
    ensures |ch| > 0 ==> StreamInv(ch, pad, stack + [(0, v)], items, seen + [v], CarryAfter(ch, 0, seen + [v]))
  {
    assert Peek(0);
    AfterRead(ch, stack, seen, v);
    if |ch| > 0 { DoneAfterRead(ch, |ch|, seen, v); }
  }

  lemma StreamMerge(ch: seq<Fp>, pad: nat, stack: seq<Item>, items: seq<Fp>, seen: seq<Fp>, i: nat, v: Fp)
    requires StreamInv(ch, pad, stack, items, seen, Some(i))
    requires i < |ch| && |stack| > 1 && v == Add(Mul(stack[|stack| - 2].1, ch[i]), stack[|stack| - 1].1)
    ensures i + 1 == |ch| ==>
              StreamInv(ch, pad, stack[..|stack| - 2], items + [v], seen, CarryAfter(ch, i + 1, seen))
    ensures i + 1 < |ch| ==>
              StreamInv(ch, pad, stack[..|stack| - 2] + [(i + 1, v)], items, seen, CarryAfter(ch, i + 1, seen))
  {
    assert Peek(0);
    AfterMerge(ch, stack, seen, i);
    StreamDoneAfterMerge(ch, pad, items, seen, i);
  }

  lemma StreamDoneAfterMerge(ch: seq<Fp>, pad: nat, items: seq<Fp>, seen: seq<Fp>, i: nat)
    requires i < |ch| && |seen| > 0 && AllEvenBelow(ch, i + 1, seen) && |Level(ch, i, seen)| > 0
    requires Level(ch, |ch|, Zeros(pad)) + items == Done(ch, |ch|, seen, Some(i))
    ensures var y := Level(ch, i + 1, seen);
            && |y| > 0
            && Level(ch, |ch|, Zeros(pad)) + (if i + 1 == |ch| then items + [y[|y| - 1]] else items)
               == Done(ch, |ch|, seen, CarryAfter(ch, i + 1, seen))
  {
    DoneAfterMerge(ch, |ch|, seen, i);
    var y := Level(ch, i + 1, seen);
    AppendAssociates(Level(ch, |ch|, Zeros(pad)), items, [y[|y| - 1]]);
  }

  /** Reading two coefficients at once is reading one, reading the other and merging them. */
  lemma StreamReadTwo(ch: seq<Fp>, pad: nat, stack: seq<Item>, items: seq<Fp>, seen: seq<Fp>, rhs: Fp, lhs: Fp, v: Fp)
    requires StreamInv(ch, pad, stack, items, seen, None)
    requires |ch| > 0 && |seen| % 2 == 0 && v == Add(Mul(ch[0], rhs), lhs)
    ensures |ch| == 1 ==>
              StreamInv(ch, pad, stack, items + [v], seen + [rhs, lhs], CarryAfter(ch, 1, seen + [rhs, lhs]))
    ensures |ch| > 1 ==>
              StreamInv(ch, pad, stack + [(1, v)], items, seen + [rhs, lhs], CarryAfter(ch, 1, seen + [rhs, lhs]))
  {
    StreamRead(ch, pad, stack, items, seen, rhs);
    assert CarryAfter(ch, 0, seen + [rhs]) == None;
    StreamRead(ch, pad, stack + [(0, rhs)], items, seen + [rhs], lhs);
    var stack', seen' := stack + [(0, rhs)] + [(0, lhs)], seen + [rhs] + [lhs];
    assert CarryAfter(ch, 0, seen') == Some(0);
    assert seen' == seen + [rhs, lhs] && stack'[..|stack'| - 2] == stack;
    Commutes(ch[0], rhs);
    StreamMerge(ch, pad, stack', items, seen', 0, v);
  }

  lemma StreamEnd(ch: seq<Fp>, pad: nat, stack: seq<Item>, items: seq<Fp>, f: seq<Fp>)
    requires HalvesEvenly(pad + |f|, |ch|)
    requires StreamInv(ch, pad, stack, items, Zeros(pad) + Rev(f), None)
    ensures items == Rev(Folding(ch, |ch|, f))
  {
    var z, y := Level(ch, |ch|, Zeros(pad)), Rev(Folding(ch, |ch|, f));
    assert z + items == z + y by {
      assert Peek(0);
      LevelsFold(ch, |ch|, pad, f);
      LevelOfZeros(ch, |ch|, pad);
    }
    assert items == (z + items)[|z|..] && y == (z + y)[|z|..];
  }

  /** Iterator of the last folding only: FoldedPolynomialStreamIter. */
  class FoldedPolynomialStreamIter {
    const challenges: seq<Fp>
    var source: seq<Fp>
    var stack: seq<Item>

    ghost const stream: seq<Fp>
    ghost const pad: nat
    ghost var seen: seq<Fp>
    ghost var carry: Option<nat>
    ghost var emitted: seq<Fp>

    ghost predicate Valid()
      reads this
    {
      && seen + source == Zeros(pad) + stream
      && (|challenges| > 0 ==> (pad + |stream|) % 2 == 0)
      && StreamInv(challenges, pad, stack, emitted, seen, carry)
    }

    ghost function Remaining(): nat
      reads this
    {
      2 * |source| + |stack|
    }

    constructor (source: seq<Fp>, challenges: seq<Fp>)
      ensures Valid() && this.source == stream == source && this.challenges == challenges
      ensures emitted == [] && HalvesEvenly(pad + |stream|, |challenges|)
    {
      var initial := InitStack(|source|, |challenges|);
      this.challenges := challenges;
      this.source := source;
      stack := initial;
      stream := source;
      pad := Padding(|source|, |challenges|);
      seen := Zeros(Padding(|source|, |challenges|));
      carry := None;
      emitted := [];
      new;
      PaddingHalves(|source|, |challenges|);
      assert |challenges| > 0 ==> FloorHalf(pad + |stream|, 0) % 2 == 0;
      StreamStart(challenges, pad);
    }

    /** Reads two coefficients and folds them at once.  No coefficient is lost: after the first
        read of a pair the second never fails. */
    method ReadPair() returns (element: Fp)
      requires Valid() && carry == None && |challenges| > 0 && source != []
      requires |stack| == 0 || stack[|stack| - 1].0 != 0
      modifies `source, `seen, `carry
      ensures seen + source == Zeros(pad) + stream && |source| < old(|source|)
      ensures |challenges| == 1 ==> StreamInv(challenges, pad, stack, emitted + [element], seen, carry)
      ensures |challenges| > 1 ==> StreamInv(challenges, pad, stack + [(1, element)], emitted, seen, carry)
    {
      StreamTop(challenges, pad, stack, emitted, seen);
      assert |seen| + |source| == pad + |stream| by { assert |seen + source| == |Zeros(pad) + stream|; }
      ghost var rest := source;
      var rhs := source[0];
      source := source[1..];
      if source == [] {
        assert false;
      }
      var lhs := source[0];
      source := source[1..];
      element := Add(Mul(challenges[0], rhs), lhs);
      StreamReadTwo(challenges, pad, stack, emitted, seen, rhs, lhs, element);
      assert rest == [rhs, lhs] + source;
      seen := seen + [rhs, lhs];
      carry := CarryAfter(challenges, 1, seen);
    }

    /** Yields the next coefficient of the last folding, or None once the stream is exhausted. */
    method Next() returns (r: Option<Fp>)
      requires Valid()
      modifies this
      ensures Valid()
      ensures r.Some? ==> emitted == old(emitted) + [r.value] && Remaining() < old(Remaining())
      ensures r.None? ==> emitted == old(emitted) && source == [] && seen == Zeros(pad) + stream && carry == None
    {
      var targetLevel := |challenges|;
      while true
        invariant Valid() && emitted == old(emitted) && Remaining() <= old(Remaining())
        decreases Remaining()
      {
        StreamTie(challenges, pad, stack, emitted, seen, carry);
        var len := |stack|;
        var level, element;
        if len > 1 && stack[len - 1].0 == stack[len - 2].0 {
          var (_, lhs) := stack[len - 1];
          var (lvl, rhs) := stack[len - 2];
          level, element := lvl + 1, Add(Mul(rhs, challenges[lvl]), lhs);
          StreamMerge(challenges, pad, stack, emitted, seen, lvl, element);
          stack := stack[..len - 2];
          carry := CarryAfter(challenges, lvl + 1, seen);
          assert level != targetLevel ==> StreamInv(challenges, pad, stack + [(level, element)], emitted, seen, carry);
        } else if targetLevel > 0 && (len == 0 || stack[len - 1].0 != 0) {
          if source == [] {
            return None;
          }
          element := ReadPair();
          level := 1;
        } else {
          if source == [] {
            return None;
          }
          StreamRead(challenges, pad, stack, emitted, seen, source[0]);
          level, element := 0, source[0];
          seen := seen + [source[0]];
          source := source[1..];
          assert seen + source == Zeros(pad) + stream;
          carry := CarryAfter(challenges, 0, seen);
        }
        if level != targetLevel {
          stack := stack + [(level, element)];
        } else {
          emitted := emitted + [element];
          return Some(element);
        }
      }
    }
  }

  /** How many items the stream announces: FoldedPolynomialStream::len. */
  function StreamLen(n: nat, depth: nat): nat {
    CeilDiv(n, Pow2(depth))
  }

  /** A whole run of the stream iterator. */
  method CollectStream(f: seq<Fp>, challenges: seq<Fp>) returns (items: seq<Fp>)
    ensures items == Rev(Folding(challenges, |challenges|, f))
    ensures |items| == StreamLen(|f|, |challenges|)
  {
    var stream := new FoldedPolynomialStreamIter(Rev(f), challenges);
    items := [];
    var item := stream.Next();
    while item.Some?
      invariant stream.Valid()
      invariant stream.emitted == items + if item.Some? then [item.value] else []
      invariant item.None? ==> stream.seen == Zeros(stream.pad) + Rev(f) && stream.carry == None
      decreases item.Some?, stream.Remaining()
    {
      items := items + [item.value];
      item := stream.Next();
    }
    assert stream.emitted == items;
    StreamEnd(challenges, stream.pad, stream.stack, items, f);
    FoldingLength(challenges, |challenges|, f);
  }
}
