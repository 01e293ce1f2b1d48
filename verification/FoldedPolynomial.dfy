/** The one-pass folding of a coefficient stream (streaming_kzg/data_structures.rs).

    Coefficients arrive with the highest degree first.  The iterators keep a stack of
    partial foldings, at most one per level except while two equal levels wait to be
    merged, and never look at the stream twice. */
module FoldedPolynomial {
  import opened PrimeField
  import opened Numbers
  import opened Vectors

  type Item = (nat, Fp)

  // ----- what folding means

  /** One folding of f(X) = e(X^2) + X * o(X^2), lowest degree first: e + c * o. */
  function FoldOnce(c: Fp, f: seq<Fp>): (r: seq<Fp>)
    ensures |r| == (|f| + 1) / 2
  {
    if f == [] then []
    else if |f| == 1 then f
    else [Add(f[0], Mul(c, f[1]))] + FoldOnce(c, f[2..])
  }

  /** The i-th folding of f under the first i challenges. */
  function Folding(ch: seq<Fp>, i: nat, f: seq<Fp>): seq<Fp>
    requires i <= |ch|
  {
    if i == 0 then f else FoldOnce(ch[i - 1], Folding(ch, i - 1, f))
  }

  // ----- the stream's view: complete pairs of a prefix, highest degree first

  function Pairs(c: Fp, x: seq<Fp>): (r: seq<Fp>)
    ensures |r| == |x| / 2
  {
    var n := |x|;
    if n < 2 then []
    else if n % 2 == 1 then Pairs(c, x[..n - 1])
    else Pairs(c, x[..n - 2]) + [Add(Mul(x[n - 2], c), x[n - 1])]
  }

  function Level(ch: seq<Fp>, i: nat, x: seq<Fp>): seq<Fp>
    requires i <= |ch|
  {
    if i == 0 then x else Pairs(ch[i - 1], Level(ch, i - 1, x))
  }

  /** The stack when nothing waits to be merged: for every level with an odd number of
      items, the last of them, higher levels deeper. */
  function StackOf(ch: seq<Fp>, i: nat, x: seq<Fp>): seq<Item>
    requires i <= |ch|
    decreases |ch| - i
  {
    if i == |ch| then [] else
      StackOf(ch, i + 1, Pairs(ch[i], x)) + if |x| % 2 == 1 then [(i, x[|x| - 1])] else []
  }

  /** The stack just after the last item of x has been added at level i. */
  function CarryOf(ch: seq<Fp>, i: nat, x: seq<Fp>): seq<Item>
    requires i <= |ch| && |x| > 0
  {
    if i == |ch| then [] else StackOf(ch, i, x[..|x| - 1]) + [(i, x[|x| - 1])]
  }

  ghost predicate AllEvenBelow(ch: seq<Fp>, i: nat, x: seq<Fp>)
    requires i <= |ch|
  {
    i > 0 ==> AllEvenBelow(ch, i - 1, x) && |Level(ch, i - 1, x)| % 2 == 0
  }

  lemma PairsDrop(c: Fp, x: seq<Fp>)
    requires |x| > 0
    ensures |x| % 2 == 1 ==> Pairs(c, x[..|x| - 1]) == Pairs(c, x)
    ensures |x| % 2 == 0 ==>
      Pairs(c, x) == Pairs(c, x[..|x| - 1]) + [Add(Mul(x[|x| - 2], c), x[|x| - 1])]
  {
    if |x| % 2 == 0 { assert x[..|x| - 1][..|x| - 2] == x[..|x| - 2]; }
  }

  lemma Settles(ch: seq<Fp>, i: nat, x: seq<Fp>)
    requires i <= |ch| && |x| > 0 && (i == |ch| || |x| % 2 == 1)
    ensures CarryOf(ch, i, x) == StackOf(ch, i, x)
  {
    if i < |ch| { PairsDrop(ch[i], x); }
  }

  /** Merging the two topmost entries of level i carries into level i + 1. */
  lemma Merges(ch: seq<Fp>, i: nat, x: seq<Fp>)
    requires i < |ch| && |x| > 0 && |x| % 2 == 0
    ensures var s, n := CarryOf(ch, i, x), |CarryOf(ch, i, x)|;
            var y := Pairs(ch[i], x);
            && n >= 2 && s[n - 1] == (i, x[|x| - 1]) && s[n - 2] == (i, x[|x| - 2])
            && CarryOf(ch, i + 1, y) == s[..n - 2] + if i + 1 == |ch| then [] else [(i + 1, y[|y| - 1])]
  {
    var x' := x[..|x| - 1];
    var y, y' := Pairs(ch[i], x), Pairs(ch[i], x');
    var deeper := StackOf(ch, i + 1, y');
    PairsDrop(ch[i], x);
    assert CarryOf(ch, i, x) == deeper + [(i, x[|x| - 2]), (i, x[|x| - 1])] by {
      assert StackOf(ch, i, x') == deeper + [(i, x[|x| - 2])];
    }
    assert y[..|y| - 1] == y';
  }

  /** The stack is a binary counter: levels fall strictly towards the top. */
  lemma {:induction false} StackFalls(ch: seq<Fp>, i: nat, x: seq<Fp>)
    requires i <= |ch|
    ensures forall k :: 0 <= k < |StackOf(ch, i, x)| ==> i <= StackOf(ch, i, x)[k].0 < |ch|
    ensures forall j, k :: 0 <= j < k < |StackOf(ch, i, x)| ==> StackOf(ch, i, x)[j].0 > StackOf(ch, i, x)[k].0
    decreases |ch| - i
  {
    if i < |ch| {
      var t := StackOf(ch, i + 1, Pairs(ch[i], x));
      StackFalls(ch, i + 1, Pairs(ch[i], x));
      var s := StackOf(ch, i, x);
      assert s == t || s == t + [(i, x[|x| - 1])];
      assert forall k :: 0 <= k < |t| ==> s[k] == t[k];
      assert forall k :: |t| <= k < |s| ==> s[k].0 == i;
    }
  }

  lemma {:induction false} StackFromLevel(ch: seq<Fp>, i: nat, x: seq<Fp>)
    requires i <= |ch| && AllEvenBelow(ch, i, x)
    ensures StackOf(ch, 0, x) == StackOf(ch, i, Level(ch, i, x))
  {
    if i > 0 {
      StackFromLevel(ch, i - 1, x);
      assert |Level(ch, i - 1, x)| % 2 == 0;
    }
  }

  lemma {:induction false} LevelDrop(ch: seq<Fp>, i: nat, x: seq<Fp>)
    requires i <= |ch| && |x| > 0 && AllEvenBelow(ch, i, x) && |Level(ch, i, x)| > 0
    ensures Level(ch, i, x[..|x| - 1]) == Level(ch, i, x)[..|Level(ch, i, x)| - 1]
  {
    if i > 0 {
      var y := Level(ch, i - 1, x);
      assert |y| % 2 == 0;
      LevelDrop(ch, i - 1, x);
      PairsDrop(ch[i - 1], y);
    }
  }

  lemma {:induction false} LevelKeeps(ch: seq<Fp>, j: nat, i: nat, x: seq<Fp>)
    requires j < i <= |ch| && |x| > 0 && AllEvenBelow(ch, j, x) && |Level(ch, j, x)| % 2 == 1
    ensures Level(ch, i, x[..|x| - 1]) == Level(ch, i, x)
    decreases i
  {
    if i == j + 1 {
      LevelDrop(ch, j, x);
      PairsDrop(ch[j], Level(ch, j, x));
      assert Level(ch, i, x) == Pairs(ch[j], Level(ch, j, x));
    } else {
      LevelKeeps(ch, j, i - 1, x);
    }
  }

  // ----- the padding

  /** The stack after pad zero coefficients. */
  function ZeroStack(depth: nat, i: nat, pad: nat): seq<Item>
    requires i <= depth
    decreases depth - i
  {
    if i == depth then [] else
      ZeroStack(depth, i + 1, pad / 2) + if pad % 2 == 1 then [(i, 0)] else []
  }

  /** init_stack: pushes a zero for every bit of the padding, highest bit first. */
  method InitStack(n: nat, depth: nat) returns (stack: seq<Item>)
    ensures stack == ZeroStack(depth, 0, Padding(n, depth))
  {
    stack := [];
    var chunkSize := Pow2(depth);
    if n % chunkSize != 0 {
      stack := PushPadding(chunkSize - n % chunkSize, depth);
    } else {
      ZeroStackEmpty(depth, 0);
    }
  }

  method PushPadding(pad: nat, depth: nat) returns (stack: seq<Item>)
    requires pad < Pow2(depth)
    ensures stack == ZeroStack(depth, 0, pad)
  {
    stack := [];
    var delta := pad;
    AllBits(pad, depth);
    for i := depth downto 0
      invariant delta == LowBits(pad, i)
      invariant stack == ZeroStack(depth, i, FloorHalf(pad, i))
    {
      SplitBits(pad, i);
      if delta >= Pow2(i) {
        stack := stack + [(i, 0)];
        delta := delta - Pow2(i);
      }
    }
  }

  lemma {:induction false} ZeroStackEmpty(depth: nat, i: nat)
    requires i <= depth
    ensures ZeroStack(depth, i, 0) == []
    decreases depth - i
  {
    if i < depth { ZeroStackEmpty(depth, i + 1); }
  }

  lemma {:induction false} PairsOfZeros(c: Fp, n: nat)
    ensures Pairs(c, Zeros(n)) == Zeros(n / 2)
  {
    if n >= 2 {
      PairsOfZeros(c, n - 2);
      PairsDrop(c, Zeros(n));
      assert Zeros(n)[..n - 2] == Zeros(n - 2) && Zeros(n)[..n - 1] == Zeros(n - 1);
      if n % 2 == 0 {
        Units(c);
        Units(0);
      } else {
        PairsOfZeros(c, n - 1);
      }
    }
  }

  /** The initial stack is the one that n zeros would have left behind. */
  lemma {:induction false} ZeroStackIsStack(ch: seq<Fp>, i: nat, n: nat)
    requires i <= |ch|
    ensures ZeroStack(|ch|, i, n) == StackOf(ch, i, Zeros(n))
    decreases |ch| - i
  {
    if i < |ch| {
      PairsOfZeros(ch[i], n);
      ZeroStackIsStack(ch, i + 1, n / 2);
    }
  }

  lemma {:induction false} LevelOfZeros(ch: seq<Fp>, i: nat, n: nat)
    requires i <= |ch|
    ensures Level(ch, i, Zeros(n)) == Zeros(FloorHalf(n, i))
  {
    if i > 0 {
      LevelOfZeros(ch, i - 1, n);
      PairsOfZeros(ch[i - 1], FloorHalf(n, i - 1));
    }
  }

  /** Pairing a padded stream of even length folds the polynomial and halves the padding. */
  lemma {:induction false} PairsFold(c: Fp, a: nat, f: seq<Fp>)
    requires (a + |f|) % 2 == 0
    ensures Pairs(c, Zeros(a) + Rev(f)) == Zeros(a / 2) + Rev(FoldOnce(c, f))
  {
    var x := Zeros(a) + Rev(f);
    var n := |x|;
    if f == [] {
      assert x == Zeros(a);
      PairsOfZeros(c, a);
    } else if |f| == 1 {
      assert Rev(f) == [f[0]] && x[..n - 2] == Zeros(a - 1) && Rev(f[1..]) == [];
      PairsOfZeros(c, a - 1);
      Units(c);
      Units(f[0]);
    } else {
      assert f[1..][1..] == f[2..];
      assert x == (Zeros(a) + Rev(f[2..])) + [f[1], f[0]];
      assert x[..n - 2] == Zeros(a) + Rev(f[2..]);
      PairsFold(c, a, f[2..]);
      Commutes(f[1], c);
      Commutes(Mul(f[1], c), f[0]);
    }
  }

  /** The i-th folding of n coefficients has ceil(n / 2^i) of them. */
  lemma FoldingLength(ch: seq<Fp>, i: nat, f: seq<Fp>)
    requires i <= |ch|
    ensures |Folding(ch, i, f)| == CeilDiv(|f|, Pow2(i))
  {
    FoldingHalves(ch, i, f);
    CeilHalfIsCeilDiv(|f|, i);
  }

  lemma {:induction false} FoldingHalves(ch: seq<Fp>, i: nat, f: seq<Fp>)
    requires i <= |ch|
    ensures |Folding(ch, i, f)| == CeilHalf(|f|, i)
  {
    if i > 0 { FoldingHalves(ch, i - 1, f); }
  }

  lemma {:induction false} LevelLength(ch: seq<Fp>, i: nat, x: seq<Fp>)
    requires i <= |ch|
    ensures |Level(ch, i, x)| == FloorHalf(|x|, i)
  {
    if i > 0 { LevelLength(ch, i - 1, x); }
  }

  lemma {:induction false} LevelsFold(ch: seq<Fp>, i: nat, pad: nat, f: seq<Fp>)
    requires i <= |ch| && HalvesEvenly(pad + |f|, |ch|)
    ensures Level(ch, i, Zeros(pad) + Rev(f)) == Zeros(FloorHalf(pad, i)) + Rev(Folding(ch, i, f))
  {
    if i > 0 {
      LevelsFold(ch, i - 1, pad, f);
      LevelLength(ch, i - 1, Zeros(pad) + Rev(f));
      assert FloorHalf(pad + |f|, i - 1) % 2 == 0;
      PairsFold(ch[i - 1], FloorHalf(pad, i - 1), Folding(ch, i - 1, f));
    }
  }
}
