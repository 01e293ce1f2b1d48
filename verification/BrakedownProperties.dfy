/** What the Brakedown encoder computes, and that it is linear. */
module BrakedownProperties {
  import opened PrimeField
  import opened Vectors
  import opened Polynomials
  import opened SparseMatrices
  import opened BrakedownLayout
  import opened BrakedownCode

  // ----- what ends up where in a codeword

  /** The k-th value is the polynomial's at k + 1. */
  lemma {:induction false} ValueAt(coeffs: seq<Fp>, x: int, n: nat, k: nat)
    requires k < n
    ensures ValuesFrom(coeffs, Of(x), n)[k] == Eval(coeffs, Of(x + k))
    decreases n
  {
    if k > 0 {
      OfAdd(x, 1);
      OneIsOne();
      ValueAt(coeffs, x + 1, n - 1, k - 1);
    }
  }

  lemma OneIsOne()
    ensures Of(1) == 1
  {
    OfFp(1);
  }

  /** The way back leaves everything below the last level and above the current one alone. */
  lemma {:induction false} BackKeeps(code: Code, cw: seq<Fp>, i: nat, x: nat)
    requires ValidCode(code) && i <= code.Levels() && |cw| == code.length && x < code.length
    requires x < code.Up(code.Levels()) || x >= code.Up(i)
    ensures Back(code, cw, i)[x] == cw[x]
    decreases code.Levels() - i
  {
    if i < code.Levels() {
      Level(code, i);
      UpFalls(code, 0, i);
      UpFalls(code, i + 1, code.Levels());
      BackKeeps(code, Put(cw, code.end[i], RowMul(code.bMats[i], cw[code.start[i]..code.end[i]]).value), i + 1, x);
    }
  }

  lemma PutKeeps(cw: seq<Fp>, e: nat, src: seq<Fp>, lo: nat, hi: nat)
    requires e + |src| <= |cw| && lo <= hi <= e
    ensures Put(cw, e, src)[lo..hi] == cw[lo..hi]
  {
  }

  /** The region of level k holds the product with its matrix B of what the buffer held before
      the way back: the regions of the deeper levels are still zero when it is computed. */
  lemma {:induction false} BackFills(code: Code, cw: seq<Fp>, i: nat, k: nat)
    requires ValidCode(code) && i <= k < code.Levels() && |cw| == code.length
    ensures 0 <= code.start[k] <= code.end[k] <= code.end[k] + code.bDims[k].cols <= code.length
    ensures Multiplies(code.bMats[k], code.end[k] - code.start[k])
    ensures Back(code, cw, i)[code.end[k]..code.end[k] + code.bDims[k].cols]
            == RowMul(code.bMats[k], cw[code.start[k]..code.end[k]]).value
    decreases k - i
  {
    Level(code, i);
    Level(code, k);
    UpFalls(code, 0, i);
    UpFalls(code, 0, k);
    var src := RowMul(code.bMats[i], cw[code.start[i]..code.end[i]]).value;
    var cw' := Put(cw, code.end[i], src);
    var lo, hi := code.end[k], code.end[k] + code.bDims[k].cols;
    if i == k {
      forall x | lo <= x < hi ensures Back(code, cw, i)[x] == src[x - lo] {
        BackKeeps(code, cw', i + 1, x);
      }
      assert Back(code, cw, i)[lo..hi] == src;
    } else {
      UpFalls(code, i + 1, k + 1);
      assert lo <= code.end[i];
      PutKeeps(cw, code.end[i], src, code.start[k], lo);
      BackFills(code, cw', i + 1, k);
    }
  }

  lemma {:induction false} ForwardFills(code: Code, cw: seq<Fp>, i: nat, k: nat)
    requires ValidCode(code) && i <= k < code.Levels() && |cw| == code.Down(i)
    ensures 0 <= code.start[k] - code.aDims[k].rows <= code.start[k] <= code.Down(k + 1) <= |Forward(code, cw, i)|
    ensures Multiplies(code.aMats[k], code.aDims[k].rows)
    ensures Forward(code, cw, i)[code.start[k]..code.Down(k + 1)]
            == RowMul(code.aMats[k], Forward(code, cw, i)[code.start[k] - code.aDims[k].rows..code.start[k]]).value
    decreases k - i
  {
    Level(code, i);
    Level(code, k);
    var next := cw + RowMul(code.aMats[i], ASource(code, cw, i)).value;
    if i < k {
      ForwardFills(code, next, i + 1, k);
    } else {
      var r, s := Forward(code, cw, i), code.start[k];
      assert next <= r && |next| == code.Down(k + 1);
      assert r[s..code.Down(k + 1)] == next[s..] == RowMul(code.aMats[i], ASource(code, cw, i)).value;
      assert r[s - code.aDims[k].rows..s] == ASource(code, cw, i);
    }
  }

  /** On the way down the region of level k is its matrix A times the region before it. */
  lemma DownSegment(code: Code, msg: seq<Fp>, k: nat)
    requires ValidCode(code) && |msg| == code.m && k < code.Levels()
    ensures 0 <= code.start[k] - code.aDims[k].rows <= code.start[k]
    ensures code.start[k] + code.aDims[k].cols == code.Down(k + 1) <= |Forward(code, msg, 0)|
    ensures Multiplies(code.aMats[k], code.aDims[k].rows) && msg <= Forward(code, msg, 0)
    ensures var down := Forward(code, msg, 0);
            down[code.start[k]..code.start[k] + code.aDims[k].cols]
            == RowMul(code.aMats[k], down[code.start[k] - code.aDims[k].rows..code.start[k]]).value
  {
    Level(code, k);
    ForwardFills(code, msg, 0, k);
  }

  lemma BaseValue(code: Code, down: seq<Fp>, k: nat)
    requires ValidCode(code) && |down| == code.Down(code.Levels()) && k < code.Up(code.Levels()) - BaseStart(code)
    ensures BaseStart(code) <= |down| && BaseStart(code) + k < code.length
    ensures Middle(code, down)[BaseStart(code) + k] == Eval(down[BaseStart(code)..], Of(1 + k))
  {
    var s, n := BaseStart(code), code.Levels();
    BaseFits(code);
    var padded := down + Zeros(code.length - |down|);
    assert padded[s..|down|] == down[s..];
    OneIsOne();
    ValueAt(down[s..], 1, code.Up(n) - s, k);
  }

  /** Everything before the base segment, the message first, stands in the codeword unchanged. */
  lemma Systematic(code: Code, msg: seq<Fp>)
    requires ValidCode(code) && |msg| == code.m
    ensures BaseStart(code) <= |Forward(code, msg, 0)| <= code.length
    ensures Encoded(code, msg)[..BaseStart(code)] == Forward(code, msg, 0)[..BaseStart(code)]
    ensures code.Levels() > 0 ==> code.m <= BaseStart(code) && Encoded(code, msg)[..code.m] == msg
  {
    var n, s := code.Levels(), BaseStart(code);
    var down := Forward(code, msg, 0);
    var middle, cw := Middle(code, down), Encoded(code, msg);
    BaseFits(code);
    forall x | 0 <= x < s ensures cw[x] == down[x] { BackKeeps(code, middle, 0, x); }
    assert cw[..s] == down[..s];
    if n > 0 {
      DownRises(code, n - 1);
      Level(code, n - 1);
      assert cw[..code.m] == down[..code.m] == msg;
    }
  }

  /** The base segment holds the values at 1, 2, ... of the last chunk of the way down. */
  lemma BaseSegment(code: Code, msg: seq<Fp>, k: nat)
    requires ValidCode(code) && |msg| == code.m && k < code.Up(code.Levels()) - BaseStart(code)
    ensures BaseStart(code) <= |Forward(code, msg, 0)| && BaseStart(code) + k < code.length
    ensures Encoded(code, msg)[BaseStart(code) + k] == Eval(Forward(code, msg, 0)[BaseStart(code)..], Of(1 + k))
  {
    var down := Forward(code, msg, 0);
    BaseFits(code);
    BaseValue(code, down, k);
    BackKeeps(code, Middle(code, down), 0, BaseStart(code) + k);
  }

  /** Behind the base segment, the region of level i is the product of its matrix B with the
      buffer as the base code left it, zero from the end of the base segment on: the deeper
      regions are filled in later and do not enter. */
  lemma LevelSegment(code: Code, msg: seq<Fp>, i: nat, x: nat)
    requires ValidCode(code) && |msg| == code.m && i < code.Levels()
    ensures 0 <= code.start[i] <= code.end[i] <= code.end[i] + code.bDims[i].cols <= code.length
    ensures Multiplies(code.bMats[i], code.end[i] - code.start[i])
    ensures Encoded(code, msg)[code.end[i]..code.end[i] + code.bDims[i].cols]
            == RowMul(code.bMats[i], Middle(code, Forward(code, msg, 0))[code.start[i]..code.end[i]]).value
    ensures code.Up(code.Levels()) <= x < code.length ==> Middle(code, Forward(code, msg, 0))[x] == 0
  {
    BackFills(code, Middle(code, Forward(code, msg, 0)), 0, i);
    BaseFits(code);
  }

  // ----- linearity

  lemma MixAppend(u: seq<Fp>, u': seq<Fp>, c: Fp, w: seq<Fp>, w': seq<Fp>)
    requires |u| == |w| && |u'| == |w'|
    ensures Mix(u + u', c, w + w') == Mix(u, c, w) + Mix(u', c, w')
  {
  }

  lemma MixSlice(u: seq<Fp>, c: Fp, w: seq<Fp>, lo: nat, hi: nat)
    requires |u| == |w| && lo <= hi <= |u|
    ensures Mix(u, c, w)[lo..hi] == Mix(u[lo..hi], c, w[lo..hi])
  {
  }

  lemma {:induction false} ForwardMix(code: Code, u: seq<Fp>, c: Fp, w: seq<Fp>, i: nat)
    requires ValidCode(code) && i <= code.Levels() && |u| == |w| == code.Down(i)
    ensures Forward(code, Mix(u, c, w), i) == Mix(Forward(code, u, i), c, Forward(code, w, i))
    decreases code.Levels() - i
  {
    if i < code.Levels() {
      Level(code, i);
      MixSlice(u, c, w, code.start[i] - code.aDims[i].rows, code.start[i]);
      RowMulMix(code.aMats[i], ASource(code, u, i), c, ASource(code, w, i));
      var u', w' := RowMul(code.aMats[i], ASource(code, u, i)).value, RowMul(code.aMats[i], ASource(code, w, i)).value;
      MixAppend(u, u', c, w, w');
      ForwardMix(code, u + u', c, w + w', i + 1);
    }
  }

  lemma {:induction false} EvalMix(u: seq<Fp>, c: Fp, w: seq<Fp>, x: Fp)
    requires |u| == |w|
    ensures Eval(Mix(u, c, w), x) == Add(Eval(u, x), Mul(c, Eval(w, x)))
  {
    if u == [] {
      Units(c);
      Units(0);
    } else {
      assert Mix(u, c, w)[1..] == Mix(u[1..], c, w[1..]);
      EvalMix(u[1..], c, w[1..], x);
      EvalMixStep(u[0], w[0], c, x, Eval(u[1..], x), Eval(w[1..], x));
    }
  }

  lemma EvalMixStep(a: Fp, b: Fp, c: Fp, x: Fp, p: Fp, q: Fp)
    ensures Add(Add(a, Mul(c, b)), Mul(x, Add(p, Mul(c, q)))) == Add(Add(a, Mul(x, p)), Mul(c, Add(b, Mul(x, q))))
  {
    assert Mul(x, Add(p, Mul(c, q))) == Add(Mul(x, p), Mul(c, Mul(x, q))) by { RingLaws(); }
    Distributes(c, b, Mul(x, q));
    FourSum(a, Mul(c, b), Mul(x, p), Mul(c, Mul(x, q)));
  }

  lemma {:induction false} ValuesMix(u: seq<Fp>, c: Fp, w: seq<Fp>, x: Fp, n: nat)
    requires |u| == |w|
    ensures ValuesFrom(Mix(u, c, w), x, n) == Mix(ValuesFrom(u, x, n), c, ValuesFrom(w, x, n))
    decreases n
  {
    if n > 0 {
      EvalMix(u, c, w, x);
      ValuesMix(u, c, w, Add(x, 1), n - 1);
    }
  }

  lemma ReedSolomonMix(u: seq<Fp>, c: Fp, w: seq<Fp>, s: nat, ie: nat, oe: nat)
    requires |u| == |w| && s <= ie <= oe <= |u|
    ensures ReedSolomon(Mix(u, c, w), s, ie, oe) == Mix(ReedSolomon(u, s, ie, oe), c, ReedSolomon(w, s, ie, oe))
  {
    MixSlice(u, c, w, s, ie);
    ValuesMix(u[s..ie], c, w[s..ie], 1, oe - s);
  }

  lemma MiddleMix(code: Code, u: seq<Fp>, c: Fp, w: seq<Fp>)
    requires ValidCode(code) && |u| == |w| == code.Down(code.Levels())
    ensures Middle(code, Mix(u, c, w)) == Mix(Middle(code, u), c, Middle(code, w))
  {
    BaseFits(code);
    var z := Zeros(code.length - |u|);
    assert Mix(z, c, z) == z by {
      Units(c);
      Units(0);
    }
    MixAppend(u, z, c, w, z);
    ReedSolomonMix(u + z, c, w + z, BaseStart(code), code.Down(code.Levels()), code.Up(code.Levels()));
  }

  lemma {:induction false} BackMix(code: Code, u: seq<Fp>, c: Fp, w: seq<Fp>, i: nat)
    requires ValidCode(code) && i <= code.Levels() && |u| == |w| == code.length
    ensures Back(code, Mix(u, c, w), i) == Mix(Back(code, u, i), c, Back(code, w, i))
    decreases code.Levels() - i
  {
    if i < code.Levels() {
      Level(code, i);
      UpFalls(code, 0, i);
      var s, e := code.start[i], code.end[i];
      MixSlice(u, c, w, s, e);
      RowMulMix(code.bMats[i], u[s..e], c, w[s..e]);
      var u', w' := RowMul(code.bMats[i], u[s..e]).value, RowMul(code.bMats[i], w[s..e]).value;
      assert Put(Mix(u, c, w), e, Mix(u', c, w')) == Mix(Put(u, e, u'), c, Put(w, e, w'));
      BackMix(code, Put(u, e, u'), c, Put(w, e, w'), i + 1);
    }
  }

  /** The encoder is linear. */
  lemma EncodedMix(code: Code, u: seq<Fp>, c: Fp, w: seq<Fp>)
    requires ValidCode(code) && |u| == |w| == code.m
    ensures Encoded(code, Mix(u, c, w)) == Mix(Encoded(code, u), c, Encoded(code, w))
  {
    ForwardMix(code, u, c, w, 0);
    MiddleMix(code, Forward(code, u, 0), c, Forward(code, w, 0));
    BackMix(code, Middle(code, Forward(code, u, 0)), c, Middle(code, Forward(code, w, 0)), 0);
  }

  // ----- the default parameters give a valid code

  /** Sampled matrices of the dimensions that mat_size computes. */
  ghost predicate Sampled(mats: seq<SprsMat>, dims: seq<Dim>) {
    |mats| == |dims| && forall i :: 0 <= i < |mats| ==> mats[i].m == dims[i].cols && Multiplies(mats[i], dims[i].rows)
  }

  /** new on the output of mat_size: the offsets are in order for every message length. */
  lemma NewIsValid(m: nat, baseLen: nat, rates: Rates, aMats: seq<SprsMat>, bMats: seq<SprsMat>)
    requires GoodRates(rates, baseLen) && RoomFor(ADims(m, baseLen, rates), rates)
    requires Sampled(aMats, ADims(m, baseLen, rates)) && Sampled(bMats, BDims(ADims(m, baseLen, rates), rates))
    ensures var aDims, bDims := ADims(m, baseLen, rates), BDims(ADims(m, baseLen, rates), rates);
            var length := ExtendedLength(m, aDims, bDims, rates);
            && length == rates.r(m)
            && ValidCode(Code(m, length, aDims, bDims, Starts(aDims, 0), Ends(bDims, length), aMats, bMats))
  {
    LayoutIsOk(m, baseLen, rates);
  }
}
