/** The iterative Brakedown encoder (linear_codes/multilinear_brakedown/mod.rs). */
module BrakedownCode {
  import opened PrimeField
  import opened Vectors
  import opened Polynomials
  import opened SparseMatrices
  import opened BrakedownLayout

  datatype Code = Code(m: nat, length: nat, aDims: seq<Dim>, bDims: seq<Dim>, start: seq<nat>, end: seq<int>,
                       aMats: seq<SprsMat>, bMats: seq<SprsMat>)
  {
    function Levels(): nat { |aDims| }

    /** Length of the buffer before level i of the way down. */
    function Down(i: nat): nat
      requires i <= |aDims| == |start|
    {
      if i == 0 then m else start[i - 1] + aDims[i - 1].cols
    }

    /** End of the buffer that the levels from i on fill. */
    function Up(i: nat): int
      requires i <= |end|
    {
      if i == 0 then length else end[i - 1]
    }
  }

  /** The tables fit together and the matrices have their dimensions. */
  ghost predicate ValidCode(code: Code) {
    && code.m <= code.length
    && LayoutOk(code.aDims, code.bDims, code.start, code.end, code.length, code.m)
    && |code.aMats| == |code.bMats| == |code.aDims|
    && forall i :: 0 <= i < |code.aDims| ==> MatricesOk(code, i)
  }

  ghost predicate MatricesOk(code: Code, i: nat)
    requires i < |code.aMats| == |code.bMats| == |code.aDims| == |code.bDims|
  {
    && code.aMats[i].m == code.aDims[i].cols && Multiplies(code.aMats[i], code.aDims[i].rows)
    && code.bMats[i].m == code.bDims[i].cols && Multiplies(code.bMats[i], code.bDims[i].rows)
  }

  /** The facts about level i, one by one. */
  lemma Level(code: Code, i: nat)
    requires ValidCode(code) && i < code.Levels()
    ensures code.start[i] == code.Down(i) && code.aDims[i].rows <= code.start[i]
    ensures code.start[i] + code.aDims[i].cols == code.Down(i + 1) <= code.end[i] == code.Up(i + 1)
    ensures code.end[i] - code.start[i] == code.bDims[i].rows && code.end[i] + code.bDims[i].cols == code.Up(i)
    ensures code.aMats[i].m == code.aDims[i].cols && Multiplies(code.aMats[i], code.aDims[i].rows)
    ensures code.bMats[i].m == code.bDims[i].cols && Multiplies(code.bMats[i], code.bDims[i].rows)
  {
    assert LevelOk(code.aDims, code.bDims, code.start, code.end, code.length, code.m, i);
    assert MatricesOk(code, i);
  }

  lemma {:induction false} UpFalls(code: Code, i: nat, k: nat)
    requires ValidCode(code) && i <= k <= code.Levels()
    ensures code.Up(k) <= code.Up(i)
    decreases k
  {
    if i < k {
      UpFalls(code, i, k - 1);
      Level(code, k - 1);
    }
  }

  lemma {:induction false} DownRises(code: Code, i: nat)
    requires ValidCode(code) && i <= code.Levels()
    ensures code.m <= code.Down(i) <= code.Up(i) <= code.length
  {
    if i > 0 {
      DownRises(code, i - 1);
      Level(code, i - 1);
      UpFalls(code, 0, i);
    }
  }

  // ----- the three stages

  /** The slice that matrix A of level i multiplies. */
  function ASource(code: Code, cw: seq<Fp>, i: nat): seq<Fp>
    requires i < |code.aDims| == |code.start| && code.aDims[i].rows <= code.start[i] <= |cw|
  {
    cw[code.start[i] - code.aDims[i].rows..code.start[i]]
  }

  /** The way down: every level appends the product with its matrix A. */
  function Forward(code: Code, cw: seq<Fp>, i: nat): (r: seq<Fp>)
    requires ValidCode(code) && i <= code.Levels() && |cw| == code.Down(i)
    ensures |r| == code.Down(code.Levels()) && cw <= r
    decreases code.Levels() - i
  {
    if i == code.Levels() then cw else
      Level(code, i);
      Forward(code, cw + RowMul(code.aMats[i], ASource(code, cw, i)).value, i + 1)
  }

  /** The polynomial with these coefficients at x, x + 1, .... */
  function ValuesFrom(coeffs: seq<Fp>, x: Fp, n: nat): (r: seq<Fp>)
    ensures |r| == n
    decreases n
  {
    if n == 0 then [] else [Eval(coeffs, x)] + ValuesFrom(coeffs, Add(x, 1), n - 1)
  }

  function BaseStart(code: Code): nat
    requires |code.start| == |code.aDims|
  {
    if code.Levels() == 0 then 0 else code.start[code.Levels() - 1]
  }

  function ReedSolomon(cw: seq<Fp>, s: nat, ie: nat, oe: nat): (r: seq<Fp>)
    requires s <= ie <= oe <= |cw|
    ensures |r| == |cw|
  {
    cw[..s] + ValuesFrom(cw[s..ie], 1, oe - s) + cw[oe..]
  }

  /** The buffer after the base code, zeros behind it. */
  function Middle(code: Code, cw: seq<Fp>): (r: seq<Fp>)
    requires ValidCode(code) && |cw| == code.Down(code.Levels())
    ensures |r| == code.length
  {
    var n := code.Levels();
    DownRises(code, n);
    BaseFits(code);
    ReedSolomon(cw + Zeros(code.length - |cw|), BaseStart(code), code.Down(n), code.Up(n))
  }

  lemma BaseFits(code: Code)
    requires ValidCode(code)
    ensures BaseStart(code) <= code.Down(code.Levels()) <= code.Up(code.Levels()) <= code.length
  {
    DownRises(code, code.Levels());
    if code.Levels() > 0 { Level(code, code.Levels() - 1); }
  }

  function Put(cw: seq<Fp>, e: nat, src: seq<Fp>): (r: seq<Fp>)
    requires e + |src| <= |cw|
    ensures |r| == |cw|
  {
    cw[..e] + src + cw[e + |src|..]
  }

  /** The way back, in increasing order of the levels. */
  function Back(code: Code, cw: seq<Fp>, i: nat): (r: seq<Fp>)
    requires ValidCode(code) && i <= code.Levels() && |cw| == code.length
    ensures |r| == |cw|
    decreases code.Levels() - i
  {
    if i == code.Levels() then cw else
      Level(code, i);
      UpFalls(code, 0, i);
      Back(code, Put(cw, code.end[i], RowMul(code.bMats[i], cw[code.start[i]..code.end[i]]).value), i + 1)
  }

  function Encoded(code: Code, msg: seq<Fp>): (r: seq<Fp>)
    requires ValidCode(code) && |msg| == code.m
    ensures |r| == code.length
  {
    Back(code, Middle(code, Forward(code, msg, 0)), 0)
  }

  // ----- the loops

  /** naive_reed_solomon: evaluates at 1, 2, ... with two nested loops. */
  method NaiveReedSolomon(cw: seq<Fp>, s: nat, ie: nat, oe: nat) returns (r: seq<Fp>)
    requires s <= ie <= oe <= |cw|
    ensures r == ReedSolomon(cw, s, ie, oe)
  {
    var res: seq<Fp> := [];
    var x: Fp := 1;
    ghost var coeffs := cw[s..ie];
    ghost var whole := ValuesFrom(coeffs, 1, oe - s);
    for k := 0 to oe - s
      invariant |res| == k && res + ValuesFrom(coeffs, x, oe - s - k) == whole
    {
      var y := HornerRun(cw, s, ie, x);
      AppendAssociates(res, [y], ValuesFrom(coeffs, Add(x, 1), oe - s - k - 1));
      res := res + [y];
      x := Add(x, 1);
    }
    r := cw[..s] + res + cw[oe..];
  }

  method HornerRun(cw: seq<Fp>, s: nat, ie: nat, x: Fp) returns (r: Fp)
    requires s <= ie <= |cw|
    ensures r == Eval(cw[s..ie], x)
  {
    r := 0;
    for j := ie downto s
      invariant r == Eval(cw[j..ie], x)
    {
      assert cw[j..ie][1..] == cw[j + 1..ie];
      Commutes(Eval(cw[j + 1..ie], x), x);
      Commutes(Mul(x, Eval(cw[j + 1..ie], x)), cw[j]);
      r := Mul(r, x);
      r := Add(r, cw[j]);
    }
  }

  /** The first loop of encode. */
  method WayDown(code: Code, msg: seq<Fp>) returns (cw: seq<Fp>)
    requires ValidCode(code) && |msg| == code.m
    ensures cw == Forward(code, msg, 0)
  {
    cw := msg;
    for i := 0 to code.Levels()
      invariant |cw| == code.Down(i) && Forward(code, cw, i) == Forward(code, msg, 0)
    {
      Level(code, i);
      var s := code.start[i];
      var src := RowMul(code.aMats[i], cw[s - code.aDims[i].rows..s]);
      cw := cw + src.value;
    }
  }

  /** The last loop of encode. */
  method WayBack(code: Code, middle: seq<Fp>) returns (cw: seq<Fp>)
    requires ValidCode(code) && |middle| == code.length
    ensures cw == Back(code, middle, 0)
  {
    cw := middle;
    for i := 0 to code.Levels()
      invariant |cw| == code.length && Back(code, cw, i) == Back(code, middle, 0)
    {
      Level(code, i);
      UpFalls(code, 0, i);
      var e := code.end[i];
      var src := RowMul(code.bMats[i], cw[code.start[i]..e]);
      cw := cw[..e] + src.value + cw[e + code.bDims[i].cols..];
    }
  }

  /** encode; Err for a message of the wrong length. */
  method Encode(code: Code, msg: seq<Fp>) returns (r: Outcome<seq<Fp>>)
    requires ValidCode(code)
    ensures r == if |msg| == code.m then Ok(Encoded(code, msg)) else Err
  {
    if |msg| != code.m {
      return Err;
    }
    var levels := code.Levels();
    var cw := WayDown(code, msg);
    BaseFits(code);
    cw := cw + Zeros(code.length - |cw|);
    var rss := if levels == 0 then 0 else code.start[levels - 1];
    var rsie := if levels == 0 then code.m else rss + code.aDims[levels - 1].cols;
    var rsoe := if levels == 0 then code.length else code.end[levels - 1];
    cw := NaiveReedSolomon(cw, rss, rsie, rsoe);
    cw := WayBack(code, cw);
    return Ok(cw);
  }
}
