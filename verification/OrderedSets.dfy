/** The ordered sets of the library, as ascending lists of rows of integers: labels and points
    are integers, since only their order matters, and rows compare place by place. */
module OrderedSets {
  import opened Combinations

  predicate Before(v: seq<int>, w: seq<int>) {
    v != [] && w != [] && (v[0] < w[0] || (v[0] == w[0] && Before(v[1..], w[1..])))
  }

  lemma {:induction false} BeforeIsLess(v: seq<int>, w: seq<int>)
    requires |v| == |w|
    ensures Before(v, w) <==> LexLess(v, w)
  {
    if v != [] {
      BeforeIsLess(v[1..], w[1..]);
      if v[0] < w[0] {
        assert v[..0] == w[..0];
      } else if v[0] == w[0] {
        SharedHead(v, w);
      } else {
        NoSharedHead(v, w);
      }
    }
  }

  lemma NoSharedHead(v: seq<int>, w: seq<int>)
    requires |v| == |w| > 0 && v[0] > w[0]
    ensures !LexLess(v, w)
  {
    forall k | 0 <= k < |v| ensures !(v[..k] == w[..k] && v[k] < w[k]) {
      assert k > 0 ==> v[..k][0] == v[0] && w[..k][0] == w[0];
    }
  }

  lemma SharedHead(v: seq<int>, w: seq<int>)
    requires |v| == |w| > 0 && v[0] == w[0]
    ensures LexLess(v, w) <==> LexLess(v[1..], w[1..])
  {
    if LexLess(v, w) {
      var k :| 0 <= k < |v| && v[..k] == w[..k] && v[k] < w[k];
      assert v[1..][..k - 1] == v[..k][1..] && w[1..][..k - 1] == w[..k][1..];
      assert v[1..][k - 1] < w[1..][k - 1];
    }
    if LexLess(v[1..], w[1..]) {
      var k :| 0 <= k < |v[1..]| && v[1..][..k] == w[1..][..k] && v[1..][k] < w[1..][k];
      assert v[..k + 1] == [v[0]] + v[1..][..k] && w[..k + 1] == [w[0]] + w[1..][..k];
    }
  }

  /** Inserting into an ordered set. */
  function Insert(s: seq<seq<int>>, x: seq<int>): seq<seq<int>> {
    if s == [] then [x]
    else if s[0] == x then s
    else if Before(x, s[0]) then [x] + s
    else [s[0]] + Insert(s[1..], x)
  }

  /** Collecting a list into an ordered set. */
  function Collected(rows: seq<seq<int>>): seq<seq<int>> {
    if rows == [] then [] else Insert(Collected(rows[..|rows| - 1]), rows[|rows| - 1])
  }

  lemma {:induction false} InsertHas(s: seq<seq<int>>, x: seq<int>, y: seq<int>)
    ensures y in Insert(s, x) <==> y == x || y in s
  {
    if s != [] && s[0] != x && !Before(x, s[0]) {
      InsertHas(s[1..], x, y);
      assert s == [s[0]] + s[1..];
    }
  }

  lemma InsertHasAll(s: seq<seq<int>>, x: seq<int>)
    ensures forall y :: y in Insert(s, x) <==> y == x || y in s
  {
    forall y ensures y in Insert(s, x) <==> y == x || y in s { InsertHas(s, x, y); }
  }

  lemma PrependAscends(x: seq<int>, s: seq<seq<int>>)
    requires Ascending(s) && forall y :: y in s ==> LexLess(x, y)
    ensures Ascending([x] + s)
  {
    forall i, j | 0 <= i < j < |[x] + s| ensures LexLess(([x] + s)[i], ([x] + s)[j]) {
      assert s[j - 1] in s;
      assert i > 0 ==> LexLess(s[i - 1], s[j - 1]);
    }
  }

  lemma LeastFirst(s: seq<seq<int>>, x: seq<int>)
    requires Ascending(s) && s != [] && LexLess(x, s[0])
    ensures forall y :: y in s ==> LexLess(x, y)
  {
    forall y | y in s ensures LexLess(x, y) {
      var i :| 0 <= i < |s| && s[i] == y;
      if i > 0 { LexTransitive(x, s[0], s[i]); }
    }
  }

  lemma {:induction false} Total(v: seq<int>, w: seq<int>)
    requires |v| == |w|
    ensures v == w || Before(v, w) || Before(w, v)
  {
    if v != [] {
      Total(v[1..], w[1..]);
      assert v == [v[0]] + v[1..] && w == [w[0]] + w[1..];
    }
  }

  /** Insertion keeps the set ordered and free of duplicates. */
  lemma {:induction false} InsertAscends(s: seq<seq<int>>, x: seq<int>)
    requires Ascending(s) && forall y :: y in s ==> |y| == |x|
    ensures Ascending(Insert(s, x))
  {
    if s != [] && s[0] != x {
      assert s[0] in s && |s[0]| == |x|;
      BeforeIsLess(x, s[0]);
      if Before(x, s[0]) {
        LeastFirst(s, x);
        PrependAscends(x, s);
      } else {
        Total(x, s[0]);
        BeforeIsLess(s[0], x);
        RestAscends(s);
        InsertAscends(s[1..], x);
        forall y | y in Insert(s[1..], x) ensures LexLess(s[0], y) { InsertHas(s[1..], x, y); }
        PrependAscends(s[0], Insert(s[1..], x));
      }
    }
  }

  lemma RestAscends(s: seq<seq<int>>)
    requires Ascending(s) && s != []
    ensures Ascending(s[1..]) && forall y :: y in s[1..] ==> y in s && LexLess(s[0], y)
  {
    forall i, j | 0 <= i < j < |s[1..]| ensures LexLess(s[1..][i], s[1..][j]) {
      assert LexLess(s[i + 1], s[j + 1]);
    }
    forall y | y in s[1..] ensures y in s && LexLess(s[0], y) {
      var i :| 0 <= i < |s[1..]| && s[1..][i] == y;
      assert s[i + 1] == y;
    }
  }

  /** A collected set is ascending and has exactly the elements of the list. */
  lemma {:induction false} CollectedIs(rows: seq<seq<int>>, n: nat)
    requires forall y :: y in rows ==> |y| == n
    ensures Ascending(Collected(rows)) && forall y :: y in Collected(rows) <==> y in rows
  {
    if rows != [] {
      var rest, last := rows[..|rows| - 1], rows[|rows| - 1];
      assert last in rows && rows == rest + [last];
      CollectedIs(rest, n);
      InsertAscends(Collected(rest), last);
      forall y ensures y in Collected(rows) <==> y in rows { InsertHas(Collected(rest), last, y); }
    }
  }
}
