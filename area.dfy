/** Signed (shoelace) area of a closed contour. */
module Area {
  import opened Geometry
  import opened Sequences

  /** The contribution of one directed edge to the signed area. */
  function EdgeArea(a: Point, b: Point): real
  {
    0.5 * Cross(a, b)
  }

  /** Sum of the edge contributions along the open path `s[0], s[1], ..., s[|s|-1]`. */
  function PathArea(s: seq<Point>): real
  {
    if |s| < 2 then 0.0 else EdgeArea(s[0], s[1]) + PathArea(s[1..])
  }

  /** The area the closing walk adds: the walk starts at the last point and
      visits every point in order, so every edge of the cyclic polyline is
      counted once, the wrap edge (last to first) first. */
  function SignedArea(pts: seq<Point>): real
  {
    if pts == [] then 0.0 else PathArea([pts[|pts| - 1]] + pts)
  }

  /** Textbook shoelace sum over the first `k` forward edges `p[i] -> p[(i+1) mod n]`. */
  function ShoelacePrefix(pts: seq<Point>, k: nat): real
    requires k <= |pts|
  {
    if k == 0 then 0.0 else ShoelacePrefix(pts, k - 1) + EdgeArea(pts[k - 1], pts[k % |pts|])
  }

  /** Textbook shoelace formula: half the sum of `cross(p[i], p[(i+1) mod n])`. */
  function Shoelace(pts: seq<Point>): real
  {
    ShoelacePrefix(pts, |pts|)
  }

  /** Extending a path by one point adds the contribution of the new last edge. */
  lemma {:induction false} PathAreaSnoc(s: seq<Point>, x: Point)
    requires |s| >= 1
    ensures PathArea(s + [x]) == PathArea(s) + EdgeArea(s[|s| - 1], x)
  {
    if |s| == 1 {
      assert s + [x] == [s[0], x];
    } else {
      assert (s + [x])[1..] == s[1..] + [x];
      PathAreaSnoc(s[1..], x);
    }
  }

  /** The walk's area after one more edge, stated on prefixes. */
  lemma PathAreaPrefix(walk: seq<Point>, i: nat)
    requires i + 1 < |walk|
    ensures PathArea(walk[..i + 2]) == PathArea(walk[..i + 1]) + EdgeArea(walk[i], walk[i + 1])
  {
    assert walk[..i + 2] == walk[..i + 1] + [walk[i + 1]];
    PathAreaSnoc(walk[..i + 1], walk[i + 1]);
  }

  /** The forward shoelace sum over the first `k` edges is the path area of the
      first `k + 1` points, as long as no edge wraps. */
  lemma {:induction false} ShoelacePrefixIsPath(pts: seq<Point>, k: nat)
    requires k < |pts|
    ensures ShoelacePrefix(pts, k) == PathArea(pts[..k + 1])
  {
    if k == 0 {
    } else {
      ShoelacePrefixIsPath(pts, k - 1);
      assert k % |pts| == k;
      var front := pts[..k];
      assert pts[..k + 1] == front + [pts[k]];
      assert front[k - 1] == pts[k - 1];
      PathAreaSnoc(front, pts[k]);
    }
  }

  /** The area accumulated by the closing walk is the textbook shoelace formula. */
  lemma SignedAreaIsShoelace(pts: seq<Point>)
    ensures SignedArea(pts) == Shoelace(pts)
  {
    if pts != [] {
      var n := |pts|;
      ShoelacePrefixIsPath(pts, n - 1);
      assert pts[..n] == pts;
      assert ([pts[n - 1]] + pts)[1..] == pts;
    }
  }

  /** Reversing a path negates its area. */
  lemma {:induction false} PathAreaReverse(s: seq<Point>)
    ensures PathArea(Reverse(s)) == -PathArea(s)
  {
    if |s| >= 2 {
      PathAreaReverse(s[1..]);
      // Reverse(s) = Reverse(s[1..]) + [s[0]], whose last edge is s[1] -> s[0]
      var r := Reverse(s[1..]);
      assert r[|r| - 1] == s[1];
      PathAreaSnoc(r, s[0]);
      CrossAntisymmetric(s[1], s[0]);
    }
  }

  /** Reversing the point order of a contour negates its signed area. */
  lemma SignedAreaReverse(pts: seq<Point>)
    ensures SignedArea(Reverse(pts)) == -SignedArea(pts)
  {
    if pts != [] {
      var n := |pts|;
      // The walk over the reversed contour is the reverse of the forward path
      // p[0], ..., p[n-1], p[0], whose area equals the walk from the last point.
      ReverseSnoc(pts, pts[0]);
      assert [Reverse(pts)[n - 1]] + Reverse(pts) == Reverse(pts + [pts[0]]);
      PathAreaReverse(pts + [pts[0]]);
      PathAreaSnoc(pts, pts[0]);
      assert ([pts[n - 1]] + pts)[1..] == pts;
      if n == 1 {
        assert PathArea(pts) == 0.0;
      }
    }
  }

  /** An empty contour adds no area. */
  lemma SignedAreaEmpty()
    ensures SignedArea([]) == 0.0
  {
  }
}
