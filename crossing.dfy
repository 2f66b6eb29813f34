/** Crossing-number point-in-polygon test. */
module Crossing {
  import opened Geometry
  import opened Sequences

  /** Shift of the test point's y coordinate, so that a vertex lying exactly
      on the test line is counted on one side only. */
  const EPSILON: real := 0.000001

  /** Whether the edge between `cur` and `next`, ordered by y, straddles the
      shifted test line and has the test point on its left. */
  predicate Crosses(cur: Point, next: Point, p: Point)
  {
    var lo := if cur.y < next.y then cur else next;
    var hi := if cur.y < next.y then next else cur;
    lo.y < p.y + EPSILON && hi.y > p.y + EPSILON &&
    (hi.x - lo.x) * (p.y - lo.y) > (p.x - lo.x) * (hi.y - lo.y)
  }

  /** Number of crossing edges along the open path `s[0], ..., s[|s|-1]`. */
  function PathCrossings(s: seq<Point>, p: Point): nat
  {
    if |s| < 2 then 0 else (if Crosses(s[0], s[1], p) then 1 else 0) + PathCrossings(s[1..], p)
  }

  /** Number of crossing edges of the cyclic polyline, walking from the last
      point through all points in order. */
  function CrossingCount(pts: seq<Point>, p: Point): nat
  {
    if pts == [] then 0 else PathCrossings([pts[|pts| - 1]] + pts, p)
  }

  /** The point is inside when the crossing number is odd. */
  predicate Contains(pts: seq<Point>, p: Point)
  {
    CrossingCount(pts, p) % 2 != 0
  }

  /** A horizontal edge never crosses: the strict bounds on y cannot both hold. */
  lemma HorizontalEdgeNeverCrosses(a: Point, b: Point, p: Point)
    requires a.y == b.y
    ensures !Crosses(a, b, p)
  {
  }

  /** The test does not depend on the direction the edge is walked in. */
  lemma CrossesSymmetric(a: Point, b: Point, p: Point)
    ensures Crosses(a, b, p) == Crosses(b, a, p)
  {
    if a.y == b.y {
      HorizontalEdgeNeverCrosses(a, b, p);
      HorizontalEdgeNeverCrosses(b, a, p);
    }
  }

  /** Extending a path by one point adds the new last edge's crossing. */
  lemma {:induction false} PathCrossingsSnoc(s: seq<Point>, x: Point, p: Point)
    requires |s| >= 1
    ensures PathCrossings(s + [x], p) == PathCrossings(s, p) + (if Crosses(s[|s| - 1], x, p) then 1 else 0)
  {
    if |s| == 1 {
      assert s + [x] == [s[0], x];
    } else {
      assert (s + [x])[1..] == s[1..] + [x];
      PathCrossingsSnoc(s[1..], x, p);
    }
  }

  /** The walk's count after one more edge, stated on prefixes. */
  lemma PathCrossingsPrefix(walk: seq<Point>, i: nat, p: Point)
    requires i + 1 < |walk|
    ensures PathCrossings(walk[..i + 2], p) == PathCrossings(walk[..i + 1], p) + (if Crosses(walk[i], walk[i + 1], p) then 1 else 0)
  {
    assert walk[..i + 2] == walk[..i + 1] + [walk[i + 1]];
    PathCrossingsSnoc(walk[..i + 1], walk[i + 1], p);
  }

  /** A path of `n` points has at most `n - 1` crossing edges. */
  lemma {:induction false} PathCrossingsBound(s: seq<Point>, p: Point)
    ensures PathCrossings(s, p) <= if |s| == 0 then 0 else |s| - 1
  {
    if |s| >= 2 {
      PathCrossingsBound(s[1..], p);
    }
  }

  /** Every edge is counted at most once: the cyclic polyline has `|pts|` edges. */
  lemma CrossingCountBound(pts: seq<Point>, p: Point)
    ensures CrossingCount(pts, p) <= |pts|
  {
    if pts != [] {
      PathCrossingsBound([pts[|pts| - 1]] + pts, p);
    }
  }

  /** Reversing a path does not change its crossing number. */
  lemma {:induction false} PathCrossingsReverse(s: seq<Point>, p: Point)
    ensures PathCrossings(Reverse(s), p) == PathCrossings(s, p)
  {
    if |s| >= 2 {
      PathCrossingsReverse(s[1..], p);
      var r := Reverse(s[1..]);
      assert r[|r| - 1] == s[1];
      PathCrossingsSnoc(r, s[0], p);
      CrossesSymmetric(s[1], s[0], p);
    }
  }

  /** Containment does not depend on the winding direction of the contour. */
  lemma ContainsReverse(pts: seq<Point>, p: Point)
    ensures CrossingCount(Reverse(pts), p) == CrossingCount(pts, p)
    ensures Contains(Reverse(pts), p) == Contains(pts, p)
  {
    if pts != [] {
      var n := |pts|;
      ReverseSnoc(pts, pts[0]);
      assert [Reverse(pts)[n - 1]] + Reverse(pts) == Reverse(pts + [pts[0]]);
      PathCrossingsReverse(pts + [pts[0]], p);
      PathCrossingsSnoc(pts, pts[0], p);
      assert ([pts[n - 1]] + pts)[1..] == pts;
      if n == 1 {
        assert PathCrossings(pts, p) == 0;
      }
    }
  }

  /** An empty contour contains nothing. */
  lemma EmptyContainsNothing(p: Point)
    ensures !Contains([], p)
  {
  }
}
