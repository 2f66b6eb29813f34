/** The contour builder: a polygon that path commands append points to,
    closed once to compute its signed area, and later given its holes. */
module Polygons {
  import opened Geometry
  import opened Bezier
  import opened Area
  import opened Crossing

  /** The part of a polygon that classification and painting look at, as a value. */
  datatype Contour = Contour(points: seq<Point>, area: real)

  /** Every contour has at least one point (its subpath's starting point). */
  predicate AllNonEmpty(cs: seq<Contour>)
  {
    forall k :: 0 <= k < |cs| ==> cs[k].points != []
  }

  /** No polygon occurs twice. */
  predicate Distinct(polys: seq<Polygon>)
  {
    forall a, b :: 0 <= a < b < |polys| ==> polys[a] != polys[b]
  }

  class Polygon {
    /** The contour's vertices; their order is the winding order. */
    var points: seq<Point>
    /** Holes (contours of opposite winding inside this one), in attachment order. */
    var children: seq<Polygon>
    /** Signed area accumulated by `Close`. */
    var area: real

    constructor ()
      ensures points == [] && children == [] && area == 0.0
    {
      points, children, area := [], [], 0.0;
    }

    function Value(): Contour
      reads this
    {
      Contour(points, area)
    }

    /** Appends one point; nothing else changes. */
    method MoveTo(p: Point)
      modifies this`points
      ensures points == old(points) + [p]
      ensures area == old(area) && children == old(children)
    {
      points := points + [p];
    }

    /** The same operation as `MoveTo`. */
    method LineTo(p: Point)
      modifies this`points
      ensures points == old(points) + [p]
      ensures area == old(area) && children == old(children)
    {
      MoveTo(p);
    }

    /** Walks the cyclic polyline from the last point and adds each edge's
        contribution to `area`. Calling it twice adds the area twice. */
    method Close()
      modifies this`area
      ensures area == old(area) + SignedArea(points)
      ensures |points| == 0 ==> area == old(area)
    {
      if |points| == 0 {
        return;
      }
      ghost var walk := [points[|points| - 1]] + points;
      var cur := points[|points| - 1];
      var i := 0;
      while i < |points|
        invariant 0 <= i <= |points|
        invariant cur == walk[i]
        invariant area == old(area) + PathArea(walk[..i + 1])
      {
        var next := points[i];
        PathAreaPrefix(walk, i);
        area := area + 0.5 * Cross(cur, next);
        cur := next;
        i := i + 1;
      }
      assert walk[..i + 1] == walk;
    }

    /** Flattens the quadratic segment from the last point through control
        point `p1` to `p`, appending `floor(steps)` points. */
    method ConicTo(p: Point, p1: Point, sqrt: real -> real)
      requires |points| > 0
      modifies this`points
      ensures points == old(points) + Flatten(Conic(old(points)[|old(points)| - 1], p1, p), sqrt)
      ensures area == old(area) && children == old(children)
    {
      var p0 := points[|points| - 1];
      ghost var curve := Conic(p0, p1, p);
      var dist := Distance(p0, p1, sqrt) + Distance(p1, p, sqrt);
      var steps := Max(2.0, Min(MAX_BEZIER_STEPS, dist / BEZIER_STEP_SIZE));
      assert steps == Steps(curve.ControlLength(sqrt));
      var i := 1;
      while i as real <= steps
        invariant 1 <= i <= steps.Floor + 1
        invariant points == old(points) + Samples(curve, steps)[..i - 1]
        decreases steps.Floor + 1 - i
      {
        FloorBound(i, steps);
        var t := i as real / steps;
        assert Samples(curve, steps)[..i] == Samples(curve, steps)[..i - 1] + [curve.At(t)];
        points := points + [Lerp(Lerp(p0, p1, t), Lerp(p1, p, t), t)];
        i := i + 1;
      }
      FloorBound(i, steps);
      assert Samples(curve, steps)[..i - 1] == Samples(curve, steps);
    }

    /** Flattens the cubic segment from the last point through control points
        `p1`, `p2` to `p`, appending `floor(steps)` points. */
    method CubicTo(p: Point, p1: Point, p2: Point, sqrt: real -> real)
      requires |points| > 0
      modifies this`points
      ensures points == old(points) + Flatten(Cubic(old(points)[|old(points)| - 1], p1, p2, p), sqrt)
      ensures area == old(area) && children == old(children)
    {
      var p0 := points[|points| - 1];
      ghost var curve := Cubic(p0, p1, p2, p);
      var dist := Distance(p0, p1, sqrt) + Distance(p1, p2, sqrt) + Distance(p2, p, sqrt);
      var steps := Max(2.0, Min(MAX_BEZIER_STEPS, dist / BEZIER_STEP_SIZE));
      assert steps == Steps(curve.ControlLength(sqrt));
      var i := 1;
      while i as real <= steps
        invariant 1 <= i <= steps.Floor + 1
        invariant points == old(points) + Samples(curve, steps)[..i - 1]
        decreases steps.Floor + 1 - i
      {
        FloorBound(i, steps);
        var t := i as real / steps;
        assert Samples(curve, steps)[..i] == Samples(curve, steps)[..i - 1] + [curve.At(t)];
        var a := Lerp(Lerp(p0, p1, t), Lerp(p1, p2, t), t);
        var b := Lerp(Lerp(p1, p2, t), Lerp(p2, p, t), t);
        points := points + [Lerp(a, b, t)];
        i := i + 1;
      }
      FloorBound(i, steps);
      assert Samples(curve, steps)[..i - 1] == Samples(curve, steps);
    }

    /** Attaches `hole` as this polygon's last child; nothing else changes. */
    method AddChild(hole: Polygon)
      modifies this`children
      ensures children == old(children) + [hole]
    {
      children := children + [hole];
    }

    /** Crossing-number test of `q` against this contour. */
    method Inside(q: Point) returns (r: bool)
      ensures r == Contains(points, q)
    {
      var count := 0;
      if |points| > 0 {
        ghost var walk := [points[|points| - 1]] + points;
        var cur := points[|points| - 1];
        var i := 0;
        while i < |points|
          invariant 0 <= i <= |points|
          invariant cur == walk[i]
          invariant count == PathCrossings(walk[..i + 1], q)
        {
          var next := points[i];
          var p0 := if cur.y < next.y then cur else next;
          var p1 := if cur.y < next.y then next else cur;
          ghost var before := count;
          if p0.y < q.y + EPSILON && p1.y > q.y + EPSILON {
            if (p1.x - p0.x) * (q.y - p0.y) > (q.x - p0.x) * (p1.y - p0.y) {
              count := count + 1;
            }
          }
          assert count == before + if Crosses(cur, next, q) then 1 else 0;
          PathCrossingsPrefix(walk, i, q);
          cur := next;
          i := i + 1;
        }
        assert walk[..i + 1] == walk;
      }
      r := count % 2 != 0;
    }
  }
}
