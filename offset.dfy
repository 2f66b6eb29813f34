/** Boldening one contour: every vertex is moved against its normal by the
    boldness and shifted down to the text baseline, and the resulting
    outline is traced as a closed path. */
module Offset {
  import opened Wrappers
  import opened Geometry

  /** The vertical offset at which the text is drawn. */
  const BASELINE: real := 100.0

  /** A vertex moved by `number` against its normal `n`, then shifted down to the baseline. */
  function Displace(p: Point, n: Point, number: real): Point
  {
    Point(p.x - n.x * number, p.y + BASELINE - n.y * number)
  }

  /** The vertices of the traced outline: each point displaced by its own
      normal, then the first one again to close the path. `None` where the
      source fails: there is no first point, or a point has no normal. */
  function Outline(pts: seq<Point>, normals: seq<Point>, number: real): Option<seq<Point>>
  {
    if pts == [] || |normals| < |pts| then None
    else Some(seq(|pts|, i requires 0 <= i < |pts| => Displace(pts[i], normals[i], number)) +
              [Displace(pts[0], normals[0], number)])
  }

  /** The outline exists exactly when there is a point and every point has a normal. */
  lemma OutlineDefined(pts: seq<Point>, normals: seq<Point>, number: real)
    ensures Outline(pts, normals, number).Some? <==> pts != [] && |normals| >= |pts|
  {
  }

  /** The outline has one vertex per point plus the closing one, and it ends where it starts. */
  lemma OutlineClosed(pts: seq<Point>, normals: seq<Point>, number: real)
    requires Outline(pts, normals, number).Some?
    ensures |Outline(pts, normals, number).value| == |pts| + 1
    ensures Outline(pts, normals, number).value[|pts|] == Outline(pts, normals, number).value[0]
  {
  }

  /** Every vertex lies at distance `number * |n|` from the point it came from,
      shifted to the baseline (stated on squares, so no square root is needed). */
  lemma OutlineOffset(pts: seq<Point>, normals: seq<Point>, number: real, i: nat)
    requires Outline(pts, normals, number).Some? && i < |pts|
    ensures var v, p, n := Outline(pts, normals, number).value[i], pts[i], normals[i];
      (v.x - p.x) * (v.x - p.x) + (v.y - (p.y + BASELINE)) * (v.y - (p.y + BASELINE)) ==
      number * number * (n.x * n.x + n.y * n.y)
  {
    var v, p, n := Outline(pts, normals, number).value[i], pts[i], normals[i];
    assert v.x - p.x == -(n.x * number);
    assert v.y - (p.y + BASELINE) == -(n.y * number);
  }

  /** With zero boldness the outline is the contour itself, shifted to the baseline. */
  lemma OutlineUnbolded(pts: seq<Point>, normals: seq<Point>, i: nat)
    requires Outline(pts, normals, 0.0).Some? && i < |pts|
    ensures Outline(pts, normals, 0.0).value[i] == Point(pts[i].x, pts[i].y + BASELINE)
  {
  }

  /** Moving the contour moves its outline by the same amount. */
  lemma OutlineTranslates(pts: seq<Point>, normals: seq<Point>, number: real, d: Point)
    requires Outline(pts, normals, number).Some?
    ensures var moved := seq(|pts|, i requires 0 <= i < |pts| => Point(pts[i].x + d.x, pts[i].y + d.y));
      Outline(moved, normals, number).Some? &&
      forall i :: 0 <= i <= |pts| ==>
        Outline(moved, normals, number).value[i] ==
        Point(Outline(pts, normals, number).value[i].x + d.x, Outline(pts, normals, number).value[i].y + d.y)
  {
  }

  /** Traces the outline of one deduplicated contour. The points are copied
      into a fresh array whose first entry is displaced in place; that entry
      starts the path and closes it. */
  method TraceOutline(pts: seq<Point>, normals: seq<Point>, number: real) returns (r: Option<seq<Point>>)
    ensures r == Outline(pts, normals, number)
  {
    if |normals| == 0 || |pts| == 0 {
      return None;
    }
    var points := new Point[|pts|](k requires 0 <= k < |pts| => pts[k]);
    points[0] := Point(points[0].x - normals[0].x * number, points[0].y - normals[0].y * number);
    var first := points[0];
    var path := [Point(first.x, first.y + BASELINE)];
    var i := 1;
    while i < points.Length
      invariant 1 <= i <= points.Length && i <= |normals|
      invariant forall k :: 1 <= k < points.Length ==> points[k] == pts[k]
      invariant |path| == i
      invariant forall k :: 0 <= k < i ==> path[k] == Displace(pts[k], normals[k], number)
    {
      if i >= |normals| {
        return None;
      }
      var n := normals[i];
      var p := points[i];
      path := path + [Point(p.x - n.x * number, p.y + BASELINE - n.y * number)];
      i := i + 1;
    }
    path := path + [Point(first.x, first.y + BASELINE)];
    assert path == Outline(pts, normals, number).value;
    r := Some(path);
  }
}
