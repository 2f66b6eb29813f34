/** Curve tessellation: quadratic and cubic Bezier segments flattened by
    de Casteljau interpolation at an adaptive number of steps. */
module Bezier {
  import opened Geometry

  /** Upper bound of the step count. */
  const MAX_BEZIER_STEPS: real := 10.0
  /** Length of control polygon that one step stands for. */
  const BEZIER_STEP_SIZE: real := 3.0

  /** A Bezier segment starting at the contour's current end point `p0`. */
  datatype Curve =
    | Conic(p0: Point, c1: Point, p: Point)
    | Cubic(p0: Point, c1: Point, c2: Point, p: Point)
  {
    /** Length of the control polygon: a cheap upper estimate of the arc length. */
    function ControlLength(sqrt: real -> real): real
    {
      match this
      case Conic(p0, c1, p) => Distance(p0, c1, sqrt) + Distance(c1, p, sqrt)
      case Cubic(p0, c1, c2, p) => Distance(p0, c1, sqrt) + Distance(c1, c2, sqrt) + Distance(c2, p, sqrt)
    }

    /** The point at parameter `t`, by nested interpolation (de Casteljau). */
    function At(t: real): Point
    {
      match this
      case Conic(p0, c1, p) => Lerp(Lerp(p0, c1, t), Lerp(c1, p, t), t)
      case Cubic(p0, c1, c2, p) =>
        var a := Lerp(Lerp(p0, c1, t), Lerp(c1, c2, t), t);
        var b := Lerp(Lerp(c1, c2, t), Lerp(c2, p, t), t);
        Lerp(a, b, t)
    }

    /** All control points and the target coincide with the start point. */
    predicate Degenerate()
    {
      match this
      case Conic(p0, c1, p) => c1 == p0 && p == p0
      case Cubic(p0, c1, c2, p) => c1 == p0 && c2 == p0 && p == p0
    }
  }

  function Max(a: real, b: real): real { if a >= b then a else b }
  function Min(a: real, b: real): real { if a <= b then a else b }

  /** The step count `max(2, min(MAX_BEZIER_STEPS, dist / BEZIER_STEP_SIZE))`.
      It is a real number and is not rounded. */
  function Steps(dist: real): (s: real)
    ensures 2.0 <= s <= MAX_BEZIER_STEPS
    ensures 2.0 <= dist / BEZIER_STEP_SIZE <= MAX_BEZIER_STEPS ==> s == dist / BEZIER_STEP_SIZE
    ensures dist / BEZIER_STEP_SIZE < 2.0 ==> s == 2.0
    ensures dist / BEZIER_STEP_SIZE > MAX_BEZIER_STEPS ==> s == MAX_BEZIER_STEPS
  {
    Max(2.0, Min(MAX_BEZIER_STEPS, dist / BEZIER_STEP_SIZE))
  }

  /** The points a loop `for i = 1; i <= steps; i++` emits at `t = i / steps`:
      one for each integer `i` in `1 .. floor(steps)`. The start point is not emitted. */
  function Samples(c: Curve, steps: real): seq<Point>
    requires steps >= 2.0
  {
    seq(steps.Floor, k requires 0 <= k < steps.Floor => c.At((k + 1) as real / steps))
  }

  /** The points appended for segment `c`, with the square root supplied by the caller. */
  function Flatten(c: Curve, sqrt: real -> real): seq<Point>
  {
    Samples(c, Steps(c.ControlLength(sqrt)))
  }

  /** An integer `i` satisfies `i <= steps` exactly when `i <= floor(steps)`. */
  lemma FloorBound(i: int, steps: real)
    ensures (i as real <= steps) <==> i <= steps.Floor
  {
  }

  /** Between 2 and 10 points are emitted for every segment, whatever its length. */
  lemma FlattenCount(c: Curve, sqrt: real -> real)
    ensures |Flatten(c, sqrt)| == Steps(c.ControlLength(sqrt)).Floor
    ensures 2 <= |Flatten(c, sqrt)| <= 10
  {
    var s := Steps(c.ControlLength(sqrt));
    FloorBound(2, s);
    FloorBound(11, s);
  }

  /** The curve starts at its start point and ends at its target. */
  lemma AtEndpoints(c: Curve)
    ensures c.At(0.0) == c.p0
    ensures c.At(1.0) == c.p
  {
  }

  /** When the step count is an integer the last emitted point is the target
      (t reaches 1); otherwise the last `t` is `floor(steps) / steps`, below 1. */
  lemma LastSample(c: Curve, steps: real)
    requires steps >= 2.0
    ensures |Samples(c, steps)| == steps.Floor >= 2
    ensures Samples(c, steps)[steps.Floor - 1] == c.At(steps.Floor as real / steps)
    ensures steps.Floor as real == steps ==> Samples(c, steps)[steps.Floor - 1] == c.p
    ensures steps.Floor as real < steps ==> steps.Floor as real / steps < 1.0
  {
    FloorBound(2, steps);
    var n := steps.Floor;
    assert Samples(c, steps)[n - 1] == c.At(n as real / steps);
    if n as real == steps {
      assert n as real / steps == 1.0;
      AtEndpoints(c);
    } else {
      DivBelowOne(n as real, steps);
    }
  }

  lemma DivBelowOne(a: real, b: real)
    requires 0.0 < b && a < b
    ensures a / b < 1.0
  {
    assert (a / b) * b == a;
  }

  /** A degenerate segment still emits its at least two points, all equal to the start point. */
  lemma DegenerateSamples(c: Curve, steps: real)
    requires steps >= 2.0
    requires c.Degenerate()
    ensures |Samples(c, steps)| >= 2
    ensures forall k :: 0 <= k < |Samples(c, steps)| ==> Samples(c, steps)[k] == c.p0
  {
    FloorBound(2, steps);
  }

  /** Quadratic Bernstein polynomial in one coordinate, with `u` standing for `1 - t`. */
  function Bernstein2(u: real, t: real, a: real, b: real, c: real): real
  {
    u * u * a + 2.0 * t * u * b + t * t * c
  }

  /** Cubic Bernstein polynomial in one coordinate, with `u` standing for `1 - t`. */
  function Bernstein3(u: real, t: real, a: real, b: real, c: real, d: real): real
  {
    u * u * u * a + 3.0 * t * u * u * b + 3.0 * t * t * u * c + t * t * t * d
  }

  /** Quadratic de Casteljau agrees with the Bernstein form
      (1-t)^2 p0 + 2 t (1-t) c1 + t^2 p. */
  lemma ConicBernstein(p0: Point, c1: Point, p: Point, t: real)
    ensures Conic(p0, c1, p).At(t).x == Bernstein2(1.0 - t, t, p0.x, c1.x, p.x)
    ensures Conic(p0, c1, p).At(t).y == Bernstein2(1.0 - t, t, p0.y, c1.y, p.y)
  {
  }

  /** Cubic de Casteljau (as nested here) agrees with the Bernstein form
      (1-t)^3 p0 + 3 t (1-t)^2 c1 + 3 t^2 (1-t) c2 + t^3 p. */
  lemma CubicBernstein(p0: Point, c1: Point, c2: Point, p: Point, t: real)
    ensures Cubic(p0, c1, c2, p).At(t).x == Bernstein3(1.0 - t, t, p0.x, c1.x, c2.x, p.x)
    ensures Cubic(p0, c1, c2, p).At(t).y == Bernstein3(1.0 - t, t, p0.y, c1.y, c2.y, p.y)
  {
    // The cubic's two inner points are the quadratic curves over (p0, c1, c2) and (c1, c2, p).
    var a, b := Conic(p0, c1, c2).At(t), Conic(c1, c2, p).At(t);
    ConicBernstein(p0, c1, c2, t);
    ConicBernstein(c1, c2, p, t);
    assert Cubic(p0, c1, c2, p).At(t) == Lerp(a, b, t);
    CubicExpansion(1.0 - t, t, p0.x, c1.x, c2.x, p.x);
    CubicExpansion(1.0 - t, t, p0.y, c1.y, c2.y, p.y);
  }

  /** The last interpolation step of the cubic, multiplied out in one coordinate. */
  lemma CubicExpansion(u: real, t: real, a: real, b: real, c: real, d: real)
    ensures u * Bernstein2(u, t, a, b, c) + t * Bernstein2(u, t, b, c, d) == Bernstein3(u, t, a, b, c, d)
  {
    assert u * Bernstein2(u, t, a, b, c) == u * u * u * a + 2.0 * t * u * u * b + t * t * u * c;
    assert t * Bernstein2(u, t, b, c, d) == t * u * u * b + 2.0 * t * t * u * c + t * t * t * d;
  }
}
