/** Scalar vector math shared by the tessellator, the contour builder and the offsetter. */
module Geometry {

  /** A point (or a direction vector) with real coordinates. */
  datatype Point = Point(x: real, y: real)

  /** Euclidean distance. The square root is the caller's: it is an input of
      the model, not something the model computes. */
  function Distance(a: Point, b: Point, sqrt: real -> real): real
  {
    var dx, dy := a.x - b.x, a.y - b.y;
    sqrt(dx * dx + dy * dy)
  }

  /** Linear interpolation; `t` is not clamped, so it extrapolates outside [0, 1]. */
  function Lerp(a: Point, b: Point, t: real): (r: Point)
    ensures t == 0.0 ==> r == a
    ensures t == 1.0 ==> r == b
    ensures a == b ==> r == a
  {
    Point((1.0 - t) * a.x + t * b.x, (1.0 - t) * a.y + t * b.y)
  }

  /** The 2D cross product (the z component of the 3D one). */
  function Cross(a: Point, b: Point): real
  {
    a.x * b.y - a.y * b.x
  }

  lemma CrossAntisymmetric(a: Point, b: Point)
    ensures Cross(b, a) == -Cross(a, b)
  {
  }
}
