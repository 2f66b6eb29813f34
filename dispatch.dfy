/** The path-command dispatcher: turns a glyph's command list into contours,
    one per subpath. */
module Dispatch {
  import opened Wrappers
  import opened Geometry
  import opened Bezier
  import opened Area
  import opened Polygons

  /** One outline command, with the target point first and control points after. */
  datatype Command =
    | Move(p: Point)                               // 'M'
    | Line(p: Point)                               // 'L'
    | CubicCurve(p: Point, c1: Point, c2: Point)   // 'C'
    | QuadCurve(p: Point, c1: Point)               // 'Q'
    | ClosePath                                    // 'Z'

  /** One command applied to the contours built so far. A command other than
      `Move` needs a contour to work on; without one the source fails (it
      dereferences the missing last polygon), and so does this: `None`. */
  function Apply(cs: seq<Contour>, cmd: Command, sqrt: real -> real): (r: Option<seq<Contour>>)
    requires AllNonEmpty(cs)
    ensures r.Some? ==> AllNonEmpty(r.value)
  {
    if cmd.Move? then Some(cs + [Contour([cmd.p], 0.0)])
    else if cs == [] then None
    else
      var last := cs[|cs| - 1];
      var p0 := last.points[|last.points| - 1];
      var updated := match cmd
        case Line(p) => Contour(last.points + [p], last.area)
        case QuadCurve(p, c1) => Contour(last.points + Flatten(Conic(p0, c1, p), sqrt), last.area)
        case CubicCurve(p, c1, c2) => Contour(last.points + Flatten(Cubic(p0, c1, c2, p), sqrt), last.area)
        case ClosePath => Contour(last.points, last.area + SignedArea(last.points));
      Some(cs[..|cs| - 1] + [updated])
  }

  /** The contours a command list produces, processed in order; `None` if a command fails. */
  function Build(cmds: seq<Command>, sqrt: real -> real): (r: Option<seq<Contour>>)
    ensures r.Some? ==> AllNonEmpty(r.value)
  {
    if cmds == [] then Some([])
    else
      match Build(cmds[..|cmds| - 1], sqrt)
      case None => None
      case Some(cs) => Apply(cs, cmds[|cmds| - 1], sqrt)
  }

  /** The points of the `Move` commands, in order. */
  function MovePoints(cmds: seq<Command>): seq<Point>
  {
    if cmds == [] then []
    else MovePoints(cmds[..|cmds| - 1]) + (if cmds[|cmds| - 1].Move? then [cmds[|cmds| - 1].p] else [])
  }

  /** Processing one more command applies it to the contours built so far. */
  lemma BuildStep(cmds: seq<Command>, i: nat, sqrt: real -> real)
    requires i < |cmds| && Build(cmds[..i], sqrt).Some?
    ensures Build(cmds[..i + 1], sqrt) == Apply(Build(cmds[..i], sqrt).value, cmds[i], sqrt)
  {
    assert cmds[..i + 1][..i] == cmds[..i];
  }

  /** There is one contour per `Move`, and each starts at its `Move`'s point. */
  lemma {:induction false} BuildShape(cmds: seq<Command>, sqrt: real -> real)
    requires Build(cmds, sqrt).Some?
    ensures |Build(cmds, sqrt).value| == |MovePoints(cmds)|
    ensures forall k :: 0 <= k < |MovePoints(cmds)| ==> Build(cmds, sqrt).value[k].points[0] == MovePoints(cmds)[k]
  {
    if cmds != [] {
      var front := cmds[..|cmds| - 1];
      BuildShape(front, sqrt);
      var cs := Build(front, sqrt).value;
      var r := Build(cmds, sqrt).value;
      if !cmds[|cmds| - 1].Move? {
        forall k | 0 <= k < |r| ensures r[k].points[0] == cs[k].points[0] {
          if k == |cs| - 1 {
            assert r[k].points[..|cs[k].points|] == cs[k].points;
          }
        }
      }
    }
  }

  /** The command list succeeds exactly when it is empty or starts with a `Move`. */
  lemma {:induction false} BuildSucceeds(cmds: seq<Command>, sqrt: real -> real)
    ensures Build(cmds, sqrt).Some? <==> (cmds == [] || cmds[0].Move?)
  {
    if |cmds| >= 2 {
      var front := cmds[..|cmds| - 1];
      BuildSucceeds(front, sqrt);
      assert front[0] == cmds[0];
      if cmds[0].Move? {
        BuildShape(front, sqrt);
        MovePointsFirst(front);
      }
    }
  }

  lemma {:induction false} MovePointsFirst(cmds: seq<Command>)
    requires cmds != [] && cmds[0].Move?
    ensures |MovePoints(cmds)| >= 1
  {
    if |cmds| > 1 {
      assert cmds[..|cmds| - 1][0] == cmds[0];
      MovePointsFirst(cmds[..|cmds| - 1]);
    }
  }

  /** A command other than `Move` with no contour to work on makes the whole list fail. */
  lemma FailsWithoutContour(cmds: seq<Command>, i: nat, sqrt: real -> real)
    requires i < |cmds| && !cmds[i].Move?
    requires Build(cmds[..i], sqrt) == Some([])
    ensures Build(cmds, sqrt).None?
  {
    BuildSucceeds(cmds, sqrt);
    if i > 0 {
      assert cmds[..i][0] == cmds[0];
      BuildSucceeds(cmds[..i], sqrt);
      BuildShape(cmds[..i], sqrt);
      MovePointsFirst(cmds[..i]);
    }
  }

  /** The live polygons hold exactly the given contour values. */
  ghost predicate Models(polys: seq<Polygon>, cs: seq<Contour>)
    reads polys
  {
    |polys| == |cs| && forall k :: 0 <= k < |polys| ==> polys[k].Value() == cs[k]
  }

  /** A new polygon holding just the point of a `Move`. */
  method StartContour(p: Point) returns (poly: Polygon)
    ensures fresh(poly)
    ensures poly.Value() == Contour([p], 0.0) && poly.children == []
  {
    poly := new Polygon();
    poly.MoveTo(p);
  }

  /** Sends a command other than `Move` to the last polygon. */
  method ApplyToLast(polys: seq<Polygon>, cmd: Command, sqrt: real -> real, ghost cs: seq<Contour>)
    requires !cmd.Move? && polys != []
    requires Models(polys, cs) && AllNonEmpty(cs) && Distinct(polys)
    modifies polys[|polys| - 1]
    ensures Apply(cs, cmd, sqrt).Some? && Models(polys, Apply(cs, cmd, sqrt).value)
    ensures polys[|polys| - 1].children == old(polys[|polys| - 1].children)
  {
    var last := polys[|polys| - 1];
    match cmd {
      case Line(p) => last.MoveTo(p);
      case CubicCurve(p, c1, c2) => last.CubicTo(p, c1, c2, sqrt);
      case QuadCurve(p, c1) => last.ConicTo(p, c1, sqrt);
      case ClosePath => last.Close();
    }
    ghost var r := Apply(cs, cmd, sqrt).value;
    assert forall k :: 0 <= k < |polys| - 1 ==> polys[k].Value() == old(polys[k].Value()) == r[k];
  }

  /** Dispatches every command to the polygon it concerns: `Move` starts a new
      polygon, the others extend or close the last one. `ok` is false where the
      source would fail. */
  method BuildContours(cmds: seq<Command>, sqrt: real -> real) returns (polys: seq<Polygon>, ok: bool)
    ensures ok == Build(cmds, sqrt).Some?
    ensures ok ==> Models(polys, Build(cmds, sqrt).value)
    ensures Distinct(polys)
    ensures forall k :: 0 <= k < |polys| ==> fresh(polys[k]) && polys[k].children == []
  {
    polys, ok := [], true;
    var i := 0;
    while i < |cmds|
      invariant 0 <= i <= |cmds|
      invariant Build(cmds[..i], sqrt).Some?
      invariant Models(polys, Build(cmds[..i], sqrt).value)
      invariant Distinct(polys)
      invariant forall k :: 0 <= k < |polys| ==> fresh(polys[k]) && polys[k].children == []
    {
      ghost var cs := Build(cmds[..i], sqrt).value;
      BuildStep(cmds, i, sqrt);
      if cmds[i].Move? {
        var poly := StartContour(cmds[i].p);
        polys := polys + [poly];
      } else if |polys| == 0 {
        FailsWithoutContour(cmds, i, sqrt);
        ok := false;
        return;
      } else {
        ApplyToLast(polys, cmds[i], sqrt, cs);
      }
      i := i + 1;
    }
    assert cmds[..i] == cmds;
  }
}
