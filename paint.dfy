/** Painting the classified contours: each root contour is filled with the
    normal compositing mode, then each of its holes is filled with a mode
    that erases what lies under it. */
module Paint {
  import opened Wrappers
  import opened Geometry
  import opened GridDedup
  import opened Offset
  import opened Polygons

  /** The canvas compositing modes the painter uses. */
  datatype Mode = SourceOver | DestinationOut

  /** One filled closed path and the mode it was composited with. */
  datatype Fill = Fill(mode: Mode, outline: seq<Point>)

  /** The drawing parameters: the dedup grid size, the boldness, and the
      normal computation, which is the caller's (one normal per point of
      the deduplicated contour, for a closed contour). */
  datatype Style = Style(sampler: real, number: real, normals: seq<Point> -> seq<Point>)

  /** The outline `draw` fills for a contour, or `None` where it fails. */
  function DrawnOutline(points: seq<Point>, style: Style): Option<seq<Point>>
    requires style.sampler != 0.0
  {
    var kept := Dedup(points, style.sampler);
    Outline(kept, style.normals(kept), style.number)
  }

  /** A contour whose deduplicated points all get a normal is drawn; its
      outline has one vertex per kept point plus the closing one, and starts
      at the contour's first point, displaced. */
  lemma DrawSucceeds(points: seq<Point>, style: Style)
    requires style.sampler != 0.0 && points != []
    requires |style.normals(Dedup(points, style.sampler))| >= |Dedup(points, style.sampler)|
    ensures DrawnOutline(points, style).Some?
    ensures |DrawnOutline(points, style).value| == |Dedup(points, style.sampler)| + 1
    ensures DrawnOutline(points, style).value[0] ==
      Displace(points[0], style.normals(Dedup(points, style.sampler))[0], style.number)
  {
    DedupKeepsFirst(points, style.sampler);
  }

  /** What the painter is asked to draw: a polygon's points and the mode to fill them with. */
  datatype Job = Job(mode: Mode, points: seq<Point>)

  /** A root contour and the contours attached to it as holes. */
  datatype Shape = Shape(solid: seq<Point>, holes: seq<seq<Point>>)

  /** The holes of a shape, each erased. */
  function HoleJobs(holes: seq<seq<Point>>): (r: seq<Job>)
    ensures |r| == |holes|
    ensures forall h :: 0 <= h < |holes| ==> r[h] == Job(DestinationOut, holes[h])
  {
    if holes == [] then [] else HoleJobs(holes[..|holes| - 1]) + [Job(DestinationOut, holes[|holes| - 1])]
  }

  /** A shape: its solid contour first, then its holes. */
  function ShapeJobs(shape: Shape): seq<Job>
  {
    [Job(SourceOver, shape.solid)] + HoleJobs(shape.holes)
  }

  /** The shapes in order, each one's jobs together. */
  function Jobs(shapes: seq<Shape>): seq<Job>
  {
    if shapes == [] then [] else Jobs(shapes[..|shapes| - 1]) + ShapeJobs(shapes[|shapes| - 1])
  }

  /** The outcome of painting: the fills made and whether painting got to the end. */
  datatype Painted = Painted(fills: seq<Fill>, ok: bool)

  /** Performs the jobs in order; the first one whose drawing fails stops the painting. */
  function Run(jobs: seq<Job>, style: Style): Painted
    requires style.sampler != 0.0
  {
    if jobs == [] then Painted([], true)
    else
      var before := Run(jobs[..|jobs| - 1], style);
      var job := jobs[|jobs| - 1];
      if !before.ok then before
      else match DrawnOutline(job.points, style)
        case None => Painted(before.fills, false)
        case Some(o) => Painted(before.fills + [Fill(job.mode, o)], true)
  }

  /** The index of the first job of shape `i`. */
  function ShapeStart(shapes: seq<Shape>, i: nat): nat
    requires i <= |shapes|
  {
    |Jobs(shapes[..i])|
  }

  /** The jobs from `start` on are the shape's: its solid contour, filled,
      then its holes in order, erased. */
  predicate Placed(jobs: seq<Job>, start: nat, shape: Shape)
  {
    start < |jobs| && jobs[start] == Job(SourceOver, shape.solid) && HolesPlaced(jobs, start + 1, shape.holes)
  }

  /** The jobs from `start` on erase the holes, in order. */
  predicate HolesPlaced(jobs: seq<Job>, start: nat, holes: seq<seq<Point>>)
  {
    start + |holes| <= |jobs| &&
    forall h :: 0 <= h < |holes| ==> jobs[start + h] == Job(DestinationOut, holes[h])
  }

  /** Shape `i`'s solid contour is filled at its start, immediately followed by
      its holes in order, erased; the next shape starts after them. */
  lemma {:induction false} PaintOrder(shapes: seq<Shape>, i: nat)
    requires i < |shapes|
    ensures ShapeStart(shapes, i + 1) == ShapeStart(shapes, i) + 1 + |shapes[i].holes|
    ensures Placed(Jobs(shapes), ShapeStart(shapes, i), shapes[i])
  {
    var front := shapes[..|shapes| - 1];
    assert shapes[..i + 1][..i] == shapes[..i];
    if i == |shapes| - 1 {
      assert shapes[..i + 1] == shapes;
      assert shapes[..i] == front;
    } else {
      PaintOrder(front, i);
      assert front[..i] == shapes[..i];
      assert front[..i + 1] == shapes[..i + 1];
    }
  }

  /** The number of holes of all the shapes together. */
  function HoleCount(shapes: seq<Shape>): nat
  {
    if shapes == [] then 0 else HoleCount(shapes[..|shapes| - 1]) + |shapes[|shapes| - 1].holes|
  }

  /** Every shape contributes one job for its solid contour and one per hole,
      nothing else. */
  lemma {:induction false} JobCount(shapes: seq<Shape>)
    ensures |Jobs(shapes)| == |shapes| + HoleCount(shapes)
  {
    if shapes != [] {
      JobCount(shapes[..|shapes| - 1]);
    }
  }

  lemma RunSnoc(jobs: seq<Job>, job: Job, style: Style)
    requires style.sampler != 0.0
    ensures Run(jobs + [job], style) ==
      var before := Run(jobs, style);
      if !before.ok then before
      else match DrawnOutline(job.points, style)
        case None => Painted(before.fills, false)
        case Some(o) => Painted(before.fills + [Fill(job.mode, o)], true)
  {
    assert (jobs + [job])[..|jobs|] == jobs;
  }

  /** Once a drawing has failed, later jobs change nothing. */
  lemma {:induction false} RunStops(jobs: seq<Job>, more: seq<Job>, style: Style)
    requires style.sampler != 0.0 && !Run(jobs, style).ok
    ensures Run(jobs + more, style) == Run(jobs, style)
  {
    if more == [] {
      assert jobs + more == jobs;
    } else {
      var front := more[..|more| - 1];
      RunStops(jobs, front, style);
      assert jobs + more == (jobs + front) + [more[|more| - 1]];
      RunSnoc(jobs + front, more[|more| - 1], style);
      assert !Run(jobs + front, style).ok;
    }
  }

  /** Painting gets to the end exactly when every job's drawing succeeds;
      then there is one fill per job, in job order, with the job's mode and
      the job's outline. */
  lemma {:induction false} RunComplete(jobs: seq<Job>, style: Style)
    requires style.sampler != 0.0
    ensures Run(jobs, style).ok <==> forall k :: 0 <= k < |jobs| ==> DrawnOutline(jobs[k].points, style).Some?
    ensures Run(jobs, style).ok ==> (|Run(jobs, style).fills| == |jobs| &&
      forall k :: 0 <= k < |jobs| ==>
        Run(jobs, style).fills[k] == Fill(jobs[k].mode, DrawnOutline(jobs[k].points, style).value))
  {
    if jobs != [] {
      var front := jobs[..|jobs| - 1];
      RunComplete(front, style);
      if !Run(front, style).ok {
        var k :| 0 <= k < |front| && DrawnOutline(front[k].points, style).None?;
        assert jobs[k] == front[k];
      }
    }
  }

  /** Whatever happens, the fills made are those of a prefix of the jobs, in order. */
  lemma {:induction false} RunPrefix(jobs: seq<Job>, style: Style)
    requires style.sampler != 0.0
    ensures |Run(jobs, style).fills| <= |jobs|
    ensures Run(jobs, style).ok ==> |Run(jobs, style).fills| == |jobs|
    ensures forall k :: 0 <= k < |Run(jobs, style).fills| ==>
      DrawnOutline(jobs[k].points, style).Some? &&
      Run(jobs, style).fills[k] == Fill(jobs[k].mode, DrawnOutline(jobs[k].points, style).value)
  {
    if jobs != [] {
      var front := jobs[..|jobs| - 1];
      RunPrefix(front, style);
    }
  }

  /** A canvas, reduced to its compositing mode and the fills made on it. */
  class Canvas {
    var composite: Mode
    var fills: seq<Fill>

    constructor ()
      ensures composite == SourceOver && fills == []
    {
      composite, fills := SourceOver, [];
    }

    /** Sets the compositing mode for later fills. */
    method SetComposite(m: Mode)
      modifies this`composite
      ensures composite == m
    {
      composite := m;
    }

    /** Fills a closed path with the current mode. */
    method FillPath(outline: seq<Point>)
      modifies this`fills
      ensures fills == old(fills) + [Fill(composite, outline)]
    {
      fills := fills + [Fill(composite, outline)];
    }

    /** Erases the whole canvas. */
    method Clear()
      modifies this`fills
      ensures fills == []
    {
      fills := [];
    }
  }

  /** `draw`: deduplicate, compute the normals, trace and fill.
      `ok` is false where the source fails, and then nothing is filled. */
  method Draw(canvas: Canvas, points: seq<Point>, style: Style) returns (ok: bool)
    requires style.sampler != 0.0
    modifies canvas`fills
    ensures ok == DrawnOutline(points, style).Some?
    ensures canvas.fills == old(canvas.fills) + if ok then [Fill(canvas.composite, DrawnOutline(points, style).value)] else []
  {
    var kept := DedupPoints(points, style.sampler);
    var outline := TraceOutline(kept, style.normals(kept), style.number);
    if outline.None? {
      return false;
    }
    canvas.FillPath(outline.value);
    ok := true;
  }

  /** The first `n` jobs have been painted onto `base`, all successfully. */
  predicate PaintedUpTo(fills: seq<Fill>, base: seq<Fill>, jobs: seq<Job>, n: nat, style: Style)
    requires style.sampler != 0.0
  {
    n <= |jobs| && Run(jobs[..n], style).ok && fills == base + Run(jobs[..n], style).fills
  }

  /** Painting the jobs onto `base` has stopped at a failed drawing, and these are its fills. */
  predicate PaintingFailed(fills: seq<Fill>, base: seq<Fill>, jobs: seq<Job>, style: Style)
    requires style.sampler != 0.0
  {
    !Run(jobs, style).ok && fills == base + Run(jobs, style).fills
  }

  /** Draws the next job of a painting in progress: `jobs[..done]` are
      painted onto `base`, and the canvas mode is the job's. If the drawing
      fails, the painting of all the jobs is over. */
  method DrawNext(canvas: Canvas, points: seq<Point>, style: Style,
                  ghost jobs: seq<Job>, ghost done: nat, ghost base: seq<Fill>) returns (ok: bool)
    requires style.sampler != 0.0 && done < |jobs| && jobs[done] == Job(canvas.composite, points)
    requires PaintedUpTo(canvas.fills, base, jobs, done, style)
    modifies canvas`fills
    ensures ok ==> PaintedUpTo(canvas.fills, base, jobs, done + 1, style)
    ensures !ok ==> PaintingFailed(canvas.fills, base, jobs, style)
    ensures !ok ==> |canvas.fills| == |base| + done && canvas.composite == jobs[done].mode
  {
    ok := Draw(canvas, points, style);
    RunComplete(jobs[..done], style);
    RunSnoc(jobs[..done], jobs[done], style);
    assert jobs[..done + 1] == jobs[..done] + [jobs[done]];
    if !ok {
      RunStops(jobs[..done + 1], jobs[done + 1..], style);
      assert jobs[..done + 1] + jobs[done + 1..] == jobs;
    }
  }

  /** The inner painting loop: each hole of a root polygon in turn, in the
      erasing mode. The holes are the jobs from `start` on. */
  method PaintHoles(canvas: Canvas, children: seq<Polygon>, style: Style,
                    ghost holes: seq<seq<Point>>, ghost jobs: seq<Job>, ghost start: nat, ghost base: seq<Fill>)
    returns (ok: bool)
    requires style.sampler != 0.0 && canvas.composite == DestinationOut && HolesPlaced(jobs, start, holes)
    requires |holes| == |children| && forall h :: 0 <= h < |children| ==> holes[h] == children[h].points
    requires PaintedUpTo(canvas.fills, base, jobs, start, style)
    modifies canvas`fills
    ensures ok ==> PaintedUpTo(canvas.fills, base, jobs, start + |holes|, style)
    ensures !ok ==> PaintingFailed(canvas.fills, base, jobs, style)
    ensures !ok ==> (start <= |canvas.fills| - |base| < start + |holes| &&
      canvas.composite == jobs[|canvas.fills| - |base|].mode)
  {
    ok := true;
    var j := 0;
    while j < |children|
      invariant 0 <= j <= |children|
      invariant PaintedUpTo(canvas.fills, base, jobs, start + j, style)
    {
      ok := DrawNext(canvas, children[j].points, style, jobs, start + j, base);
      if !ok {
        return;
      }
      j := j + 1;
    }
  }

  /** One root polygon: filled in the normal mode, then its holes erased.
      Its jobs are those from `start` on. */
  method PaintShape(canvas: Canvas, item: Polygon, style: Style,
                    ghost shape: Shape, ghost jobs: seq<Job>, ghost start: nat, ghost end: nat, ghost base: seq<Fill>)
    returns (ok: bool)
    requires style.sampler != 0.0 && end == start + 1 + |shape.holes| && Placed(jobs, start, shape)
    requires shape.solid == item.points && |shape.holes| == |item.children|
    requires forall h :: 0 <= h < |item.children| ==> shape.holes[h] == item.children[h].points
    requires PaintedUpTo(canvas.fills, base, jobs, start, style)
    modifies canvas`composite, canvas`fills
    ensures ok ==> canvas.composite == DestinationOut
    ensures ok ==> PaintedUpTo(canvas.fills, base, jobs, end, style)
    ensures !ok ==> PaintingFailed(canvas.fills, base, jobs, style)
    ensures !ok ==> (start <= |canvas.fills| - |base| < end &&
      canvas.composite == jobs[|canvas.fills| - |base|].mode)
  {
    canvas.SetComposite(SourceOver);
    ok := DrawNext(canvas, item.points, style, jobs, start, base);
    if !ok {
      return;
    }
    canvas.SetComposite(DestinationOut);
    ok := PaintHoles(canvas, item.children, style, shape.holes, jobs, start + 1, base);
  }

  /** The painting loop: every root polygon is filled in the normal mode,
      then each of its holes is filled in the erasing mode. The painting
      stops at the first drawing that fails. `shapes` is what the polygons
      hold: each root's points and its holes' points. */
  method Render(canvas: Canvas, root: seq<Polygon>, style: Style, ghost shapes: seq<Shape>) returns (ok: bool)
    requires style.sampler != 0.0 && |shapes| == |root|
    requires forall k :: 0 <= k < |root| ==> shapes[k].solid == root[k].points && |shapes[k].holes| == |root[k].children|
    requires forall k, h :: 0 <= k < |root| && 0 <= h < |root[k].children| ==> shapes[k].holes[h] == root[k].children[h].points
    modifies canvas`composite, canvas`fills
    ensures ok == Run(Jobs(shapes), style).ok
    ensures canvas.fills == old(canvas.fills) + Run(Jobs(shapes), style).fills
    ensures ok && root != [] ==> canvas.composite == DestinationOut
    ensures !ok ==> (|canvas.fills| - |old(canvas.fills)| < |Jobs(shapes)| &&
      canvas.composite == Jobs(shapes)[|canvas.fills| - |old(canvas.fills)|].mode)
    ensures root == [] ==> canvas.composite == old(canvas.composite)
  {
    ghost var jobs := Jobs(shapes);
    ghost var base := canvas.fills;
    ghost var start := 0;
    assert jobs[..0] == [];
    ok := true;
    var i := 0;
    while i < |root|
      invariant 0 <= i <= |root|
      invariant start == ShapeStart(shapes, i) <= |jobs|
      invariant PaintedUpTo(canvas.fills, base, jobs, start, style)
      invariant i > 0 ==> canvas.composite == DestinationOut
      invariant i == 0 ==> canvas.composite == old(canvas.composite)
    {
      PaintOrder(shapes, i);
      ghost var end := ShapeStart(shapes, i + 1);
      var item := root[i];
      ok := PaintShape(canvas, item, style, shapes[i], jobs, start, end, base);
      if !ok {
        return;
      }
      start := end;
      i := i + 1;
    }
    assert shapes[..|shapes|] == shapes;
    assert jobs[..|jobs|] == jobs;
  }
}
