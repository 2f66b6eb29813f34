/** The whole rendering of one text: build the contours from the outline
    commands, sort them by decreasing absolute area, classify them into
    roots and holes, clear the canvas and paint. */
module Pipeline {
  import opened Wrappers
  import opened Geometry
  import opened Sequences
  import opened Polygons
  import opened Dispatch
  import opened Sorting
  import opened Classify
  import opened Paint

  function Areas(cs: seq<Contour>): (r: seq<real>)
    ensures |r| == |cs| && forall k :: 0 <= k < |cs| ==> r[k] == cs[k].area
  {
    seq(|cs|, k requires 0 <= k < |cs| => cs[k].area)
  }

  /** The contours in the order the classifier visits them. */
  function SortContours(cs: seq<Contour>): (r: seq<Contour>)
    ensures |r| == |cs|
    ensures AllNonEmpty(cs) ==> AllNonEmpty(r)
  {
    Select(cs, Order(Areas(cs)))
  }

  /** The sorted contours are the input contours, rearranged: each position
      of the input is taken exactly once ... */
  lemma SortContoursPermutes(cs: seq<Contour>)
    ensures IsOrder(Order(Areas(cs)), |cs|) && Covers(Order(Areas(cs)), |cs|)
    ensures forall k :: 0 <= k < |cs| ==> SortContours(cs)[k] == cs[Order(Areas(cs))[k]]
  {
    OrderCorrect(Areas(cs));
  }

  /** ... larger absolute areas come first ... */
  lemma SortContoursDescending(cs: seq<Contour>)
    ensures forall a, b :: 0 <= a < b < |cs| ==> Abs(SortContours(cs)[a].area) >= Abs(SortContours(cs)[b].area)
  {
    var areas := Areas(cs);
    var ord := Order(areas);
    OrderCorrect(areas);
    assert ByDescendingArea(areas, ord);
    var r := SortContours(cs);
    forall a, b | 0 <= a < b < |cs| ensures Abs(r[a].area) >= Abs(r[b].area) {
      assert r[a].area == areas[ord[a]] && r[b].area == areas[ord[b]];
      assert Abs(areas[ord[a]]) >= Abs(areas[ord[b]]);
    }
  }

  /** ... and contours of equal absolute area keep their input order. */
  lemma SortContoursStable(cs: seq<Contour>)
    ensures forall a, b :: 0 <= a < b < |cs| && Abs(SortContours(cs)[a].area) == Abs(SortContours(cs)[b].area) ==>
      Order(Areas(cs))[a] < Order(Areas(cs))[b]
  {
    var areas := Areas(cs);
    var ord := Order(areas);
    OrderCorrect(areas);
    assert TiesInInputOrder(areas, ord);
    var r := SortContours(cs);
    forall a, b | 0 <= a < b < |cs| && Abs(r[a].area) == Abs(r[b].area) ensures ord[a] < ord[b] {
      assert r[a].area == areas[ord[a]] && r[b].area == areas[ord[b]];
      assert Abs(areas[ord[a]]) == Abs(areas[ord[b]]);
    }
  }

  /** The points of the contours at the positions `idx`. */
  function PointsAt(cs: seq<Contour>, idx: seq<nat>): (r: seq<seq<Point>>)
    requires forall k :: 0 <= k < |idx| ==> idx[k] < |cs|
    ensures |r| == |idx| && forall h :: 0 <= h < |idx| ==> r[h] == cs[idx[h]].points
  {
    seq(|idx|, h requires 0 <= h < |idx| => cs[idx[h]].points)
  }

  /** What gets painted for classified contours: each root, in order, with its holes. */
  function Shapes(cs: seq<Contour>): (r: seq<Shape>)
    requires AllNonEmpty(cs)
    ensures |r| == |Roots(cs, |cs|)|
  {
    var roots := Roots(cs, |cs|);
    seq(|roots|, k requires 0 <= k < |roots| => Shape(cs[roots[k]].points, PointsAt(cs, Holes(cs, roots[k], |cs|))))
  }

  /** The shapes of a text, or `None` when its commands fail. */
  function Picture(cmds: seq<Command>, sqrt: real -> real): Option<seq<Shape>>
  {
    match Build(cmds, sqrt)
    case None => None
    case Some(cs) => Some(Shapes(SortContours(cs)))
  }

  lemma SelectDistinct(polys: seq<Polygon>, ord: seq<nat>)
    requires Distinct(polys) && IsOrder(ord, |polys|)
    ensures Distinct(Select(polys, ord))
  {
  }

  /** After classification, the roots and their children hold exactly what the shapes describe. */
  lemma Depicted(sorted: seq<Polygon>, scs: seq<Contour>, root: seq<Polygon>)
    requires AllNonEmpty(scs) && |scs| == |sorted|
    requires forall k :: 0 <= k < |sorted| ==> sorted[k].Value() == scs[k]
    requires root == Select(sorted, Roots(scs, |sorted|))
    requires forall j :: 0 <= j < |sorted| ==> sorted[j].children == Select(sorted, Holes(scs, j, |sorted|))
    ensures |Shapes(scs)| == |root|
    ensures forall k :: 0 <= k < |root| ==>
      Shapes(scs)[k].solid == root[k].points && |Shapes(scs)[k].holes| == |root[k].children|
    ensures forall k, h :: 0 <= k < |root| && 0 <= h < |root[k].children| ==>
      Shapes(scs)[k].holes[h] == root[k].children[h].points
  {
    var roots := Roots(scs, |scs|);
    forall k, h | 0 <= k < |root| && 0 <= h < |root[k].children|
      ensures Shapes(scs)[k].holes[h] == root[k].children[h].points
    {
      var holes := Holes(scs, roots[k], |scs|);
      assert root[k] == sorted[roots[k]];
      assert root[k].children[h] == sorted[holes[h]];
    }
  }

  /** Builds the contours of a text and puts them in classification order.
      The polygons are new and have no children yet. */
  method SortedPolygons(cmds: seq<Command>, sqrt: real -> real) returns (sorted: seq<Polygon>, ok: bool)
    ensures ok == Build(cmds, sqrt).Some?
    ensures ok ==> Models(sorted, SortContours(Build(cmds, sqrt).value))
    ensures Distinct(sorted)
    ensures forall k :: 0 <= k < |sorted| ==> fresh(sorted[k]) && sorted[k].children == []
  {
    var polys, built := BuildContours(cmds, sqrt);
    if !built {
      return [], false;
    }
    ghost var cs := Build(cmds, sqrt).value;
    var areas := seq(|polys|, k requires 0 <= k < |polys| reads polys => polys[k].area);
    assert areas == Areas(cs);
    var order := Order(areas);
    OrderCorrect(areas);
    sorted := Select(polys, order);
    SelectDistinct(polys, order);
    ok := true;
  }

  /** Renders a text: the contours are built from the commands, sorted,
      classified, and painted onto the cleared canvas. When the commands
      fail, nothing happens to the canvas. */
  method RenderText(canvas: Canvas, cmds: seq<Command>, sqrt: real -> real, style: Style) returns (ok: bool)
    requires style.sampler != 0.0
    modifies canvas`composite, canvas`fills
    ensures Picture(cmds, sqrt).None? ==>
      !ok && canvas.fills == old(canvas.fills) && canvas.composite == old(canvas.composite)
    ensures Picture(cmds, sqrt).Some? ==>
      ok == Run(Jobs(Picture(cmds, sqrt).value), style).ok &&
      canvas.fills == Run(Jobs(Picture(cmds, sqrt).value), style).fills
    ensures Picture(cmds, sqrt).Some? && ok && Picture(cmds, sqrt).value != [] ==>
      canvas.composite == DestinationOut
    ensures Picture(cmds, sqrt) == Some([]) ==> canvas.composite == old(canvas.composite)
    ensures Picture(cmds, sqrt).Some? && !ok ==>
      (|canvas.fills| < |Jobs(Picture(cmds, sqrt).value)| &&
       canvas.composite == Jobs(Picture(cmds, sqrt).value)[|canvas.fills|].mode)
  {
    var sorted, built := SortedPolygons(cmds, sqrt);
    if !built {
      return false;
    }
    ghost var scs := SortContours(Build(cmds, sqrt).value);
    var root := ClassifyContours(sorted, scs);
    canvas.Clear();
    Depicted(sorted, scs, root);
    ok := Render(canvas, root, style, Shapes(scs));
  }
}
