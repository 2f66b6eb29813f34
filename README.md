# path-font-boldness, modelled in Dafny

The program renders a line of text in a bold outline font. Each glyph
outline comes as a list of path commands. The program:

- turns each subpath into a closed polygon and flattens curves into points;
- computes each polygon's signed area;
- sorts the polygons by decreasing absolute area;
- classifies them into solid "roots", each with its own list of holes.

It then paints each root:

- A polygon's vertices are deduplicated on a grid of cell size `sampler`.
- Each vertex is moved against its normal by the boldness `number`, and the
  result is shifted to the baseline `y = 100`.
- The root's thickened outline is filled in `source-over` mode.
- Then each of its holes is filled in `destination-out` mode, which erases
  what lies under the hole.

This project models that core, `main.js`, module by module:

- `geometry.dfy` (`Geometry`): points, distance, interpolation and the cross product.
- `sequences.dfy` (`Sequences`): reversal, and selecting elements by position.
- `bezier.dfy` (`Bezier`): the step count and the points emitted when a curve is flattened.
- `area.dfy` (`Area`): the signed area the closing walk accumulates, and the shoelace formula.
- `crossing.dfy` (`Crossing`): the crossing-number test for whether a point is inside a contour.
- `polygon.dfy` (`Polygons`): the `Polygon` class and its operations.
- `dispatch.dfy` (`Dispatch`): building the contours from the commands. This is a value-level
  fold (`Build`) together with the imperative loop over live polygons (`BuildContours`).
- `sorting.dfy` (`Sorting`): the stable order of positions by decreasing absolute area.
- `classify.dfy` (`Classify`): the in-place root/hole classification, proved against
  `Parent`, `Roots` and `Holes`.
- `dedup.dfy` (`GridDedup`): the grid deduplication loop, proved against `Dedup` and its properties.
- `offset.dfy` (`Offset`): the thickened outline of one contour, traced over an array.
- `paint.dfy` (`Paint`): the canvas, reduced to its compositing mode and its list of fills,
  and the painting loop proved against the value-level `Run` of the paint jobs.
- `pipeline.dfy` (`Pipeline`): one whole update. The steps are build, sort, classify,
  clear and paint, specified by `Picture`: the roots of the sorted contours, each with its holes.

Each imperative method keeps the source's form: the `Polygon` class with its
fields, loops with invariants, and the in-place displacement of the first
vertex. Each method is proved equal to a function. The source's promises are
proved as lemmas about that function.

Nesting is one level deep: a hole's own `children` list is filled by the
classifier but never painted. `Render` paints only the roots' direct
children, and `Paint.PaintOrder` / `Paint.JobCount` state that the jobs are
exactly each root followed by its holes.

## Model

| member | source | states |
|---|---|---|
| Geometry.Distance | main.js:5-8 | the Euclidean distance, with the square root supplied by the caller |
| Geometry.Cross | main.js:14-16 | the z component of the cross product |
| Bezier.Curve.At | main.js:53 | the point at parameter t by nested interpolation, for quadratic and cubic segments |
| Bezier.Samples | main.js:51-54 | the points the loop emits: one per integer i in 1 .. floor(steps), at t = i / steps |
| Bezier.Flatten | main.js:47-66 | the samples of a segment at the step count of its control-polygon length |
| Area.SignedArea | main.js:39-45 | the area the closing walk adds, starting from the last point |
| Crossing.Crosses | main.js:72-78 | whether one edge, ordered by y, straddles the shifted test line with the point on its left |
| Crossing.Contains | main.js:69-81 | whether the crossing count over the cyclic polyline is odd |
| Classify.CanHold | main.js:134 | a contour can hold another when it contains that one's first point and their areas have a negative product |
| Classify.Scan | main.js:132-138 | the reverse scan for the first contour that can hold a given one |
| Classify.Parent | main.js:131-138 | the parent is the result of the scan over all earlier contours |
| Classify.Roots | main.js:139-143 | the positions without a parent, in position order; each is below the bound |
| Classify.Holes | main.js:139-141 | the positions whose parent is a given contour, in position order; each is below the bound |
| Sorting.Order | main.js:127 | the stable order of all positions by decreasing absolute area; it has one entry per area, each a valid position |
| GridDedup.Key | main.js:199 | the grid cell of a point: both coordinates divided by the cell size and floored |
| GridDedup.Dedup | main.js:196-204 | the points in order, each dropped when an earlier kept point has its cell |
| Offset.Displace | main.js:212-221 | a vertex moved against its normal by the boldness and shifted to the baseline |
| Offset.Outline | main.js:205-223 | the displaced vertices followed by the first one again, or none when there is no point or a normal is missing |
| Paint.DrawnOutline | main.js:193-226 | the outline `draw` fills: deduplicate, compute normals, offset |
| Paint.Jobs | main.js:227-236 | each root shape's solid contour, then its holes, shape after shape |
| Paint.Run | main.js:227-236 | the jobs performed in order, stopping at the first one whose drawing fails |
| Bezier.Curve.ControlLength | main.js:49 | the length of the control polygon, the sum of distances that sets the step count (also main.js:59) |
| Area.EdgeArea | main.js:42 | the contribution of one directed edge: half the cross product of its ends |
| Crossing.CrossingCount | main.js:70-80 | the number of crossing edges over the walk from the last point through every point |
| GridDedup.Keys | main.js:196-202 | the set of grid cells the points fall into, as the `duplicated` set holds them |
| Sorting.Insert | main.js:127 | the position inserted after every leading position of at least its absolute area; the result holds it and every earlier position, and nothing else |
| Sorting.OrderOf | main.js:127 | the stable insertion-sort order of the first n positions; it has n entries, each below n |
| Pipeline.SortContours | main.js:127 | the contours in the order the sort leaves them; as many as in the input, all non-empty when the input's are |
| Pipeline.Shapes | main.js:129-144 | each root contour, in order, with the points of its holes; one shape per root |
| Pipeline.Picture | main.js:104-236 | the shapes of a text: the roots of the sorted contours, each with its holes' points, or none when the commands fail |
| Geometry.Lerp | main.js:10-12 | interpolation returns the first point at t = 0, the second at t = 1, and the common point when both are equal |
| Geometry.CrossAntisymmetric | main.js:14-16 | swapping the operands of the cross product negates it |
| Bezier.Steps | main.js:50 | the step count is `dist / 3` clamped to [2, 10] and is not rounded |
| Bezier.FlattenCount | main.js:50-54 | a flattened segment emits floor(steps) points, between 2 and 10 |
| Bezier.AtEndpoints | main.js:53 | the de Casteljau evaluation is the start point at t = 0 and the target at t = 1 |
| Bezier.LastSample | main.js:51-53 | the last emitted point is at t = floor(steps)/steps; it is the target when the step count is an integer; otherwise the last t is floor(steps)/steps < 1 |
| Bezier.DegenerateSamples | main.js:47-55 | a segment whose control points all equal the start still emits at least two points, all equal to the start |
| Bezier.ConicBernstein | main.js:53 | the nested interpolation of a quadratic equals its Bernstein polynomial in each coordinate |
| Bezier.CubicBernstein | main.js:63-65 | the nested interpolation of a cubic equals its Bernstein polynomial in each coordinate |
| Area.SignedAreaIsShoelace | main.js:39-45 | the area added by the closing walk, which starts at the last point, equals the textbook shoelace sum over the cyclic edges |
| Area.SignedAreaReverse | main.js:39-45 | reversing the winding order negates the signed area |
| Area.SignedAreaEmpty | main.js:39-45 | a polygon with no points adds no area |
| Crossing.HorizontalEdgeNeverCrosses | main.js:74 | an edge with equal end heights never counts as a crossing |
| Crossing.CrossesSymmetric | main.js:72-78 | the crossing test does not depend on the direction of the edge |
| Crossing.CrossingCountBound | main.js:69-81 | the crossing count is at most the number of edges |
| Crossing.ContainsReverse | main.js:69-81 | the crossing count, and so containment, does not depend on the winding direction |
| Crossing.EmptyContainsNothing | main.js:69-81 | a polygon with no points contains no point |
| Polygons.Polygon.constructor | main.js:27-29 | a new polygon has no points, no children and area 0 |
| Polygons.Polygon.MoveTo | main.js:31-33 | appends the point and changes nothing else |
| Polygons.Polygon.LineTo | main.js:35-37 | appends the point and changes nothing else, like `MoveTo` |
| Polygons.Polygon.Close | main.js:39-45 | adds the signed area of the current points to `area`; an empty polygon's area is unchanged |
| Polygons.Polygon.ConicTo | main.js:47-55 | appends exactly the flattened quadratic samples from the current last point; points already present are kept |
| Polygons.Polygon.CubicTo | main.js:57-67 | appends exactly the flattened cubic samples from the current last point; points already present are kept |
| Polygons.Polygon.AddChild | main.js:140 | appends the hole to `children` |
| Polygons.Polygon.Inside | main.js:69-82 | returns whether the crossing count of the point against the cyclic polyline is odd |
| Dispatch.Apply | main.js:106-123 | a command keeps every contour non-empty, or fails when no contour exists yet and the command is not a move |
| Dispatch.Build | main.js:105-124 | the built contours are all non-empty |
| Dispatch.BuildShape | main.js:107-110 | there is one contour per 'M' command, and each starts at that command's point |
| Dispatch.BuildSucceeds | main.js:105-124 | building succeeds exactly when the command list is empty or starts with 'M' |
| Dispatch.FailsWithoutContour | main.js:111-122 | a non-'M' command met before any contour exists fails the whole list |
| Dispatch.StartContour | main.js:107-109 | 'M' creates a fresh polygon holding just its point |
| Dispatch.ApplyToLast | main.js:111-122 | 'L', 'C', 'Q' and 'Z' update only the last polygon, as `Apply` says |
| Dispatch.BuildContours | main.js:104-124 | the loop succeeds exactly when `Build` does, and then the fresh, distinct polygons hold `Build`'s contours, with no children yet |
| Sorting.OrderOfCorrect | main.js:127 | insertion has a sorted, stable order of every prefix of the positions |
| Sorting.OrderCorrect | main.js:127 | the order lists every position exactly once, by decreasing absolute area, with equal areas in input order |
| Pipeline.SortContoursPermutes | main.js:127 | the sorted contours are the input contours, each position taken once |
| Pipeline.SortContoursDescending | main.js:127 | the sorted contours have non-increasing absolute areas |
| Pipeline.SortContoursStable | main.js:127 | contours with equal absolute area keep their input order, as a stable sort does |
| Classify.ScanFinds | main.js:132-138 | the reverse scan returns the highest earlier index that can hold the contour, or none when none can |
| Classify.OppositeSigns | main.js:134 | a negative product of areas means strictly opposite windings |
| Classify.RootsExactly | main.js:139-143 | a contour is a root exactly when it has no parent; the roots are in increasing order |
| Classify.HolesExactly | main.js:139-141 | a contour is a hole of j exactly when j is its parent; the holes are in increasing order |
| Classify.PlacedExactlyOnce | main.js:130-144 | every contour is either a root or a hole of exactly one contour |
| Classify.HoleParent | main.js:132-140 | a hole's parent comes earlier, has opposite winding, contains the hole's first point, and no contour between them could hold it |
| Classify.RootHasNoHolder | main.js:141-143 | no earlier contour can hold a root |
| Classify.FindParent | main.js:131-138 | the inner loop returns the polygon at `Parent`, or null exactly when there is none |
| Classify.AttachHole | main.js:140 | the hole becomes the parent's last child; no other polygon changes, and no points or areas change |
| Classify.Place | main.js:131-143 | one outer iteration extends the root list and the child lists to those of `Roots` and `Holes` for one more contour |
| Classify.ClassifyContours | main.js:129-144 | the root list is the polygons at `Roots`; each polygon's children are the polygons at its `Holes`; points and areas are unchanged |
| GridDedup.KeysMembership | main.js:199-202 | a cell is seen exactly when some point falls into it |
| GridDedup.DedupKeys | main.js:196-204 | deduplication loses no cell |
| GridDedup.DedupDistinctKeys | main.js:196-204 | no two kept points share a cell |
| GridDedup.DedupIsFirstPositions | main.js:196-204 | the kept points are exactly the first point of each cell, in input order |
| GridDedup.FirstPositionsExactly | main.js:198-203 | a position is kept exactly when it is the first of its cell, and the kept positions increase |
| GridDedup.DedupKeepsFirst | main.js:196-204 | the output is empty only for empty input, and it keeps the first point |
| GridDedup.DedupDistinctUnchanged | main.js:196-204 | points with distinct cells pass unchanged |
| GridDedup.DedupIdempotent | main.js:196-204 | deduplicating twice is the same as once |
| GridDedup.DedupPoints | main.js:196-204 | the loop with its set of seen keys computes `Dedup` |
| Offset.OutlineDefined | main.js:211-221 | the outline exists exactly when there is a point and every point has a normal |
| Offset.OutlineClosed | main.js:214-223 | the outline has one vertex per point plus the closing vertex, and it ends where it starts |
| Offset.OutlineOffset | main.js:211-221 | every vertex lies at distance `number * |n|` from its baseline-shifted point |
| Offset.OutlineUnbolded | main.js:212-221 | with boldness 0 the outline is the contour shifted to the baseline |
| Offset.OutlineTranslates | main.js:211-223 | translating the contour translates its outline |
| Offset.TraceOutline | main.js:209-225 | the array-based tracing, with the first vertex displaced in place, computes `Outline`, including the failure cases |
| Paint.DrawSucceeds | main.js:193-226 | a contour whose kept points all get normals is drawn, and its outline starts at the displaced first point |
| Paint.HoleJobs | main.js:231-235 | every hole is filled in erasing mode, in order |
| Paint.PaintOrder | main.js:227-236 | each root is painted in normal mode, followed at once by its holes in erasing mode; the next root comes after them |
| Paint.JobCount | main.js:227-236 | there is one paint job per root and one per hole of a root, nothing else |
| Paint.RunStops | main.js:219 | after a failed drawing, nothing more is painted |
| Paint.RunComplete | main.js:227-236 | painting completes exactly when every drawing succeeds, and then there is one fill per job, in order, with the job's mode |
| Paint.RunPrefix | main.js:227-236 | whatever happens, the fills are those of a prefix of the jobs |
| Paint.Canvas.constructor | main.js:148 | a new canvas has no fills in normal mode |
| Paint.Canvas.SetComposite | main.js:229 | sets the compositing mode |
| Paint.Canvas.FillPath | main.js:225 | appends one fill with the current mode |
| Paint.Canvas.Clear | main.js:150 | removes all fills |
| Paint.Draw | main.js:193-226 | `draw` fills the outline of the deduplicated contour with the canvas mode, or fails and fills nothing |
| Paint.DrawNext | main.js:230 | one successful drawing extends the painting by one job; a failure ends the painting, with one fill per earlier job and the failing job's mode |
| Paint.PaintHoles | main.js:231-235 | the inner loop paints a root's holes as the hole jobs say; on failure it stops at one of those holes, in erasing mode |
| Paint.PaintShape | main.js:229-235 | one root: normal mode, the root's fill, erasing mode, its holes' fills; on failure it stops at one of the root's jobs, in that job's mode |
| Paint.Render | main.js:227-236 | the painting loop produces exactly the fills of `Run` over the jobs, and reports whether painting completed; after a failure the mode is that of the job that failed (normal for a root, erasing for a hole) |
| Pipeline.SortedPolygons | main.js:104-127 | building and sorting give fresh, distinct polygons holding the sorted contours |
| Pipeline.Depicted | main.js:227-236 | after classification, the roots' points and children's points are those of the shapes |
| Pipeline.RenderText | main.js:104-236 | one update leaves the canvas (fills and compositing mode) untouched when the commands fail; otherwise it clears the canvas and paints `Run` over the picture's jobs, ending in erasing mode when painting completes with at least one root, keeping the mode when there is nothing to paint, and in the mode of the failing job when a drawing fails |

## Left out

- Font loading (`opentype.load`, `font.getPath`) is not modelled. Neither are the DOM inputs and their
  listeners (main.js:85-102). The path commands, boldness and cell size are parameters.
- The square root is a parameter of `Distance`, not computed. The steps are real numbers.
  The model does not capture IEEE floating point: rounding, NaN, infinities, and the
  reassociation of the first vertex's `y + 100`.
- The normals from `getNormals` (main.js:207) are a parameter of `Style`: a function from the
  kept points to one normal per point. The miter length each normal comes with is ignored,
  as the source ignores it.
- The canvas is reduced to its compositing mode and its list of fills. The following are not modelled:
  - pixels and what `destination-out` does to them;
  - `beginPath`, `moveTo`, `lineTo` and `closePath` as separate calls, which the fill's outline stands for;
  - the `clearRect` dimensions.
- `simplifyPath` and `distanceToSegment` (main.js:154-190) are never called, so they are left out.
  The `hull` argument of `draw` is unused, so it is left out too.
- Sorting.OrderOf: the sort is modelled as the unique stable order by absolute area, not the
  engine's algorithm. This is faithful because the runtime sort is stable.
- GridDedup.Key: the source's string key `floor(x/s) + "," + floor(y/s)` is modelled as the pair
  of floors. The two are in one-to-one correspondence.
- GridDedup.DedupPoints: requires a nonzero cell size; negative cell sizes are handled like positive ones.
  A zero cell size gives ±Infinity or NaN keys in floating point, which the model does not capture.
- Paint.Draw: when tracing fails part way (a missing normal), the source has started a path
  but not filled it. The model records no fill. The unfilled path is discarded by the next `beginPath`.
- Dispatch.Command: only the five command types the font library emits are modelled; the
  source's `switch` ignores any other type.
- A failure in the source is an uncaught exception that ends the update. The model returns
  `false`, or `None` in the value-level functions.
- The curve step count is dist/3 clamped to [2, 10], not rounded up, so the loop emits floor(steps)
  points; the last one is at t = floor(steps)/steps (`Bezier.LastSample`).
- 'L' is dispatched to `moveTo`, which does the same as `lineTo` (`Polygons.Polygon.LineTo`).
- vite.config.js is build configuration and is not part of this model.
