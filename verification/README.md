# Graphics-Package raster and transform core in Dafny

This project models the algorithmic core of a small desktop graphics
application. That core has three parts:

- **Rasterisers** turn geometric shapes into lists of screen points:
  - the Bresenham line;
  - the DDA (digital differential analyser) line;
  - the midpoint circle;
  - the Bresenham circle;
  - the two-region midpoint ellipse.
- **Point transforms** (`Transform2D`) and the **unit-circle coordinate
  mapper** are pure arithmetic on single points.
- **The transformation view model** keeps the user's points and the points
  produced by the last transformation.

Points are pairs of exact reals (`Geometry.Point`). The source's
`Math.Round` is modelled as round-half-to-even on reals (`Geometry.Round`).

**Rasterisers.** Each rasteriser has two parts:

- A pure specification. This is a recursive walk over the decision-variable
  states of the source's loop, plus the symmetric emission (`Symmetry`:
  eight-way for circles, four-way for the ellipse).
- An imperative method whose loop mirrors the source's loop, variable for
  variable. It is proved to return exactly the specification's output.

The properties the application relies on are proved about the specification:

- the end points;
- the length;
- the step shape;
- the decision-variable invariants;
- termination;
- symmetry;
- the degenerate radii.

**Transforms and the mapper.**

- Each transform in `Transform2D` maps one point. Its lemmas give its
  algebra: identities, fixed points, inverses, involutions and composition.
- The unit-circle mapper comes with both round trips.

**View model.** `ViewModels.TransformationViewModel` is a class with the two
sequence fields. Each `Apply` operation clears the transformed list and
refills it from the original points.

Files:

| file | models |
|---|---|
| geometry.dfy | points, rounding, ceiling, truncated square root |
| symmetry.dfy | eight-way and four-way point emission |
| bresenham_line.dfy | Models/Algorithms/BresenhamLineAlgorithm.cs |
| dda_line.dfy | Models/Algorithms/DDALineAlgorithm.cs |
| midpoint_circle.dfy | Models/Algorithms/MidpointCircleAlgorithm.cs |
| bresenham_circle.dfy | Models/Algorithms/BresenhamCircleAlgorithm.cs |
| ellipse.dfy | Models/Algorithms/EllipseAlgorithm.cs |
| unit_circle.dfy | Models/UnitCircleCoordinates.cs |
| transform2d.dfy | Models/Transformations/Transform2D.cs |
| transformation_view_model.dfy | ViewModels/TransformationViewModel.cs |

## Model

| member | source | states |
|---|---|---|
| Geometry.Round | Models/Algorithms/BresenhamLineAlgorithm.cs:12-15 | `Math.Round`: the result is within one half of the input, and on a tie it is even |
| Geometry.Ceil | Models/Algorithms/DDALineAlgorithm.cs:25 | the least whole number not below the input, which is how many times `i < steps` lets the loop run |
| Geometry.RoundWhole | Models/Algorithms/DDALineAlgorithm.cs:29 | rounding a whole number leaves it unchanged |
| Geometry.SquaredDistance | Models/Algorithms/MidpointCircleAlgorithm.cs:11 | the sum of squared coordinate differences is never negative |
| Geometry.TruncSqrt | Models/Algorithms/MidpointCircleAlgorithm.cs:11 | `(int)Math.Sqrt(d)`: the largest natural number whose square does not exceed d |
| Symmetry.EightWay | Models/Algorithms/MidpointCircleAlgorithm.cs:39-49 | the eight points emitted per step, in source order: the offset point, then its mirror images across the vertical line, the horizontal line and the diagonal through the centre |
| Symmetry.EightWayClosed | Models/Algorithms/BresenhamCircleAlgorithm.cs:38-48 | the eight points are closed under both axis mirrors and the diagonal mirror |
| Symmetry.MirrorsOfImage | Models/Algorithms/BresenhamCircleAlgorithm.cs:38-48 | the mirror images of any one of the eight points, across either axis or the diagonal, are again among the eight |
| Symmetry.FourWay | Models/Algorithms/EllipseAlgorithm.cs:65-71 | the four points emitted per ellipse step: the offset point and its images across both axes |
| Symmetry.PlotEightSnoc | Models/Algorithms/MidpointCircleAlgorithm.cs:33 | emitting one more step appends exactly its eight points |
| Symmetry.PlotFourSnoc | Models/Algorithms/EllipseAlgorithm.cs:40 | emitting one more step appends exactly its four points |
| Symmetry.PlotEightLength | Models/Algorithms/MidpointCircleAlgorithm.cs:19-33 | eight points per step |
| Symmetry.PlotFourLength | Models/Algorithms/EllipseAlgorithm.cs:24-59 | four points per step |
| Symmetry.PlotEightBlock | Models/Algorithms/BresenhamCircleAlgorithm.cs:16-32 | the k-th block of eight points is the images of the k-th offset |
| Symmetry.PlotFourBlock | Models/Algorithms/EllipseAlgorithm.cs:24-59 | the k-th block of four points is the images of the k-th offset |
| Symmetry.PlotEightClosed | Models/Algorithms/MidpointCircleAlgorithm.cs:39-49 | the whole output is closed under the eight symmetries of the square about the centre |
| Symmetry.PlotFourClosed | Models/Algorithms/EllipseAlgorithm.cs:65-71 | the whole output is closed under both axis mirrors about the centre |
| BresenhamLine.Rounded | Models/Algorithms/BresenhamLineAlgorithm.cs:12-15 | the two end points rounded to whole pixels, ties to even |
| BresenhamLine.Start | Models/Algorithms/BresenhamLineAlgorithm.cs:17-22 | the loop starts at the first end point with error term `dx - dy`, where dx and dy are the absolute differences |
| BresenhamLine.Advance | Models/Algorithms/BresenhamLineAlgorithm.cs:30-40 | one pass of the loop body: x moves by `sx` and the error loses dy when `2*err > -dy`; then y moves by `sy` and the error gains dx when that same `2*err < dx` |
| BresenhamLine.Walk | Models/Algorithms/BresenhamLineAlgorithm.cs:24-41 | the pixels the loop adds from a cursor on: the current pixel, then the walk from the advanced cursor, until the end pixel has been added |
| BresenhamLine.Line | Models/Algorithms/BresenhamLineAlgorithm.cs:17-41 | the whole output for whole end points: the walk from the start cursor |
| BresenhamLine.ErrorStep | Models/Algorithms/BresenhamLineAlgorithm.cs:30-40 | the error term's sign tests never move a coordinate that has reached its end, and they always move the major axis |
| BresenhamLine.AdvanceMoves | Models/Algorithms/BresenhamLineAlgorithm.cs:30-40 | one step moves x exactly when `2*err > -dy`, and y exactly when `2*err < dx`, each toward the end |
| BresenhamLine.AdvanceStep | Models/Algorithms/BresenhamLineAlgorithm.cs:19-40 | one step keeps the error invariant and moves each coordinate by 0 or one unit toward the end. At least one coordinate and always the major one moves, so the remaining major distance drops by one |
| BresenhamLine.TracingStep | Models/Algorithms/BresenhamLineAlgorithm.cs:24-41 | appending the current pixel and stepping preserves the loop invariant: emitted points plus the rest of the walk make up the whole line |
| BresenhamLine.WalkInBox | Models/Algorithms/BresenhamLineAlgorithm.cs:24-41 | every point lies in the bounding box of the two end points; no overshoot |
| BresenhamLine.WalkEnds | Models/Algorithms/BresenhamLineAlgorithm.cs:26-28 | the walk starts at the current pixel and ends at the end pixel, which it reaches only at the last point |
| BresenhamLine.WalkLength | Models/Algorithms/BresenhamLineAlgorithm.cs:17-41 | the walk has one point more than the remaining major-axis distance |
| BresenhamLine.WalkSteps | Models/Algorithms/BresenhamLineAlgorithm.cs:19-40 | consecutive points are neighbours that move toward the end along `sx`/`sy` |
| BresenhamLine.LineShape | Models/Algorithms/BresenhamLineAlgorithm.cs:17-41 | the line has `max(dx,dy)+1` points and runs from start to end. No earlier point is the end. Each step goes to a neighbour, and all coordinates are whole |
| BresenhamLine.SinglePixel | Models/Algorithms/BresenhamLineAlgorithm.cs:24-28 | equal end points give exactly one point |
| BresenhamLine.Cursors0502 | Models/Algorithms/BresenhamLineAlgorithm.cs:17-40 | the loop state sequence (x, y, err) from (0,0) to (5,2) |
| BresenhamLine.Trace0502 | Models/Algorithms/BresenhamLineAlgorithm.cs:17-40 | from (0,0) to (5,2) the output is (0,0),(1,0),(2,1),(3,1),(4,2),(5,2) |
| BresenhamLine.Rasterise | Models/Algorithms/BresenhamLineAlgorithm.cs:17-43 | the imperative loop returns exactly the specified line |
| BresenhamLine.CalculatePoints | Models/Algorithms/BresenhamLineAlgorithm.cs:8-44 | rounds the end points and returns the specified line between them |
| BresenhamLine.Execute | Models/Algorithms/BresenhamLineAlgorithm.cs:46-49 | the output starts at the rounded start and ends at the rounded end, has `max(dx,dy)+1` whole points, and is connected by neighbour steps |
| DDALine.Steps | Models/Algorithms/DDALineAlgorithm.cs:15 | the step count: the larger of the absolute x and y differences |
| DDALine.Increment | Models/Algorithms/DDALineAlgorithm.cs:17-18 | the per-step change of one coordinate: its difference divided by the step count |
| DDALine.Iterations | Models/Algorithms/DDALineAlgorithm.cs:25 | how often `for (i = 0; i < steps; i++)` runs: the step count rounded up |
| DDALine.Sample | Models/Algorithms/DDALineAlgorithm.cs:27-29 | the point added at iteration k: the start plus k increments, each coordinate rounded ties to even |
| DDALine.Line | Models/Algorithms/DDALineAlgorithm.cs:23-30 | the whole output: the unrounded start, then one rounded sample per iteration |
| DDALine.StepsBound | Models/Algorithms/DDALineAlgorithm.cs:15 | the step count is the larger of the two absolute differences |
| DDALine.PositiveSteps | Models/Algorithms/DDALineAlgorithm.cs:15 | distinct end points give a positive step count |
| DDALine.IterationsCount | Models/Algorithms/DDALineAlgorithm.cs:25 | the loop runs the step count rounded up times |
| DDALine.PositionStep | Models/Algorithms/DDALineAlgorithm.cs:27-28 | adding the increments once more gives the position after one more step |
| DDALine.LineStep | Models/Algorithms/DDALineAlgorithm.cs:25-30 | the output up to step i+1 is the output up to step i plus the rounded sample i+1 |
| DDALine.CalculatePoints | Models/Algorithms/DDALineAlgorithm.cs:8-33 | the loop returns the unrounded start followed by one sample per iteration; sample k is `start + k*(dx,dy)/steps` rounded |
| DDALine.Execute | Models/Algorithms/DDALineAlgorithm.cs:35-38 | delegates to `CalculatePoints` |
| DDALine.QuotientBound | Models/Algorithms/DDALineAlgorithm.cs:17-18 | a difference divided by a step count at least as large lies in [-1, 1], at ±1 exactly at equality |
| DDALine.IncrementOfDifference | Models/Algorithms/DDALineAlgorithm.cs:17-18 | an increment has magnitude at most one, exactly one when its difference is the step count |
| DDALine.IncrementBounds | Models/Algorithms/DDALineAlgorithm.cs:15-18 | between distinct points both increments have magnitude at most one, and the dominant one has magnitude exactly one |
| DDALine.SamePoint | Models/Algorithms/DDALineAlgorithm.cs:15-25 | equal end points give only the start; the increments are never used |
| DDALine.WholeSteps | Models/Algorithms/DDALineAlgorithm.cs:15-25 | between whole end points the loop runs exactly `steps` times |
| DDALine.LastPosition | Models/Algorithms/DDALineAlgorithm.cs:17-29 | between whole, distinct end points the accumulator ends exactly on the end point |
| DDALine.IntegralEnds | Models/Algorithms/DDALineAlgorithm.cs:17-29 | between whole end points there are `steps + 1` points, all whole, and the last is the end point |
| DDALine.Overshoot | Models/Algorithms/DDALineAlgorithm.cs:15-30 | from (0,0) to (2.5,0) the output is (0,0),(1,0),(2,0),(3,0), so the last point lies past the end |
| MidpointCircle.Start | Models/Algorithms/MidpointCircleAlgorithm.cs:15-17 | the loop starts at offset (0, r) with decision value `1 - r` |
| MidpointCircle.Next | Models/Algorithms/MidpointCircleAlgorithm.cs:23-31 | one pass of the loop body: x rises by 1; with `p < 0` y stays and p grows by `2x + 1`, otherwise y drops by 1 and p grows by `2(x - y) + 1`, using the new x and y |
| MidpointCircle.Walk | Models/Algorithms/MidpointCircleAlgorithm.cs:21-34 | the states whose offsets are emitted: the current state, then one more per iteration while `x < y` |
| MidpointCircle.Circle | Models/Algorithms/MidpointCircleAlgorithm.cs:19-49 | the whole output: each octant offset from (0, r) on, followed by its seven mirror images about the centre |
| MidpointCircle.StartInv | Models/Algorithms/MidpointCircleAlgorithm.cs:15-17 | the initial `p = 1 - r` is the midpoint decision value at (0, r) |
| MidpointCircle.DecisionSign | Models/Algorithms/MidpointCircleAlgorithm.cs:25 | `p >= 0` exactly when the midpoint between the two candidate pixels lies strictly outside the circle; the midpoint is never exactly on it, because p is a whole number |
| MidpointCircle.DecisionStep | Models/Algorithms/MidpointCircleAlgorithm.cs:25-31 | both incremental updates of p give the decision value at the next midpoint |
| MidpointCircle.NextInv | Models/Algorithms/MidpointCircleAlgorithm.cs:23-31 | a step increases x by one, lowers y by one exactly when the midpoint is outside, and keeps p equal to the decision value |
| MidpointCircle.WalkIsMidpointRule | Models/Algorithms/MidpointCircleAlgorithm.cs:21-34 | the loop's offsets are those of the geometric midpoint rule, with no decision variable |
| MidpointCircle.WalkShape | Models/Algorithms/MidpointCircleAlgorithm.cs:21-31 | x rises by 1 and y drops by 0 or 1 per step; the walk stops with `y <= x <= y + 1` within `y - x` steps |
| MidpointCircle.OctantShape | Models/Algorithms/MidpointCircleAlgorithm.cs:15-34 | the octant starts at (0, r), has at most r+1 offsets, ends with `y <= x <= y+1`, and y stays in [0, r] |
| MidpointCircle.ZeroRadius | Models/Algorithms/MidpointCircleAlgorithm.cs:16-21 | radius 0 gives eight copies of the centre |
| MidpointCircle.EmitStep | Models/Algorithms/MidpointCircleAlgorithm.cs:23-33 | one loop iteration preserves the loop invariant relating emitted points to the specification |
| MidpointCircle.Execute | Models/Algorithms/MidpointCircleAlgorithm.cs:9-37 | returns the specified circle for the truncated distance from centre to edge |
| MidpointCircle.CircleShape | Models/Algorithms/MidpointCircleAlgorithm.cs:19-49 | the output has a positive multiple of eight points, starts with the images of (0, r), and is closed under the square's symmetries |
| BresenhamCircle.Start | Models/Algorithms/BresenhamCircleAlgorithm.cs:12-14 | the loop starts at offset (0, radius) with decision value `3 - 2*radius` |
| BresenhamCircle.Next | Models/Algorithms/BresenhamCircleAlgorithm.cs:20-30 | one pass of the loop body: x rises by 1; with `d > 0` y drops by 1 and d grows by `4(x - y) + 10`, otherwise d grows by `4x + 6`, using the new x and y |
| BresenhamCircle.Walk | Models/Algorithms/BresenhamCircleAlgorithm.cs:18-33 | the states whose offsets are emitted: the current state, then one more per iteration while `y >= x` |
| BresenhamCircle.Circle | Models/Algorithms/BresenhamCircleAlgorithm.cs:16-48 | the whole output: each visited offset from (0, radius) on, followed by its seven mirror images about the centre |
| BresenhamCircle.WalkShape | Models/Algorithms/BresenhamCircleAlgorithm.cs:18-33 | x rises by 1 and y drops by 0 or 1 per step; every state but the last has `y >= x`, the last has `y < x`, within the step budget |
| BresenhamCircle.OctantShape | Models/Algorithms/BresenhamCircleAlgorithm.cs:12-33 | the octant starts at (0, radius), the k-th offset has x = k, and it ends with `y < x` after at most `floor(radius)+2` offsets |
| BresenhamCircle.ZeroRadius | Models/Algorithms/BresenhamCircleAlgorithm.cs:12-32 | radius 0 gives 16 points: eight copies of the centre, then the eight points at offsets (±1, ±1) |
| BresenhamCircle.EmitStep | Models/Algorithms/BresenhamCircleAlgorithm.cs:20-32 | one loop iteration preserves the loop invariant relating emitted points to the specification |
| BresenhamCircle.CalculatePoints | Models/Algorithms/BresenhamCircleAlgorithm.cs:8-36 | the loop returns exactly the specified circle |
| BresenhamCircle.Execute | Models/Algorithms/BresenhamCircleAlgorithm.cs:50-54 | with the Euclidean distance from start to end as radius, returns the specified circle about start |
| BresenhamCircle.CircleShape | Models/Algorithms/BresenhamCircleAlgorithm.cs:16-48 | the output has a multiple of eight points, starts with the images of (0, radius), and is closed under the square's symmetries |
| Ellipse.Start | Models/Algorithms/EllipseAlgorithm.cs:12-22 | region 1 starts at offset (0, ry) with `p = ry² - rx²ry + rx²/4`, `px = 0` and `py = 2rx²ry` |
| Ellipse.Next1 | Models/Algorithms/EllipseAlgorithm.cs:28-40 | one pass of the region 1 body: x rises by 1 and px by `2ry²`; with `p < 0` p grows by `ry² + px`, otherwise y drops by 1, py drops by `2rx²` and p grows by `ry² + px - py` |
| Ellipse.Reset | Models/Algorithms/EllipseAlgorithm.cs:43 | the region 2 decision value at the state region 1 stopped in: `ry²(x + 1/2)² + rx²(y - 1)² - rx²ry²` |
| Ellipse.Next2 | Models/Algorithms/EllipseAlgorithm.cs:47-59 | one pass of the region 2 body: y drops by 1 and py by `2rx²`; with `p > 0` p grows by `rx² - py`, otherwise x rises by 1, px by `2ry²` and p grows by `rx² - py + px` |
| Ellipse.Region1 | Models/Algorithms/EllipseAlgorithm.cs:26-41 | the states whose offsets region 1 emits: the current state, then one more per iteration while `px < py` |
| Ellipse.Region2 | Models/Algorithms/EllipseAlgorithm.cs:45-60 | the states whose offsets region 2 emits: one per iteration, each after its step, while `y > 0` |
| Ellipse.Ellipse | Models/Algorithms/EllipseAlgorithm.cs:24-71 | the whole output: each offset of region 1, then of region 2, followed by its three mirror images about the centre |
| Ellipse.Budget1Drop | Models/Algorithms/EllipseAlgorithm.cs:26-29 | each region-1 step lowers a whole-number measure of the gap `py - px`, so region 1 terminates |
| Ellipse.StartInv | Models/Algorithms/EllipseAlgorithm.cs:14-20 | initially `px = 2ry²x` and `py = 2rx²y` |
| Ellipse.Region1Guard | Models/Algorithms/EllipseAlgorithm.cs:19-26 | whenever region 1 continues, `2ry² > 0`; with ry = 0 region 1 therefore does not run |
| Ellipse.UprightBoundary | Models/Algorithms/EllipseAlgorithm.cs:19-26 | with rx = 0 the start already has `px >= py`, so region 1 stops at its start (0, ry) on the y axis with `py = 0` |
| Ellipse.UprightReset | Models/Algorithms/EllipseAlgorithm.cs:43 | with rx = 0, on the y axis the region 2 decision value is reset to `ry²/4` |
| Ellipse.Next1Inv | Models/Algorithms/EllipseAlgorithm.cs:28-40 | a region-1 step increases x by 1, drops y by 0 or 1, and keeps `px = 2ry²x`, `py = 2rx²y` |
| Ellipse.Next2Inv | Models/Algorithms/EllipseAlgorithm.cs:47-59 | a region-2 step drops y by 1, increases x by 0 or 1, and keeps `px = 2ry²x`, `py = 2rx²y` |
| Ellipse.Region1Shape | Models/Algorithms/EllipseAlgorithm.cs:26-41 | the invariants hold throughout region 1. x rises by 1 and y drops by 0 or 1 per step, and `px < py` holds at every state but the last |
| Ellipse.Region2Shape | Models/Algorithms/EllipseAlgorithm.cs:45-60 | the invariants hold throughout region 2. y drops by 1 per step and x rises by 0 or 1. Region 2 runs exactly when y > 0, and ends with y in (-1, 0] |
| Ellipse.QuadrantStart | Models/Algorithms/EllipseAlgorithm.cs:17-24 | the first offset is (0, ry), and region 1 hands over with `px >= py` |
| Ellipse.LastOnAxis | Models/Algorithms/EllipseAlgorithm.cs:45-59 | with a whole, non-negative ry the last emitted offset has y = 0 |
| Ellipse.ZeroRy | Models/Algorithms/EllipseAlgorithm.cs:12-59 | radiusY = 0 gives four copies of the centre |
| Ellipse.ZeroRx | Models/Algorithms/EllipseAlgorithm.cs:12-59 | radiusX = 0 gives only points with x offset 0 |
| Ellipse.Emit1Step | Models/Algorithms/EllipseAlgorithm.cs:26-40 | one region-1 iteration preserves the loop invariant and lowers the termination measure |
| Ellipse.Emit2Start | Models/Algorithms/EllipseAlgorithm.cs:43 | resetting p at the region boundary starts region 2 of the specification |
| Ellipse.Emit2Step | Models/Algorithms/EllipseAlgorithm.cs:45-59 | one region-2 iteration preserves the loop invariant |
| Ellipse.ResetParts | Models/Algorithms/EllipseAlgorithm.cs:43 | the source's reset expression for p is the specification's region-2 start |
| Ellipse.CalculatePoints | Models/Algorithms/EllipseAlgorithm.cs:8-63 | both loops return exactly the specified ellipse |
| Ellipse.Execute | Models/Algorithms/EllipseAlgorithm.cs:73-78 | the radii are the absolute coordinate differences between start and end |
| Ellipse.EllipseShape | Models/Algorithms/EllipseAlgorithm.cs:24-71 | the output has a positive multiple of four points, starts with the images of (0, ry), and is closed under both axis mirrors |
| UnitCircleCoordinates.ScreenToUnitCircle | Models/UnitCircleCoordinates.cs:7-13 | the unit coordinates times the scale are the offset from the centre, with the vertical axis turned upwards |
| UnitCircleCoordinates.UnitCircleToScreen | Models/UnitCircleCoordinates.cs:15-21 | the screen offset from the centre is the unit coordinates times the scale, with the vertical axis turned downwards |
| UnitCircleCoordinates.ScreenRoundTrip | Models/UnitCircleCoordinates.cs:7-21 | screen to unit circle and back is the identity for a non-zero scale |
| UnitCircleCoordinates.UnitRoundTrip | Models/UnitCircleCoordinates.cs:7-21 | unit circle to screen and back is the identity for a non-zero scale |
| UnitCircleCoordinates.CenterIsOrigin | Models/UnitCircleCoordinates.cs:9-18 | the centre maps to the unit origin and back |
| UnitCircleCoordinates.Orientation | Models/UnitCircleCoordinates.cs:9-10 | with a positive scale, right of the centre means positive unit x, and above the centre on screen means positive unit y |
| Transform2D.Translate | Models/Transformations/Transform2D.cs:8-11 | the point moved by (tx, ty) |
| Transform2D.Scale | Models/Transformations/Transform2D.cs:13-21 | the offset from the reference point (the origin when absent) multiplied by sx and sy, added back to the reference point |
| Transform2D.Radians | Models/Transformations/Transform2D.cs:27 | degrees to radians: `angle * PI / 180` |
| Transform2D.RotateBy | Models/Transformations/Transform2D.cs:23-38 | the offset from the pivot (the origin when absent) turned by the rotation matrix with the given cosine and sine, added back to the pivot |
| Transform2D.Rotate | Models/Transformations/Transform2D.cs:23-38 | rotation by `angle` degrees: `RotateBy` with the cosine and sine of the angle in radians |
| Transform2D.ReflectX | Models/Transformations/Transform2D.cs:40-43 | x kept, y mirrored across the horizontal line y = canvasCenterY |
| Transform2D.ReflectY | Models/Transformations/Transform2D.cs:45-48 | y kept, x mirrored across the vertical line x = canvasCenterX |
| Transform2D.ReflectAboutYEqualsX | Models/Transformations/Transform2D.cs:50-53 | the two coordinates swapped |
| Transform2D.ReflectAboutOrigin | Models/Transformations/Transform2D.cs:55-58 | the point mirrored through (canvasCenterX, canvasCenterY) |
| Transform2D.ShearX | Models/Transformations/Transform2D.cs:60-63 | y kept, x moved by `shx * y` |
| Transform2D.ShearY | Models/Transformations/Transform2D.cs:65-68 | x kept, y moved by `shy * x` |
| Transform2D.TranslateGroup | Models/Transformations/Transform2D.cs:8-11 | translations compose by adding offsets; the opposite offset undoes one, and (0,0) is the identity |
| Transform2D.TranslateIsometry | Models/Transformations/Transform2D.cs:8-11 | translation keeps distances |
| Transform2D.ScaleAboutReference | Models/Transformations/Transform2D.cs:13-21 | the reference point (the origin when absent) stays fixed. Offsets from it are multiplied by the factors, and (1,1) is the identity |
| Transform2D.ScaleCompose | Models/Transformations/Transform2D.cs:13-21 | two scalings about the same reference are one scaling by the products |
| Transform2D.ScaleInverse | Models/Transformations/Transform2D.cs:13-21 | scaling by the reciprocal factors undoes a scaling by non-zero factors |
| Transform2D.RadiansOfHalfTurn | Models/Transformations/Transform2D.cs:27 | 180 degrees is PI radians and 0 degrees is 0 |
| Transform2D.RotateFixes | Models/Transformations/Transform2D.cs:23-38 | the pivot stays fixed whatever cos and sin are, and a zero angle (cos 1, sin 0) is the identity |
| Transform2D.RotateKeepsDistance | Models/Transformations/Transform2D.cs:23-38 | when `cos² + sin² = 1`, rotation keeps the distance to the pivot |
| Transform2D.RotateCompose | Models/Transformations/Transform2D.cs:23-38 | two rotations about one pivot are one rotation by the angle-sum cosine and sine |
| Transform2D.ReflectXInvolution | Models/Transformations/Transform2D.cs:40-43 | reflecting twice is the identity, and the fixed points are exactly the axis line |
| Transform2D.ReflectYInvolution | Models/Transformations/Transform2D.cs:45-48 | reflecting twice is the identity, and the fixed points are exactly the axis line |
| Transform2D.ReflectDiagonalInvolution | Models/Transformations/Transform2D.cs:50-53 | swapping twice is the identity, and the fixed points are exactly the diagonal |
| Transform2D.ReflectAboutOriginComposes | Models/Transformations/Transform2D.cs:40-58 | the point reflection is both axis reflections in either order, is an involution, and fixes only the centre |
| Transform2D.ReflectDefaults | Models/Transformations/Transform2D.cs:40-58 | with default arguments the reflections are about the coordinate axes and the origin |
| Transform2D.ShearXGroup | Models/Transformations/Transform2D.cs:60-63 | y is kept and x moves by `shx*y`. Shears add, the opposite factor undoes one, and 0 is the identity |
| Transform2D.ShearYGroup | Models/Transformations/Transform2D.cs:65-68 | x is kept and y moves by `shy*x`. Shears add, the opposite factor undoes one, and 0 is the identity |
| ViewModels.MapPoints | ViewModels/TransformationViewModel.cs:21-25 | one image per original point, in order |
| ViewModels.TransformationViewModel.constructor | ViewModels/TransformationViewModel.cs:13-17 | both lists start empty |
| ViewModels.TransformationViewModel.Refill | ViewModels/TransformationViewModel.cs:21-25 | clears the transformed list and refills it with the image of every original point, leaving the originals unchanged |
| ViewModels.TransformationViewModel.ApplyTranslation | ViewModels/TransformationViewModel.cs:19-26 | same length as the originals, point i is the translation of original i, and the originals are unchanged |
| ViewModels.TransformationViewModel.ApplyScaling | ViewModels/TransformationViewModel.cs:28-35 | point i is original i scaled about the reference (the origin when absent), and the originals are unchanged |
| ViewModels.TransformationViewModel.ApplyRotation | ViewModels/TransformationViewModel.cs:37-44 | point i is original i rotated about the centre (the origin when absent), and the originals are unchanged |
| ViewModels.TransformationViewModel.ApplyReflectionX | ViewModels/TransformationViewModel.cs:46-53 | point i is original i reflected across the horizontal line `yAxis` (0 by default), and the originals are unchanged |
| ViewModels.TransformationViewModel.ApplyReflectionY | ViewModels/TransformationViewModel.cs:55-62 | point i is original i reflected across the vertical line `xAxis` (0 by default), and the originals are unchanged |
| ViewModels.TransformationViewModel.ApplyShearingX | ViewModels/TransformationViewModel.cs:64-71 | point i is original i sheared along x, and the originals are unchanged |
| ViewModels.TransformationViewModel.ApplyShearingY | ViewModels/TransformationViewModel.cs:73-80 | point i is original i sheared along y, and the originals are unchanged |
| ViewModels.ReflectTwice | ViewModels/TransformationViewModel.cs:46-53 | applying a reflection twice leaves the single reflection, not the originals: each application starts again from the original points |

## Left out

- Floating point: all coordinates and decision variables are exact reals or unbounded integers. Double rounding, the `(float)` casts of the DDA step count and the overflow of `(int)Math.Round` for huge coordinates are not modelled.
- `Math.Sqrt`: the midpoint circle's radius is the truncated square root of the squared distance (`Geometry.TruncSqrt`), which is exact. `BresenhamCircle.Execute` takes the radius as a parameter and requires that it is the non-negative root of the squared distance, because the square root of a real cannot be computed in the model.
- `Math.Cos` and `Math.Sin`: `Transform2D.Rotate` takes them as function parameters, and `ViewModels.TransformationViewModel.ApplyRotation` passes them through. Trigonometric identities are assumed only where a lemma states them as a requirement (`cos² + sin² = 1`).
- `DDALine.Increment`: when the step count is 0 the application divides 0 by 0, which gives NaN. The model uses 0 instead. The loop never reads the value then.
- `BresenhamLine.Rasterise` is a separate method holding the source's loop on already-rounded whole end points; `CalculatePoints` does the rounding and calls it.
- `Ellipse.Region1`: the specification walk carries the extra guard `2ry² > 0` so that its termination measure is defined; `Ellipse.Region1Guard` proves the guard always holds when the source's loop condition does, so the walk agrees with the loop.
- Interfaces (Models/Algorithms/IDrawingAlgorithm.cs) carry no behaviour; the `Execute` methods are modelled per algorithm.
- Views/MainWindow.axaml.cs (pointer handling, canvas drawing, preview, centroid and distance helpers, chaining of transformations in the UI) and ViewModels/MainWindowViewModel.cs (selection indices, colours, commands) are user-interface code and are not part of this model.
- BresenhamLine.Rasterise: does not model 32-bit `int` arithmetic. The differences `x2 - x1` and `y2 - y1`, the term `2 * err` and the error updates are unbounded integers, so their wrap-around is not modelled. Neither is the `OverflowException` that `Math.Abs` throws on `int.MinValue`. The model agrees with the source only while these values stay within the 32-bit range, that is, for coordinates of moderate size.
- MidpointCircle.Execute: does not model 32-bit `int` arithmetic. The radius is an unbounded natural number, so the `(int)Math.Sqrt` cast of a distance above `int.MaxValue` is not modelled. Neither is wrap-around of `x`, `y` or the decision value `p`.
- ViewModels.TransformationViewModel: `OriginalPoints` and `TransformedPoints` are modelled as two separate sequence values. The public setters let a caller make both properties the same list; `Clear()` then also empties the originals. That aliasing is not captured: every `Apply` operation assumes the two distinct lists the constructor creates.
- UnitCircleCoordinates.ScreenToUnitCircle: requires a non-zero scale, because with scale 0 the source divides by zero (infinities or NaN), which exact reals cannot represent.
