# Paint-program geometry core in Dafny

This project models the geometry engine of a small OpenGL paint program
(`Lab1_Lab2_Lab3/Shape.cs` and `Lab1_Lab2_Lab3/Transformer.cs`): how a
shape stores its control points, how it is rasterised, hit-tested and
scan-filled, and how the transform engine builds a moved, rotated or scaled
copy of a shape.

- `wrappers.dfy`: module `Wrappers`, the `Option` type. A null return or a
  missing colour is modelled as an `Option` or as a nullable `Shape?`.
- `geometry.dfy`: module `Geometry`.
  - `Point` has real coordinates and stands for the C# `double` points.
  - `Pixel` has integer coordinates and stands for the rasteriser output.
  - `Trunc` is the `(int)` cast, which truncates toward zero.
  - The predicates `OnSegment`, `Orientation` and `DoIntersect`.
- `hit_test.dfy`: module `HitTest`, the ray-casting `isInside` test.
  - `IsInside` is the do-while loop, with a `count` counter.
  - `Inside` is its specification.
- `line_raster.dfy`: module `LineRaster`.
  - `Bresenham(Point, Point)` is a method. The shallow loop (Shape.cs
    lines 209-231) and the steep loop (lines 233-262) run the same error-term
    walk with the axes exchanged, so one loop method, `EmitWalk`, stands for
    both; its `Axis` parameter says which coordinate is the major one.
  - Its specification `BresenhamPoints` is built from one recursive walk.
  - `ClosedChain` is the closed edge chain that the polygon-like `Draw`s
    build from the control points.
- `curve_raster.dfy`: module `CurveRaster`, the midpoint circle and
  two-region midpoint ellipse generators inside `Circle.Draw` and
  `Ellipse.Draw`. They return the point list instead of issuing vertices.
- `scan_fill.dfy`: module `ScanFill`. `Shape.ScanFill` sorts the outline by
  X, groups each column's Ys and exchange-sorts them. It then returns the
  span strictly inside the first gap wider than one pixel, instead of
  drawing it.
- `shapes.dfy`: module `Shapes`.
  - The shape kinds and the anchor formulas of every constructor.
  - `Center` and `Contains`.
  - The point generation of every `Draw`.
  - The class `Shape`, whose fields are the kind, the two colours, the
    visibility flag and the control-point list.
  - The two `ShapeFactory.CrateShape` overloads.
- `transformer.dfy`: module `Transformer`, `Transformer.Transform`.
  - It dispatches on the tag and builds the WPF matrix.
  - It copies the control points into an array and transforms them in place.
  - It appends them to a fresh shape of the same kind and colours.

Floating-point values are modelled as exact reals. `Math.Sqrt`, `Math.Sin`,
`Math.Cos` and `Math.Acos` are not modelled: they are function-typed fields
of a `Numerics` value that the caller passes in.

## Model

| member | source | states |
|---|---|---|
| Geometry.TruncBounds | Lab1_Lab2_Lab3/Shape.cs:184-185 | the `(int)` cast truncates toward zero: it lies within one of the value, on the side of zero |
| Geometry.SqDist | Lab1_Lab2_Lab3/Shape.cs:166-169 | the squared distance under `Euclid`'s root is never negative |
| Geometry.Orientation | Lab1_Lab2_Lab3/Shape.cs:61-71 | the result is 0, 1 or 2; it is 0 exactly when the cross product is zero and 1 exactly when it is positive |
| Geometry.OrientationSwap | Lab1_Lab2_Lab3/Shape.cs:61-71 | exchanging the first and third points keeps 0 and swaps 1 and 2 |
| Geometry.OrientationDegenerate | Lab1_Lab2_Lab3/Shape.cs:61-71 | three points of which two coincide are collinear |
| Geometry.OnSegmentSymmetric | Lab1_Lab2_Lab3/Shape.cs:49-59 | `onSegment(p, q, r)` equals `onSegment(r, q, p)` |
| Geometry.OnSegment | Lab1_Lab2_Lab3/Shape.cs:49-59 | each end of a segment lies on it |
| Geometry.DoIntersectSymmetric | Lab1_Lab2_Lab3/Shape.cs:73-120 | exchanging the two segments does not change `doIntersect` |
| Geometry.DoIntersect | Lab1_Lab2_Lab3/Shape.cs:73-120 | two segments that share an endpoint intersect |
| HitTest.Next | Lab1_Lab2_Lab3/Shape.cs:141 | `(i + 1) % n` stays below n and wraps to 0 exactly after the last vertex |
| HitTest.FirstCollinear | Lab1_Lab2_Lab3/Shape.cs:146-156 | finds the first crossing edge that is collinear with p, and only if no earlier edge is one |
| HitTest.IsInside | Lab1_Lab2_Lab3/Shape.cs:124-164 | the do-while loop returns false below 3 vertices; otherwise it gives `onSegment` on the first crossing collinear edge, or else whether the crossing count is odd |
| HitTest.FirstVertexInside | Lab1_Lab2_Lab3/Shape.cs:124-164 | a polygon of three or more vertices contains its own first vertex |
| HitTest.InsideOfQuad | Lab1_Lab2_Lab3/Shape.cs:138-163 | for four edges none of which is collinear with p, the answer is the parity of the crossing edges |
| HitTest.ProperCrossing | Lab1_Lab2_Lab3/Shape.cs:73-120 | the general-position case of `doIntersect` counts as a crossing, and the edge is not collinear with p |
| HitTest.NoCrossing | Lab1_Lab2_Lab3/Shape.cs:73-120 | an edge wholly on one side of the ray, or the ray wholly on one side of the edge, is not counted |
| HitTest.RectangleContainsCentre | Lab1_Lab2_Lab3/Shape.cs:124-164 | the rectangle (0,0),(4,0),(4,2),(0,2) contains (2,1) |
| HitTest.RectangleExcludesOutside | Lab1_Lab2_Lab3/Shape.cs:124-164 | the same rectangle does not contain (5,5) |
| LineRaster.Bresenham | Lab1_Lab2_Lab3/Shape.cs:172-263 | the method computes `BresenhamPoints`: the truncated A first, then the endpoint swap, and the shallow or steep loop |
| LineRaster.EmitWalk | Lab1_Lab2_Lab3/Shape.cs:209-262 | the error-term loop, on either major axis, emits exactly the recursive walk `Walk` |
| LineRaster.BresenhamPoints | Lab1_Lab2_Lab3/Shape.cs:183-186 | the list is never empty and starts at the truncated A, even when the ends are swapped |
| LineRaster.BresenhamForward | Lab1_Lab2_Lab3/Shape.cs:172-263 | for integral A <= B componentwise it returns max(dx, dy)+1 points from A to B, each step one along the major axis and 0 or 1 along the other |
| LineRaster.WalkLands | Lab1_Lab2_Lab3/Shape.cs:209-231 | the error-term loop with 0 <= dy <= dx takes dx unit steps and lands exactly on (x+dx, y+dy) |
| LineRaster.RiseBound | Lab1_Lab2_Lab3/Shape.cs:211-231 | the decision variable stays within [-dx, dx] around its scaled line error throughout the loop |
| LineRaster.ShallowPoints | Lab1_Lab2_Lab3/Shape.cs:198-231 | for a shallow forward segment the output is the start pixel followed by the x-major walk |
| LineRaster.SteepPoints | Lab1_Lab2_Lab3/Shape.cs:233-262 | for a steep forward segment (`kt >= 0`) the output is the start pixel followed by the transposed y-major walk |
| LineRaster.BresenhamSinglePoint | Lab1_Lab2_Lab3/Shape.cs:172-263 | a zero-length segment gives exactly one point |
| LineRaster.BresenhamExample | Lab1_Lab2_Lab3/Shape.cs:172-263 | (0,0) to (5,3) gives (0,0),(1,1),(2,1),(3,2),(4,2),(5,3) |
| LineRaster.BresenhamSwapped | Lab1_Lab2_Lab3/Shape.cs:183-196 | when B <= A the list is the truncated A followed by the tail of the list from B to A |
| LineRaster.BresenhamReversed | Lab1_Lab2_Lab3/Shape.cs:183-196 | for integral B < A it starts and ends at A and never reaches B, because the swap keeps the original A first |
| LineRaster.BresenhamMixedMissesEnd | Lab1_Lab2_Lab3/Shape.cs:183-231 | (0,0) to (5,-3) is swapped and walked with units of opposite sign: it gives (0,0),(4,-2),(3,-1),(2,0),(1,0),(0,1) and never reaches B |
| LineRaster.ClosedChain | Lab1_Lab2_Lab3/Shape.cs:871-873 | the method concatenates the segments between consecutive control points and the closing one from the last back to the first |
| LineRaster.ChainHitsVertices | Lab1_Lab2_Lab3/Shape.cs:871-873 | every truncated control point lies on the closed chain |
| CurveRaster.MidpointCircle | Lab1_Lab2_Lab3/Shape.cs:564-641 | the method computes `CirclePoints`: the seed group at (0, r), then one group of 8 per iteration while xi < yi |
| CurveRaster.CircleLoop | Lab1_Lab2_Lab3/Shape.cs:605-641 | the while loop appends the 8-fold mirror images of the octant arc that `CircleArc` steps out from the loop variables |
| CurveRaster.CirclePoints | Lab1_Lab2_Lab3/Shape.cs:564-641 | groups of 8; the seed group is first; at most max(r,0)+1 groups, so at most max(r,0) iterations |
| CurveRaster.CircleArcLength | Lab1_Lab2_Lab3/Shape.cs:605-641 | each iteration raises xi by one, and the loop runs at most max(yi - xi, 0) times |
| CurveRaster.CircleArcDescends | Lab1_Lab2_Lab3/Shape.cs:605-641 | yi never grows and drops by at most one per iteration |
| CurveRaster.CircleSymmetric | Lab1_Lab2_Lab3/Shape.cs:564-641 | the point list is closed under mirroring in x, in y and in the diagonal about the centre |
| CurveRaster.CircleNearRadius | Lab1_Lab2_Lab3/Shape.cs:605-641 | for r >= 0 the decision variable tracks the midpoint test, and every emitted point of the octant has its outer midpoint (x, y+1/2) on or outside the circle; while x <= y and r >= 1, its inner midpoint (x, y-1/2) is on or inside it (for r = 0 the only point is the seed (0,0)) |
| CurveRaster.CircleWithinRadius | Lab1_Lab2_Lab3/Shape.cs:564-641 | every first-octant point (x <= y) of a circle of radius r >= 0 has r² - r <= x² + y² <= r² + r |
| CurveRaster.ArcWithin | Lab1_Lab2_Lab3/Shape.cs:605-641 | every point the `while (xi < yi)` loop visits, including the final point past the diagonal, has r² - r <= x² + y² <= r² + r |
| CurveRaster.OctantsNorm | Lab1_Lab2_Lab3/Shape.cs:579-600 | each of the eight points appended for (x, y) lies at squared distance x² + y² from the centre |
| CurveRaster.ExpandNorm | Lab1_Lab2_Lab3/Shape.cs:617-638 | bounds on x² + y² over the arc carry over to the squared distance from the centre of every appended point |
| CurveRaster.CirclePointsWithin | Lab1_Lab2_Lab3/Shape.cs:564-641 | every point `Circle.Draw` emits for r >= 0, in all eight octants and about any centre (cx, cy), has r² - r <= (x - cx)² + (y - cy)² <= r² + r |
| CurveRaster.MidpointEllipse | Lab1_Lab2_Lab3/Shape.cs:703-789 | the method computes `EllipsePoints`: the four seed points, then region 1, then region 2 |
| CurveRaster.EllipseLoop1 | Lab1_Lab2_Lab3/Shape.cs:730-757 | the first while loop appends the 4-fold mirror images of the region-1 arc and leaves the loop variables at region 1's exit state |
| CurveRaster.EllipseLoop2 | Lab1_Lab2_Lab3/Shape.cs:760-789 | the second while loop appends the 4-fold mirror images of the region-2 arc |
| CurveRaster.EllipsePoints | Lab1_Lab2_Lab3/Shape.cs:703-789 | groups of 4, starting with the four axis seed points |
| CurveRaster.Region1 | Lab1_Lab2_Lab3/Shape.cs:730-757 | region 1 terminates for all integer radii (ry2_x_2 grows by 2ry² per step; with ry = 0 the loop never runs); it adds one point per unit step of xi, never raises yi, and stops with rx2_y_2 <= ry2_x_2 |
| CurveRaster.Region2 | Lab1_Lab2_Lab3/Shape.cs:760-789 | region 2 runs exactly max(yi, 0) times |
| CurveRaster.Region2Rows | Lab1_Lab2_Lab3/Shape.cs:761-789 | each region-2 step lowers yi by one and raises xi by 0 or 1 |
| CurveRaster.Region1Tracks | Lab1_Lab2_Lab3/Shape.cs:723-757 | the two running products stay equal to 2ry²xi and 2rx²yi, and region 1 ends with 2rx²yi <= 2ry²xi |
| CurveRaster.EllipseReachesAxis | Lab1_Lab2_Lab3/Shape.cs:703-789 | for ry >= 0 region 2 starts at a non-negative yi and its last point is on the axis yi = 0 |
| CurveRaster.EllipseSymmetric | Lab1_Lab2_Lab3/Shape.cs:703-789 | the point list is closed under mirroring in x and in y about the centre |
| ScanFill.SortByX | Lab1_Lab2_Lab3/Shape.cs:288 | the caller's outline is sorted by X in place and is a permutation of what it was |
| ScanFill.ExchangeSort | Lab1_Lab2_Lab3/Shape.cs:308-319 | the exchange sort of one column's Ys gives the ascending permutation of them |
| ScanFill.CollectColumn | Lab1_Lab2_Lab3/Shape.cs:297-306 | the inner loop stops at the end of the run of equal X and collects exactly that run's Ys |
| ScanFill.FillColumn | Lab1_Lab2_Lab3/Shape.cs:295-336 | one outer iteration: it returns the end of the run of equal X starting at i, and the span of the first wide gap of that run's sorted Ys |
| ScanFill.FindGap | Lab1_Lab2_Lab3/Shape.cs:320-331 | returns the first index whose successor is more than one higher, or none |
| ScanFill.FirstGapIff | Lab1_Lab2_Lab3/Shape.cs:320-331 | index t is the first gap exactly when the gap at t exceeds 1 and no earlier gap does |
| ScanFill.NoGapIff | Lab1_Lab2_Lab3/Shape.cs:320-331 | there is no gap exactly when consecutive Ys never differ by more than 1 |
| ScanFill.GapSpan | Lab1_Lab2_Lab3/Shape.cs:320-331 | one column gives at most one span, at that column, with a non-empty range |
| ScanFill.ShortNoSpan | Lab1_Lab2_Lab3/Shape.cs:320 | a column with at most one outline point gets no span |
| ScanFill.ScanFill | Lab1_Lab2_Lab3/Shape.cs:283-340 | the method sorts the array by X (a permutation) and returns the spans of every column run; the outer index strictly increases |
| ScanFill.OneSpanPerColumn | Lab1_Lab2_Lab3/Shape.cs:293-339 | the spans come in strictly increasing X, so there is at most one per X, each with lo <= hi |
| ScanFill.SpansAreFirstGaps | Lab1_Lab2_Lab3/Shape.cs:293-339 | the span at each X is the first wide gap of that column's sorted Ys |
| ScanFill.SinglePixelColumnNoSpan | Lab1_Lab2_Lab3/Shape.cs:295 | a column with a single outline point gets no span |
| ScanFill.SpansIgnoreOrder | Lab1_Lab2_Lab3/Shape.cs:288 | any X-sorted permutation of the outline gives the same spans, so the unstable sort does not matter |
| ScanFill.FillOutline | Lab1_Lab2_Lab3/Shape.cs:283-340 | for any outline, the spans increase in X, and the span at each X is the first gap of the outline's Ys in that column |
| ScanFill.SpanDrawn | Lab1_Lab2_Lab3/Shape.cs:328 | the vertical Bresenham call of a span draws exactly the pixels (x, y) with lo <= y <= hi, in order |
| Shapes.KindOf | Lab1_Lab2_Lab3/Shape.cs:346-408 | a recognised tag names the kind whose `Type()` is that tag |
| Shapes.KindOfTypeName | Lab1_Lab2_Lab3/Shape.cs:530 | every kind's `Type()` string is recognised as that kind |
| Shapes.AnchorCount | Lab1_Lab2_Lab3/Shape.cs:489-1043 | the constructors of Line, Circle, Ellipse, Triangle, Rectangle, Pentagon and Hexagon store 2, 6, 5, 3, 4, 5 and 6 control points |
| Shapes.CircleReadBack | Lab1_Lab2_Lab3/Shape.cs:541-553 | the centre is stored at index 0 as integral coordinates; `[1].X - [0].X` reads back r = trunc(min(abs dx, abs dy))/2 |
| Shapes.EllipseReadBack | Lab1_Lab2_Lab3/Shape.cs:680-693 | `[1].X - [0].X` and `[2].Y - [0].Y` read back trunc(abs dx)/2 and trunc(abs dy)/2, both non-negative |
| Shapes.RectangleCenter | Lab1_Lab2_Lab3/Shape.cs:17-34 | the mean of a rectangle's four corners is the midpoint of its anchors |
| Shapes.MeanSingle | Lab1_Lab2_Lab3/Shape.cs:17-34 | the mean of one control point is that point |
| Shapes.CircleExample | Lab1_Lab2_Lab3/Shape.cs:541-667 | anchors (0,0),(10,10) give centre (5,5) and r = 5; it contains (5,5) and not (11,5) |
| Shapes.CircleBoundary | Lab1_Lab2_Lab3/Shape.cs:657-662 | a circle with read-back radius r >= 0 contains its centre and not the point r + 1 to its right |
| Shapes.RectangleExample | Lab1_Lab2_Lab3/Shape.cs:905-941 | the rectangle from (0,0) to (4,2) contains (2,1) and not (5,5) |
| Shapes.LineContainsStart | Lab1_Lab2_Lab3/Shape.cs:516-528 | a line contains its own first control point |
| Shapes.LineContainsEnd | Lab1_Lab2_Lab3/Shape.cs:516-528 | a forward integral line contains its own end point |
| Shapes.PolygonContainsFirstVertex | Lab1_Lab2_Lab3/Shape.cs:889-892 | a polygon-like shape with at least 3 control points contains its first one |
| Shapes.DegeneratePolygonEmpty | Lab1_Lab2_Lab3/Shape.cs:1112-1115 | a polygon-like shape with fewer than 3 control points contains nothing |
| Shapes.OutlineHitsVertices | Lab1_Lab2_Lab3/Shape.cs:1084-1098 | the closed outline of a polygon-like shape passes through every truncated control point |
| Shapes.CurvesSymmetric | Lab1_Lab2_Lab3/Shape.cs:556-803 | a circle's outline is 8-fold symmetric and an ellipse's 4-fold symmetric about the truncated centre |
| Shapes.Shape.Empty | Lab1_Lab2_Lab3/Shape.cs:410-480 | a parameterless shape of a kind, with the given colours, visible, and without control points |
| Shapes.Shape.Anchored | Lab1_Lab2_Lab3/Shape.cs:489-1043 | a shape of a kind, built from two anchors, with the given colours, visible, and with that constructor's control points |
| Shapes.Shape.AddRange | Lab1_Lab2_Lab3/Transformer.cs:32 | appends to the control points and leaves kind, colours and visibility unchanged |
| Shapes.Shape.Center | Lab1_Lab2_Lab3/Shape.cs:17-34 | the summing loop gives the mean of the control points, or control point 0 for Circle and Ellipse (lines 664-667, 821-824) |
| Shapes.Shape.Contains | Lab1_Lab2_Lab3/Shape.cs:516-1115 | the method gives the per-kind test. A line: the truncated point is in its Bresenham list. A circle: distance <= r with r read back. An ellipse: the quadratic form <= 1. Other kinds: `isInside` |
| Shapes.Shape.Draw | Lab1_Lab2_Lab3/Shape.cs:495-1110 | an invisible shape draws nothing, whatever its control points. Otherwise the outline is the kind's point list. A filled shape other than a line gets spans that increase in X, one per column, each the column's first wide gap |
| Shapes.Shape.Trace | Lab1_Lab2_Lab3/Shape.cs:500-1098 | the per-kind point generation: Bresenham, the midpoint circle or ellipse with the read-back radii, or the closed chain |
| Shapes.CreateShape | Lab1_Lab2_Lab3/Shape.cs:346-408 | a null result exactly for "Polygon" and unknown tags; otherwise a fresh visible shape whose `Type()` is the tag, with the colours and that constructor's control points |
| Shapes.CreateEmpty | Lab1_Lab2_Lab3/Shape.cs:410-480 | null exactly for unknown tags ("Polygon" included as known); otherwise a fresh visible shape of that kind with the colours and no control points |
| Transformer.TransformAll | Lab1_Lab2_Lab3/Transformer.cs:31 | `matrix.Transform(points)` rewrites every array element with its image, in order |
| Transformer.Rebuild | Lab1_Lab2_Lab3/Transformer.cs:23-32 | a fresh visible shape of the same kind and colours, whose control points are the input's mapped in order; the input is not written |
| Transformer.Transform | Lab1_Lab2_Lab3/Transformer.cs:10-84 | null exactly for a tag other than Translate, Rotate or Scale. Otherwise a fresh visible shape of the same kind and colours, holding the control points mapped by that op's matrix |
| Transformer.TranslationMoves | Lab1_Lab2_Lab3/Transformer.cs:14-21 | a translation adds the offset to every point |
| Transformer.TranslateIdentity | Lab1_Lab2_Lab3/Transformer.cs:14-33 | translating with pOld = pNew leaves the control points unchanged |
| Transformer.TranslateKeepsDifferences | Lab1_Lab2_Lab3/Transformer.cs:14-33 | translation keeps the difference between any two control points |
| Transformer.TranslateKeepsRadii | Lab1_Lab2_Lab3/Transformer.cs:14-33 | an integral translation of integral control points keeps the read-back radii |
| Transformer.FractionalTranslateRadius | Lab1_Lab2_Lab3/Transformer.cs:14-33 | a fractional translation across zero can change the read-back radius (5 becomes 4) |
| Transformer.TranslateExample | Lab1_Lab2_Lab3/Transformer.cs:14-33 | the line [(0,0),(5,3)] dragged from (0,0) to (3,4) becomes [(3,4),(8,7)] |
| Transformer.ScalingAbout | Lab1_Lab2_Lab3/Transformer.cs:69 | `ScaleAt(s, s, c)` maps p to c + s(p - c) |
| Transformer.ScaleDistance | Lab1_Lab2_Lab3/Transformer.cs:69 | `ScaleAt(s, s, c)` multiplies the squared distance of every point from c by s² |
| Transformer.ScaledEuclid | Lab1_Lab2_Lab3/Transformer.cs:69 | with a true square root, `ScaleAt(s, s, c)` for s >= 0 multiplies every point's distance from c by s |
| Transformer.ScaleMultipliesDistance | Lab1_Lab2_Lab3/Transformer.cs:62-80 | with a true square root, Scale puts every point at `ScaleFactor` (new over old anchor distance) times its old distance from the centre |
| Transformer.ScaleIdentity | Lab1_Lab2_Lab3/Transformer.cs:62-80 | with pNew = pOld away from the centre the factor is 1 and the points are unchanged |
| Transformer.RotationAbout | Lab1_Lab2_Lab3/Transformer.cs:49 | `RotateAt(angle, c)` turns the offset p - c by the angle's sine and cosine |
| Transformer.RotateIdentity | Lab1_Lab2_Lab3/Transformer.cs:34-61 | rotating with pNew = pOld turns by angle 0 and leaves the control points unchanged, given sqrt(0) = 0, acos(1) = 0, sin(0) = 0 and cos(0) = 1 |
| Transformer.RotationKeepsDistance | Lab1_Lab2_Lab3/Transformer.cs:49 | when sin² + cos² = 1, rotation keeps every point's distance from the centre |
| Transformer.CenterFixed | Lab1_Lab2_Lab3/Transformer.cs:36-69 | rotation and scaling about the centre leave the centre fixed |
| Transformer.SumMapped | Lab1_Lab2_Lab3/Shape.cs:17-34 | the sum of the mapped points is the linear part applied to the sum, plus n times the offset |
| Transformer.MeanMapped | Lab1_Lab2_Lab3/Shape.cs:17-34 | an affine map commutes with the mean of the control points |
| Transformer.CenterMapped | Lab1_Lab2_Lab3/Shape.cs:17-34 | the centre of the mapped control points is the image of the old centre, for every kind |
| Transformer.TransformCenter | Lab1_Lab2_Lab3/Transformer.cs:10-84 | Translate moves the centre by the drag, while Rotate and Scale keep it where it was |

## Left out

- OpenGL output is not modelled. The `gl.*` calls in every `Draw`, in
  `ScanFill` and in `Bresenham(ref OpenGL, ...)` are left out. The model
  returns the outline pixels and the fill spans instead.
- Colours are carried through unchanged and never interpreted.
  `StrokeColor.Value` throws for a shape without a stroke colour; that
  exception is not modelled.
- Floating point is modelled as exact reals, so rounding is not captured.
  `Math.Sqrt`, `Math.Sin`, `Math.Cos` and `Math.Acos` are parameters.
- The internals of the WPF `Matrix` are not modelled. `RotateAt` reduces the
  angle modulo 360 and multiplies into an identity matrix. Only the
  resulting affine map is modelled.
- `Transformer.Transform`: Rotate divides by the two distances from the
  centre, and Scale by the old one. With a zero distance the source yields
  NaN or infinity; the model requires those distances to be nonzero.
- `Shapes.Shape.Center`: the mean of an empty list is NaN, and Circle and
  Ellipse index an empty list. The model requires a control point.
- `Shapes.Shape.Contains` and `Shapes.Shape.Draw` require the control
  points their kind indexes, because with fewer the source throws an index
  exception. `Contains` needs two for a line or circle, three for an
  ellipse, and none for the polygon-like kinds. A visible shape's `Draw`
  needs two for a line, three for a circle (`Circle.Draw` reads its third
  point, Shape.cs:572-573) or an ellipse, and one for a polygon-like kind
  other than `Polygon`, which needs none. A hidden shape's `Draw` returns
  before indexing and needs none.
- `Shapes.CircleHit`: `Circle.Contains` compares the distance with r. The
  model compares squared distances, which is exact for reals when r >= 0;
  a negative r (possible after a rotation) contains nothing in both.
- `Shapes.EllipseHit`: with a zero radius `Ellipse.Contains` divides by
  zero and the comparison with NaN is false. The model returns false there;
  an infinity from a zero radius is also modelled as false.
- `int` overflow is not modelled: the model's integers are unbounded, as is
  the `float p` in Bresenham, which only ever holds integers.
- `List.Sort` in `ScanFill` is a library sort with a comparator. It is
  modelled by an in-place insertion sort with the same promise: sorted by X
  and a permutation. The spans do not depend on which such order comes
  out.
- `ScanFill` works on integer pixels: the outlines it is given hold
  integral coordinates. Clearing the scratch list `x_Each_y` is implicit
  in building a new column sequence.
- The dead `temp` assignments in `Circle.Draw` and `Ellipse.Draw`, and the
  unused slope `m` in `Line.Contains`, are not modelled.
- The `Debug.WriteLine` of the angle in `Transform` is not modelled.
- Transformer.RotateIdentity and Transformer.ScaleMultipliesDistance hold
  only for a `Numerics` whose functions agree with the true ones where they
  are used (the square root everywhere, the trigonometric functions at 0
  and acos at 1). Rounding in the real `Math` functions is not modelled.
- `Lab1_Lab2_Lab3/MainWindow.xaml.cs` and `Lab1_Lab2_Lab3/Helper.cs` are not
  part of this model: they are WPF event handling and binding plumbing.
- Transformer.TranslateKeepsRadii: stated only for integral control points
  and integral offsets. With fractional ones the truncating read-back can
  change the radius, as Transformer.FractionalTranslateRadius shows.
- LineRaster.BresenhamForward: its length, endpoints and unit steps are
  proved for integral A <= B componentwise. For the swapped case,
  LineRaster.BresenhamSwapped and LineRaster.BresenhamReversed relate the
  output to the forward one. Segments with one coordinate rising and the
  other falling are covered by LineRaster.Bresenham's equation with the
  specification, with no general lemma. On them the source does not reach
  B: the swap leaves the two units of opposite sign while p starts at
  2*Dy - Dx, so the walk overshoots, as LineRaster.BresenhamMixedMissesEnd
  shows for (0,0) to (5,-3).
