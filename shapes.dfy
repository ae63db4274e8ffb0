/** The shape model of the paint program (Shape.cs): the kinds of shape,
    the control points each constructor derives from the two mouse anchors,
    both `ShapeFactory.CrateShape` overloads, `Center`, `Contains`, and the
    point and span lists that `Draw` renders. */
module Shapes {
  import opened Wrappers
  import opened Geometry
  import HitTest
  import LineRaster
  import CurveRaster
  import ScanFill

  /** The concrete subclasses of `Shape`. */
  datatype Kind = Line | Circle | Ellipse | Triangle | Rectangle | Pentagon | Hexagon | Polygon

  /** A `System.Windows.Media.Color`; the model only carries colours along. */
  datatype Color = Color(a: bv8, r: bv8, g: bv8, b: bv8)

  /** The `System.Math` functions the constructors and transforms call,
      passed in rather than modelled: `Sqrt`, `Sin`, `Cos` and `Acos`. */
  datatype Numerics = Numerics(sqrt: real -> real, sin: real -> real, cos: real -> real, acos: real -> real)

  /** `Math.PI`, written as its shortest round-trip decimal. */
  const PI: real := 3.141592653589793

  /** `Type()` of each subclass. */
  function TypeName(k: Kind): string
  {
    match k
    case Line => "Line"
    case Circle => "Circle"
    case Ellipse => "Ellipse"
    case Triangle => "Triangle"
    case Rectangle => "Rectangle"
    case Pentagon => "Pentagon"
    case Hexagon => "Hexagon"
    case Polygon => "Polygon"
  }

  /** The factory's tag dispatch: the subclass a tag names, if any. */
  function KindOf(tag: string): (k: Option<Kind>)
    ensures k.Some? ==> TypeName(k.value) == tag
  {
    if tag == "Line" then Some(Line)
    else if tag == "Circle" then Some(Circle)
    else if tag == "Ellipse" then Some(Ellipse)
    else if tag == "Triangle" then Some(Triangle)
    else if tag == "Rectangle" then Some(Rectangle)
    else if tag == "Pentagon" then Some(Pentagon)
    else if tag == "Hexagon" then Some(Hexagon)
    else if tag == "Polygon" then Some(Polygon)
    else None
  }

  /** Every kind's `Type()` is a tag the factory maps back to that kind. */
  lemma KindOfTypeName(k: Kind)
    ensures KindOf(TypeName(k)) == Some(k)
  {
  }

  // ---------------------------------------------------------------------
  // Control points derived from the anchors

  /** A pixel as a `Point`, as `new Point(intX, intY)` builds it. */
  function Pt(x: int, y: int): (p: Point)
    ensures IntegralPoint(p) && TruncPoint(p) == Pixel(x, y)
  {
    TruncPointIntegral(ToPoint(Pixel(x, y)));
    ToPoint(Pixel(x, y))
  }

  /** The shorter side of the anchors' bounding box. */
  function Side(a: Point, b: Point): (d: real)
    ensures d >= 0.0
  {
    RMin(RAbs(a.x - b.x), RAbs(a.y - b.y))
  }

  /** The radius `Circle(a, b)` computes: the truncated shorter side, halved. */
  function CircleRadius(a: Point, b: Point): (r: int)
    ensures r >= 0
  {
    TruncBounds(Side(a, b));
    Trunc(Side(a, b)) / 2
  }

  /** `Circle(a, b)`: the centre, the right-hand point of the rim, the
      bounding box's corner, then the left, lower and upper rim points. */
  function CircleAnchors(a: Point, b: Point): seq<Point>
  {
    var r := CircleRadius(a, b);
    var cx := Trunc(RMin(a.x, b.x)) + r;
    var cy := Trunc(RMin(a.y, b.y)) + r;
    [Pt(cx, cy), Pt(cx + r, cy), Point(RMin(a.x, b.x), RMin(a.y, b.y)),
     Pt(cx - r, cy), Pt(cx, cy + r), Pt(cx, cy - r)]
  }

  /** `Ellipse(a, b)`: the centre, then the rim points on the axes. */
  function EllipseAnchors(a: Point, b: Point): seq<Point>
  {
    var rx := Trunc(RAbs(a.x - b.x)) / 2;
    var ry := Trunc(RAbs(a.y - b.y)) / 2;
    var cx := Trunc(RMin(a.x, b.x)) + rx;
    var cy := Trunc(RMin(a.y, b.y)) + ry;
    [Pt(cx, cy), Pt(cx + rx, cy), Pt(cx, cy + ry), Pt(cx - rx, cy), Pt(cx, cy - ry)]
  }

  /** `Triangle(a, b)`: a, then the far end of the base, then the apex,
      with both truncated as the source's `(int)` casts do. */
  function TriangleAnchors(a: Point, b: Point, num: Numerics): seq<Point>
  {
    var side := Side(a, b);
    var height := side * num.sqrt(3.0) / 2.0;
    var x1 := Trunc(if a.x > b.x then a.x - side else a.x + side);
    var y2 := Trunc(if a.y > b.y then a.y - height else a.y + height);
    var x2 := Trunc(if a.x > b.x then a.x - side / 2.0 else a.x + side / 2.0);
    [a, Point(x1 as real, a.y), Point(x2 as real, y2 as real)]
  }

  /** `Rectangle(a, b)`: the four corners, starting at a. */
  function RectangleAnchors(a: Point, b: Point): seq<Point>
  {
    [a, Point(b.x, a.y), b, Point(a.x, b.y)]
  }

  /** The divisions some constructors perform are by nonzero values. */
  predicate Defined(k: Kind, num: Numerics)
  {
    (k == Pentagon ==> num.sin(PI * 54.0 / 180.0) != 0.0) &&
    (k == Hexagon ==> num.sqrt(3.0) != 0.0)
  }

  /** `Pentagon(a, b)`: five vertices from the 54 and 18 degree angles,
      mirrored toward b. */
  function PentagonAnchors(a: Point, b: Point, num: Numerics): seq<Point>
    requires Defined(Pentagon, num)
  {
    var w := Side(a, b);
    var side := w / 2.0 / num.sin(PI * 54.0 / 180.0);
    var d1 := side * num.cos(PI * 54.0 / 180.0);
    var d2 := side * num.cos(PI * 18.0 / 180.0);
    var d3 := side * num.sin(PI * 18.0 / 180.0);
    var d := Trunc(d1 + d2) as real;
    var left, up := a.x > b.x, a.y > b.y;
    [Point(if left then a.x - d3 else a.x + d3, a.y),
     Point(if left then a.x - w + d3 else a.x + w - d3, a.y),
     Point(if left then a.x - w else a.x + w, if up then a.y - d2 else a.y + d2),
     Point(if left then a.x - w / 2.0 else a.x + w / 2.0, if up then a.y - d else a.y + d),
     Point(a.x, if up then a.y - d2 else a.y + d2)]
  }

  /** `Hexagon(a, b)`: six vertices from the side and side / (2 sqrt 3),
      mirrored toward b. */
  function HexagonAnchors(a: Point, b: Point, num: Numerics): seq<Point>
    requires Defined(Hexagon, num)
  {
    var side := Side(a, b);
    var d1 := side / 2.0 / num.sqrt(3.0);
    var d := (4 * Trunc(d1)) as real;
    var left, up := a.x > b.x, a.y > b.y;
    var half := if left then a.x - side / 2.0 else a.x + side / 2.0;
    var far := if left then a.x - side else a.x + side;
    var near := if up then a.y - d1 else a.y + d1;
    var deep := if up then a.y - 3.0 * d1 else a.y + 3.0 * d1;
    [Point(half, a.y), Point(a.x, near), Point(a.x, deep),
     Point(half, if up then a.y - d else a.y + d), Point(far, deep), Point(far, near)]
  }

  /** The control points the anchored constructor of each kind derives;
      `Polygon` has no such constructor. */
  function AnchorPoints(k: Kind, a: Point, b: Point, num: Numerics): seq<Point>
    requires k != Polygon && Defined(k, num)
  {
    match k
    case Line => [a, b]
    case Circle => CircleAnchors(a, b)
    case Ellipse => EllipseAnchors(a, b)
    case Triangle => TriangleAnchors(a, b, num)
    case Rectangle => RectangleAnchors(a, b)
    case Pentagon => PentagonAnchors(a, b, num)
    case Hexagon => HexagonAnchors(a, b, num)
  }

  /** The number of vertices each kind's anchored constructor adds. */
  function VertexCount(k: Kind): nat
  {
    match k
    case Line => 2
    case Circle => 6
    case Ellipse => 5
    case Triangle => 3
    case Rectangle => 4
    case Pentagon => 5
    case Hexagon => 6
    case Polygon => 0
  }

  lemma AnchorCount(k: Kind, a: Point, b: Point, num: Numerics)
    requires k != Polygon && Defined(k, num)
    ensures |AnchorPoints(k, a, b, num)| == VertexCount(k)
  {
  }

  // ---------------------------------------------------------------------
  // What Draw and Contains read back from the control points

  /** `(int)cps[1].X - (int)cps[0].X`: the circle's radius, the ellipse's
      horizontal radius. */
  function RadiusX(cps: seq<Point>): int
    requires |cps| >= 2
  {
    Trunc(cps[1].x) - Trunc(cps[0].x)
  }

  /** `(int)cps[2].Y - (int)cps[0].Y`: the ellipse's vertical radius. */
  function RadiusY(cps: seq<Point>): int
    requires |cps| >= 3
  {
    Trunc(cps[2].y) - Trunc(cps[0].y)
  }

  /** The circle and ellipse constructors store the centre first and the
      radius they computed in the offsets of the rim points, so that `Draw`
      and `Contains` read back exactly those radii. */
  lemma CircleReadBack(a: Point, b: Point)
    ensures var cps := CircleAnchors(a, b);
      && IntegralPoint(cps[0])
      && TruncPoint(cps[0]) == Pixel(Trunc(RMin(a.x, b.x)) + CircleRadius(a, b), Trunc(RMin(a.y, b.y)) + CircleRadius(a, b))
      && RadiusX(cps) == CircleRadius(a, b) == Trunc(Side(a, b)) / 2
  {
  }

  lemma EllipseReadBack(a: Point, b: Point)
    ensures var cps := EllipseAnchors(a, b);
      && IntegralPoint(cps[0])
      && RadiusX(cps) == Trunc(RAbs(a.x - b.x)) / 2
      && RadiusY(cps) == Trunc(RAbs(a.y - b.y)) / 2
      && RadiusX(cps) >= 0 && RadiusY(cps) >= 0
  {
    TruncBounds(RAbs(a.x - b.x));
    TruncBounds(RAbs(a.y - b.y));
  }

  // ---------------------------------------------------------------------
  // Center

  /** The coordinate-wise sum of the points, first to last. */
  function Sum(s: seq<Point>): Point
  {
    if s == [] then Point(0.0, 0.0)
    else
      var t := Sum(s[..|s| - 1]);
      Point(t.x + s[|s| - 1].x, t.y + s[|s| - 1].y)
  }

  /** The arithmetic mean of the points. */
  function Mean(s: seq<Point>): Point
    requires |s| >= 1
  {
    Point(Sum(s).x / |s| as real, Sum(s).y / |s| as real)
  }

  /** What `Center()` returns: the stored centre of a circle or ellipse,
      the mean of the control points otherwise. */
  function CenterOf(k: Kind, cps: seq<Point>): Point
    requires |cps| >= 1
  {
    if k == Circle || k == Ellipse then cps[0] else Mean(cps)
  }

  /** A rectangle's centre is the midpoint of its two anchors. */
  lemma RectangleCenter(a: Point, b: Point)
    ensures CenterOf(Rectangle, RectangleAnchors(a, b)) == Point((a.x + b.x) / 2.0, (a.y + b.y) / 2.0)
  {
    var q1, q3 := Point(b.x, a.y), Point(a.x, b.y);
    SumSnoc([], a);
    assert [] + [a] == [a];
    SumSnoc([a], q1);
    assert [a] + [q1] == [a, q1];
    SumSnoc([a, q1], b);
    assert [a, q1] + [b] == [a, q1, b];
    SumSnoc([a, q1, b], q3);
    assert [a, q1, b] + [q3] == RectangleAnchors(a, b);
    assert Sum(RectangleAnchors(a, b)) == Point(a.x + b.x + b.x + a.x, a.y + a.y + b.y + b.y);
  }

  /** Appending a point adds it to the sum. */
  lemma SumSnoc(s: seq<Point>, p: Point)
    ensures Sum(s + [p]) == Point(Sum(s).x + p.x, Sum(s).y + p.y)
  {
    assert (s + [p])[..|s|] == s;
  }

  /** The mean of one point is that point. */
  lemma MeanSingle(p: Point)
    ensures Mean([p]) == p
  {
    SumSnoc([], p);
    assert [] + [p] == [p];
  }

  // ---------------------------------------------------------------------
  // Contains

  /** How many control points `Contains` indexes for each kind. */
  function ContainsNeeds(k: Kind): nat
  {
    match k
    case Line => 2
    case Circle => 2
    case Ellipse => 3
    case _ => 0
  }

  /** `Circle.Contains`: `Euclid(cps[0], p) <= r` with r read back from the
      rim point; over the reals this is r >= 0 and the squared distance at
      most r squared. */
  predicate CircleHit(cps: seq<Point>, p: Point)
    requires |cps| >= 2
  {
    var r := RadiusX(cps);
    r >= 0 && SqDist(cps[0], p) <= (r * r) as real
  }

  /** `Ellipse.Contains`: the quadratic form about the truncated centre is
      at most one. A zero radius makes the source divide by zero, giving
      infinity or NaN, and the comparison false. */
  predicate EllipseHit(cps: seq<Point>, p: Point)
    requires |cps| >= 3
  {
    var rx, ry := RadiusX(cps), RadiusY(cps);
    var dx := p.x - Trunc(cps[0].x) as real;
    var dy := p.y - Trunc(cps[0].y) as real;
    rx != 0 && ry != 0 && dx * dx / (rx * rx) as real + dy * dy / (ry * ry) as real <= 1.0
  }

  /** `Contains(point)` of each subclass, on its control points. */
  predicate Hit(k: Kind, cps: seq<Point>, p: Point)
    requires |cps| >= ContainsNeeds(k)
  {
    match k
    case Line => TruncPoint(p) in LineRaster.BresenhamPoints(cps[0], cps[1])
    case Circle => CircleHit(cps, p)
    case Ellipse => EllipseHit(cps, p)
    case _ => HitTest.Inside(cps, p)
  }

  /** A line contains the point it starts at. */
  lemma LineContainsStart(cps: seq<Point>)
    requires |cps| >= 2
    ensures Hit(Line, cps, cps[0])
  {
  }

  /** A line between integer points with a <= b contains its end point too. */
  lemma LineContainsEnd(a: Pixel, b: Pixel)
    requires a.x <= b.x && a.y <= b.y
    ensures Hit(Line, [ToPoint(a), ToPoint(b)], ToPoint(b))
  {
    LineRaster.BresenhamForward(a, b);
    TruncPointIntegral(ToPoint(b));
    var r := LineRaster.BresenhamPoints(ToPoint(a), ToPoint(b));
    assert r[|r| - 1] == TruncPoint(ToPoint(b));
  }

  /** Every polygon-like shape with at least three vertices contains its
      first vertex. */
  lemma PolygonContainsFirstVertex(k: Kind, cps: seq<Point>)
    requires ContainsNeeds(k) == 0 && |cps| >= 3
    ensures Hit(k, cps, cps[0])
  {
    HitTest.FirstVertexInside(cps);
  }

  /** A polygon-like shape with fewer than three vertices contains nothing. */
  lemma DegeneratePolygonEmpty(k: Kind, cps: seq<Point>, p: Point)
    requires ContainsNeeds(k) == 0 && |cps| < 3
    ensures !Hit(k, cps, p)
  {
  }

  /** The circle drawn from (0,0) to (10,10) has centre (5,5) and radius 5;
      it contains its centre and not (11,5). */
  lemma CircleExample()
    ensures var cps := CircleAnchors(Point(0.0, 0.0), Point(10.0, 10.0));
      && cps[0] == Point(5.0, 5.0) && CenterOf(Circle, cps) == Point(5.0, 5.0) && RadiusX(cps) == 5
      && Hit(Circle, cps, Point(5.0, 5.0)) && !Hit(Circle, cps, Point(11.0, 5.0))
  {
    var a, b := Point(0.0, 0.0), Point(10.0, 10.0);
    assert Side(a, b) == 10.0;
    assert Trunc(10.0) == 10;
    assert CircleRadius(a, b) == 5;
    assert Trunc(0.0) == 0;
  }

  /** The square of an integer, read as a real, is the square of the real. */
  lemma CastSquare(n: int)
    ensures (n * n) as real == (n as real) * (n as real)
  {
  }

  /** A point t to the right of c lies at squared distance t² from it. */
  lemma HorizontalSqDist(c: Point, t: real)
    ensures SqDist(c, Point(c.x + t, c.y)) == t * t
  {
    assert c.x - (c.x + t) == -t;
    assert (-t) * (-t) == t * t;
  }

  /** A circle with a non-negative read-back radius r contains its centre
      and not the point r + 1 to the right of it. */
  lemma CircleBoundary(cps: seq<Point>)
    requires |cps| >= 2 && RadiusX(cps) >= 0
    ensures Hit(Circle, cps, cps[0])
    ensures !Hit(Circle, cps, Point(cps[0].x + (RadiusX(cps) + 1) as real, cps[0].y))
  {
    var c, r := cps[0], RadiusX(cps);
    assert SqDist(c, c) == 0.0;
    assert r * r >= 0;
    HorizontalSqDist(c, (r + 1) as real);
    CastSquare(r + 1);
    assert r * r < (r + 1) * (r + 1);
  }

  /** The rectangle drawn from (0,0) to (4,2) contains (2,1) and not (5,5). */
  lemma RectangleExample()
    ensures var cps := RectangleAnchors(Point(0.0, 0.0), Point(4.0, 2.0));
      Hit(Rectangle, cps, Point(2.0, 1.0)) && !Hit(Rectangle, cps, Point(5.0, 5.0))
  {
    assert RectangleAnchors(Point(0.0, 0.0), Point(4.0, 2.0)) == HitTest.SampleRectangle();
    HitTest.RectangleContainsCentre();
    HitTest.RectangleExcludesOutside();
  }

  // ---------------------------------------------------------------------
  // Draw

  /** How many control points a visible shape's `Draw` indexes for each
      kind: the circle also reads its third point, for a dead assignment. */
  function DrawNeeds(k: Kind): nat
  {
    match k
    case Line => 2
    case Circle => 3
    case Ellipse => 3
    case Polygon => 0
    case _ => 1
  }

  /** The outline points the `Draw` of each kind renders. */
  function Outline(k: Kind, cps: seq<Point>): seq<Pixel>
    requires |cps| >= DrawNeeds(k)
  {
    match k
    case Line => LineRaster.BresenhamPoints(cps[0], cps[1])
    case Circle => CurveRaster.CirclePoints(Trunc(cps[0].x), Trunc(cps[0].y), RadiusX(cps))
    case Ellipse => CurveRaster.EllipsePoints(Trunc(cps[0].x), Trunc(cps[0].y), RadiusX(cps), RadiusY(cps))
    case Polygon => if |cps| <= 1 then [] else LineRaster.Chain(LineRaster.BresenhamPoints, cps)
    case _ => LineRaster.Chain(LineRaster.BresenhamPoints, cps)
  }

  /** Whether `Draw` goes on to fill the outline: every kind but `Line`
      does when it has a fill colour. */
  predicate Fills(k: Kind, fill: Option<Color>)
  {
    k != Line && fill.Some?
  }

  /** The outline of a polygon-like shape passes through every vertex. */
  lemma OutlineHitsVertices(k: Kind, cps: seq<Point>)
    requires k in {Triangle, Rectangle, Pentagon, Hexagon, Polygon} && |cps| >= 2
    ensures forall i :: 0 <= i < |cps| ==> TruncPoint(cps[i]) in Outline(k, cps)
  {
    LineRaster.BresenhamStartsAtFirst();
    LineRaster.ChainHitsVertices(LineRaster.BresenhamPoints, cps);
  }

  /** A circle's outline is symmetric under the eight reflections about its
      centre; an ellipse's under the four. */
  lemma CurvesSymmetric(cps: seq<Point>)
    requires |cps| >= 3
    ensures CurveRaster.OctantSymmetric(Outline(Circle, cps), Trunc(cps[0].x), Trunc(cps[0].y))
    ensures CurveRaster.QuadrantSymmetric(Outline(Ellipse, cps), Trunc(cps[0].x), Trunc(cps[0].y))
  {
    CurveRaster.CircleSymmetric(Trunc(cps[0].x), Trunc(cps[0].y), RadiusX(cps));
    CurveRaster.EllipseSymmetric(Trunc(cps[0].x), Trunc(cps[0].y), RadiusX(cps), RadiusY(cps));
  }

  /** A shape of the paint program. The subclass is the `kind` field; the
      colours are nullable (`None` for null). */
  class Shape {
    var kind: Kind
    var stroke: Option<Color>
    var fill: Option<Color>
    var visible: bool
    var cps: seq<Point>

    /** `new X() { StrokeColor = stroke, FillColor = fill }`. */
    constructor Empty(k: Kind, stroke: Option<Color>, fill: Option<Color>)
      ensures kind == k && this.stroke == stroke && this.fill == fill
      ensures visible && cps == []
    {
      kind, this.stroke, this.fill := k, stroke, fill;
      visible, cps := true, [];
    }

    /** `new X(a, b) { StrokeColor = stroke, FillColor = fill }`. */
    constructor Anchored(k: Kind, a: Point, b: Point, stroke: Option<Color>, fill: Option<Color>, num: Numerics)
      requires k != Polygon && Defined(k, num)
      ensures kind == k && this.stroke == stroke && this.fill == fill
      ensures visible && cps == AnchorPoints(k, a, b, num)
    {
      kind, this.stroke, this.fill := k, stroke, fill;
      visible, cps := true, AnchorPoints(k, a, b, num);
    }

    /** `ControlPoints.AddRange(points)`. */
    method AddRange(points: seq<Point>)
      modifies this
      ensures cps == old(cps) + points
      ensures kind == old(kind) && stroke == old(stroke) && fill == old(fill) && visible == old(visible)
    {
      cps := cps + points;
    }

    /** `Center()`: the stored centre of a circle or ellipse; otherwise the
        control points are summed in a loop and divided by their number. */
    method Center() returns (c: Point)
      requires |cps| >= 1
      ensures c == CenterOf(kind, cps)
    {
      if kind == Circle || kind == Ellipse {
        return cps[0];
      }
      var sumX, sumY := 0.0, 0.0;
      var i := 0;
      while i < |cps|
        invariant 0 <= i <= |cps|
        invariant Point(sumX, sumY) == Sum(cps[..i])
      {
        assert cps[..i + 1][..i] == cps[..i];
        sumX := sumX + cps[i].x;
        sumY := sumY + cps[i].y;
        i := i + 1;
      }
      assert cps[..i] == cps;
      c := Point(sumX / |cps| as real, sumY / |cps| as real);
    }

    /** `Contains(point)`: the line rasterises its segment and looks the
        truncated point up; the polygon-like kinds run the ray-casting test. */
    method Contains(p: Point) returns (b: bool)
      requires |cps| >= ContainsNeeds(kind)
      ensures b == Hit(kind, cps, p)
    {
      match kind
      case Line =>
        var points := LineRaster.Bresenham(cps[0], cps[1]);
        b := TruncPoint(p) in points;
      case Circle =>
        b := CircleHit(cps, p);
      case Ellipse =>
        b := EllipseHit(cps, p);
      case _ =>
        b := HitTest.IsInside(cps, p);
    }

    /** `Draw`: nothing when hidden; otherwise the outline, and when the
        shape fills, the spans `ScanFill` paints, each the first gap of
        its column's outline rows. */
    method Draw() returns (points: seq<Pixel>, spans: seq<ScanFill.Span>)
      requires visible ==> |cps| >= DrawNeeds(kind)
      ensures !visible ==> points == []
      ensures visible ==> points == Outline(kind, cps)
      ensures !(visible && Fills(kind, fill)) ==> spans == []
      ensures visible && Fills(kind, fill) ==>
        ScanFill.Increasing(spans) && ScanFill.Proper(spans) &&
        forall x :: ScanFill.SpansAt(spans, x) == ScanFill.GapSpan(x, ScanFill.SortInts(ScanFill.Col(points, x)))
    {
      points, spans := [], [];
      if !visible {
        return;
      }
      if kind == Polygon && |cps| <= 1 {
        NoOutlineNoSpans();
        return;
      }
      points := Trace();
      if fill.Some? && kind != Line {
        spans := ScanFill.FillOutline(points);
      }
    }

    /** The point-generating part of each `Draw`: the segment, the midpoint
        circle or ellipse, or the closed chain of edges. */
    method Trace() returns (points: seq<Pixel>)
      requires |cps| >= DrawNeeds(kind)
      ensures points == Outline(kind, cps)
    {
      match kind {
        case Line =>
          points := LineRaster.Bresenham(cps[0], cps[1]);
        case Circle =>
          points := CurveRaster.MidpointCircle(Trunc(cps[0].x), Trunc(cps[0].y), RadiusX(cps));
        case Ellipse =>
          points := CurveRaster.MidpointEllipse(Trunc(cps[0].x), Trunc(cps[0].y), RadiusX(cps), RadiusY(cps));
        case Polygon =>
          if |cps| <= 1 {
            points := [];
          } else {
            points := LineRaster.ClosedChain(cps);
          }
        case _ =>
          points := LineRaster.ClosedChain(cps);
      }
    }
  }

  /** An empty outline has no spans in any column. */
  lemma NoOutlineNoSpans()
    ensures forall x :: ScanFill.GapSpan(x, ScanFill.SortInts(ScanFill.Col([], x))) == []
  {
    forall x
      ensures ScanFill.GapSpan(x, ScanFill.SortInts(ScanFill.Col([], x))) == []
    {
      ScanFill.ShortNoSpan(x, []);
    }
  }

  // ---------------------------------------------------------------------
  // ShapeFactory

  /** `CrateShape(type, pStart, pEnd, stroke, fill)`: a shape built from
      the anchors, or null for "Polygon" and any unknown tag. */
  method CreateShape(tag: string, a: Point, b: Point, stroke: Option<Color>, fill: Option<Color>, num: Numerics)
    returns (s: Shape?)
    requires KindOf(tag).Some? ==> Defined(KindOf(tag).value, num)
    ensures s == null <==> KindOf(tag) == None || KindOf(tag) == Some(Polygon)
    ensures s != null ==> (fresh(s) && TypeName(s.kind) == tag && s.stroke == stroke && s.fill == fill
      && s.visible && s.cps == AnchorPoints(s.kind, a, b, num))
  {
    s := null;
    if tag == "Line" {
      s := new Shape.Anchored(Line, a, b, stroke, fill, num);
    } else if tag == "Circle" {
      s := new Shape.Anchored(Circle, a, b, stroke, fill, num);
    } else if tag == "Ellipse" {
      s := new Shape.Anchored(Ellipse, a, b, stroke, fill, num);
    } else if tag == "Triangle" {
      s := new Shape.Anchored(Triangle, a, b, stroke, fill, num);
    } else if tag == "Rectangle" {
      s := new Shape.Anchored(Rectangle, a, b, stroke, fill, num);
    } else if tag == "Pentagon" {
      s := new Shape.Anchored(Pentagon, a, b, stroke, fill, num);
    } else if tag == "Hexagon" {
      s := new Shape.Anchored(Hexagon, a, b, stroke, fill, num);
    }
  }

  /** `CrateShape(type, stroke, fill)`: an empty shape of the named kind
      ("Polygon" included), or null for an unknown tag. */
  method CreateEmpty(tag: string, stroke: Option<Color>, fill: Option<Color>) returns (s: Shape?)
    ensures s == null <==> KindOf(tag) == None
    ensures s != null ==> (fresh(s) && Some(s.kind) == KindOf(tag) && s.stroke == stroke && s.fill == fill
      && s.visible && s.cps == [])
  {
    s := null;
    if tag == "Line" {
      s := new Shape.Empty(Line, stroke, fill);
    } else if tag == "Circle" {
      s := new Shape.Empty(Circle, stroke, fill);
    } else if tag == "Ellipse" {
      s := new Shape.Empty(Ellipse, stroke, fill);
    } else if tag == "Triangle" {
      s := new Shape.Empty(Triangle, stroke, fill);
    } else if tag == "Rectangle" {
      s := new Shape.Empty(Rectangle, stroke, fill);
    } else if tag == "Pentagon" {
      s := new Shape.Empty(Pentagon, stroke, fill);
    } else if tag == "Hexagon" {
      s := new Shape.Empty(Hexagon, stroke, fill);
    } else if tag == "Polygon" {
      s := new Shape.Empty(Polygon, stroke, fill);
    }
  }
}
