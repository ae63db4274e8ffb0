/** The transform engine (Transformer.cs): `Transform` builds a fresh shape
    of the input's kind and colours and appends the input's control points
    mapped through the matrix of a translation, or of a rotation or a
    scaling about the shape's centre. */
module Transformer {
  import opened Wrappers
  import opened Geometry
  import opened Shapes

  /** The transforms `Transform` knows. */
  datatype Op = Translate | Rotate | Scale

  /** `Transform`'s dispatch on its `type` argument. */
  function OpOf(tag: string): Option<Op>
  {
    if tag == "Translate" then Some(Translate)
    else if tag == "Rotate" then Some(Rotate)
    else if tag == "Scale" then Some(Scale)
    else None
  }

  /** A `System.Windows.Media.Matrix`: the 2x2 part and the offsets. A
      point is a row vector: x' = x m11 + y m21 + dx, y' = x m12 + y m22 + dy. */
  datatype Matrix = Matrix(m11: real, m12: real, m21: real, m22: real, dx: real, dy: real)

  /** `Matrix.Transform` of one point. */
  function Apply(m: Matrix, p: Point): Point
  {
    Point(p.x * m.m11 + p.y * m.m21 + m.dx, p.x * m.m12 + p.y * m.m22 + m.dy)
  }

  /** Every point mapped through the matrix, in order. */
  function MapAll(m: Matrix, s: seq<Point>): seq<Point>
  {
    seq(|s|, i requires 0 <= i < |s| => Apply(m, s[i]))
  }

  /** `new Matrix()` followed by `Translate(dx, dy)`. */
  function Translation(dx: real, dy: real): Matrix
  {
    Matrix(1.0, 0.0, 0.0, 1.0, dx, dy)
  }

  /** `new Matrix()` followed by `RotateAt(degrees, c.X, c.Y)`: a rotation
      by the angle in radians about c. */
  function RotationAt(degrees: real, c: Point, num: Numerics): Matrix
  {
    var rad := degrees * (PI / 180.0);
    var sin, cos := num.sin(rad), num.cos(rad);
    Matrix(cos, sin, -sin, cos, c.x * (1.0 - cos) + c.y * sin, c.y * (1.0 - cos) - c.x * sin)
  }

  /** `new Matrix()` followed by `ScaleAt(s, s, c.X, c.Y)`. */
  function ScalingAt(s: real, c: Point): Matrix
  {
    Matrix(s, 0.0, 0.0, s, c.x - s * c.x, c.y - s * c.y)
  }

  /** `Shape.Euclid`, with the square root passed in. */
  function Euclid(a: Point, b: Point, num: Numerics): real
  {
    num.sqrt(SqDist(a, b))
  }

  /** The divisions of Rotate and Scale are by nonzero distances from the
      centre: Rotate divides by both, Scale by the old one. */
  predicate Computable(op: Op, c: Point, pOld: Point, pNew: Point, num: Numerics)
  {
    match op
    case Translate => true
    case Rotate => Euclid(c, pOld, num) != 0.0 && Euclid(c, pNew, num) != 0.0
    case Scale => Euclid(c, pOld, num) != 0.0
  }

  /** What `Transform` needs of its inputs: Rotate and Scale ask for the
      centre, which needs a control point, and divide by distances. */
  predicate Ready(op: Op, k: Kind, cps: seq<Point>, pOld: Point, pNew: Point, num: Numerics)
  {
    op == Translate || (|cps| >= 1 && Computable(op, CenterOf(k, cps), pOld, pNew, num))
  }

  /** The cosine of the angle between sides a and b of a triangle whose
      third side is d. */
  function CosineRule(a: real, b: real, d: real): real
    requires a != 0.0 && b != 0.0
  {
    (a * a + b * b - d * d) / (2.0 * a * b)
  }

  /** Rotate's angle in degrees: the law of cosines on the centre and the
      two anchors, negated when the drag goes right. */
  function RotationAngle(c: Point, pOld: Point, pNew: Point, num: Numerics): real
    requires Computable(Rotate, c, pOld, pNew, num)
  {
    var cos := CosineRule(Euclid(c, pOld, num), Euclid(c, pNew, num), Euclid(pOld, pNew, num));
    var angle := num.acos(cos) * (180.0 / PI);
    if pNew.x > pOld.x then -angle else angle
  }

  /** Scale's factor: the ratio of the new to the old distance from the centre. */
  function ScaleFactor(c: Point, pOld: Point, pNew: Point, num: Numerics): real
    requires Computable(Scale, c, pOld, pNew, num)
  {
    Euclid(c, pNew, num) / Euclid(c, pOld, num)
  }

  /** The matrix `Transform` builds for each op. */
  function TransformMatrix(op: Op, k: Kind, cps: seq<Point>, pOld: Point, pNew: Point, num: Numerics): Matrix
    requires Ready(op, k, cps, pOld, pNew, num)
  {
    match op
    case Translate => Translation(pNew.x - pOld.x, pNew.y - pOld.y)
    case Rotate =>
      var c := CenterOf(k, cps);
      RotationAt(RotationAngle(c, pOld, pNew, num), c, num)
    case Scale =>
      var c := CenterOf(k, cps);
      ScalingAt(ScaleFactor(c, pOld, pNew, num), c)
  }

  /** `matrix.Transform(points)`: every element rewritten in place. */
  method TransformAll(m: Matrix, points: array<Point>)
    modifies points
    ensures points[..] == MapAll(m, old(points[..]))
  {
    ghost var original := points[..];
    var i := 0;
    while i < points.Length
      invariant 0 <= i <= points.Length
      invariant points[..i] == MapAll(m, original[..i])
      invariant points[i..] == original[i..]
    {
      assert points[i] == original[i];
      points[i] := Apply(m, points[i]);
      assert MapAll(m, original[..i + 1]) == MapAll(m, original[..i]) + [Apply(m, original[i])];
      i := i + 1;
    }
  }

  /** The tail of each branch of `Transform`: a fresh empty shape of the
      same type and colours, to which the mapped copies of the control
      points are appended. */
  method Rebuild(shape: Shape, m: Matrix) returns (r: Shape)
    ensures fresh(r) && r.kind == shape.kind && r.stroke == shape.stroke && r.fill == shape.fill
    ensures r.visible && r.cps == MapAll(m, shape.cps)
  {
    KindOfTypeName(shape.kind);
    var created := CreateEmpty(TypeName(shape.kind), shape.stroke, shape.fill);
    r := created;
    var cps := shape.cps;
    var points := new Point[|cps|](i requires 0 <= i < |cps| => cps[i]);
    assert points[..] == cps;
    TransformAll(m, points);
    r.AddRange(points[..]);
  }

  /** `Transformer.Transform(type, shape, pOld, pNew)`: null for an
      unknown type; otherwise a fresh shape whose control points are the
      input's mapped through the op's matrix. The input is only read. */
  method Transform(tag: string, shape: Shape, pOld: Point, pNew: Point, num: Numerics) returns (r: Shape?)
    requires OpOf(tag).Some? ==> Ready(OpOf(tag).value, shape.kind, shape.cps, pOld, pNew, num)
    ensures r == null <==> OpOf(tag) == None
    ensures r != null ==> (fresh(r) && r.kind == shape.kind && r.stroke == shape.stroke && r.fill == shape.fill
      && r.visible && r.cps == MapAll(TransformMatrix(OpOf(tag).value, shape.kind, shape.cps, pOld, pNew, num), shape.cps))
  {
    r := null;
    var xOffset, yOffset := pNew.x - pOld.x, pNew.y - pOld.y;
    if tag == "Translate" {
      assert Translation(xOffset, yOffset) == TransformMatrix(Translate, shape.kind, shape.cps, pOld, pNew, num);
      r := Rebuild(shape, Translation(xOffset, yOffset));
    } else if tag == "Rotate" {
      var center := shape.Center();
      var angle := RotationAngle(center, pOld, pNew, num);
      r := Rebuild(shape, RotationAt(angle, center, num));
    } else if tag == "Scale" {
      var center := shape.Center();
      var scale := ScaleFactor(center, pOld, pNew, num);
      r := Rebuild(shape, ScalingAt(scale, center));
    }
  }

  // ---------------------------------------------------------------------
  // Properties of the matrices

  /** A translation moves every point by the offset. */
  lemma TranslationMoves(dx: real, dy: real, p: Point)
    ensures Apply(Translation(dx, dy), p) == Point(p.x + dx, p.y + dy)
  {
  }

  /** Translating from a point to itself leaves the control points as they are. */
  lemma TranslateIdentity(k: Kind, cps: seq<Point>, p: Point, num: Numerics)
    ensures MapAll(TransformMatrix(Translate, k, cps, p, p, num), cps) == cps
  {
  }

  /** Translation keeps the differences between control points. */
  lemma TranslateKeepsDifferences(cps: seq<Point>, dx: real, dy: real, i: nat, j: nat)
    requires i < |cps| && j < |cps|
    ensures var moved := MapAll(Translation(dx, dy), cps);
      moved[i].x - moved[j].x == cps[i].x - cps[j].x && moved[i].y - moved[j].y == cps[i].y - cps[j].y
  {
  }

  /** Adding an integral offset to an integral coordinate adds to its
      truncation. */
  lemma IntegralShift(a: real, b: real)
    requires Integral(a) && Integral(b)
    ensures Trunc(a + b) == Trunc(a) + Trunc(b)
  {
    var n, m := a.Floor, b.Floor;
    assert a + b == (n + m) as real;
    LineRaster.TruncInt(n);
    LineRaster.TruncInt(m);
    LineRaster.TruncInt(n + m);
  }

  /** Translating integral control points by an integral offset keeps the
      radii that `Draw` and `Contains` read back. */
  lemma TranslateKeepsRadii(cps: seq<Point>, dx: real, dy: real)
    requires |cps| >= 3 && IntegralPoint(cps[0]) && IntegralPoint(cps[1]) && IntegralPoint(cps[2])
    requires Integral(dx) && Integral(dy)
    ensures var moved := MapAll(Translation(dx, dy), cps);
      RadiusX(moved) == RadiusX(cps) && RadiusY(moved) == RadiusY(cps)
  {
    TranslationMoves(dx, dy, cps[0]);
    TranslationMoves(dx, dy, cps[1]);
    TranslationMoves(dx, dy, cps[2]);
    IntegralShift(cps[0].x, dx);
    IntegralShift(cps[1].x, dx);
    IntegralShift(cps[0].y, dy);
    IntegralShift(cps[2].y, dy);
  }

  /** A truncated coordinate near zero: translating (0.5, 0) and (5.5, 0)
      by -1 turns a read-back radius of 5 into 4, because the cast
      truncates toward zero on both sides of the axis. */
  lemma FractionalTranslateRadius()
    ensures var cps := [Point(0.5, 0.0), Point(5.5, 0.0)];
      RadiusX(cps) == 5 && RadiusX(MapAll(Translation(-1.0, 0.0), cps)) == 4
  {
    var cps := [Point(0.5, 0.0), Point(5.5, 0.0)];
    var moved := MapAll(Translation(-1.0, 0.0), cps);
    assert Trunc(0.5) == 0 && Trunc(5.5) == 5;
    assert moved[0] == Point(-0.5, 0.0) && moved[1] == Point(4.5, 0.0);
    assert Trunc(-0.5) == 0 && Trunc(4.5) == 4;
  }

  /** The line from (0,0) to (5,3) dragged from (0,0) to (3,4). */
  lemma TranslateExample(num: Numerics)
    ensures MapAll(TransformMatrix(Translate, Line, [Point(0.0, 0.0), Point(5.0, 3.0)], Point(0.0, 0.0), Point(3.0, 4.0), num),
                   [Point(0.0, 0.0), Point(5.0, 3.0)])
      == [Point(3.0, 4.0), Point(8.0, 7.0)]
  {
  }

  /** Scaling with the same old and new anchor has factor one and leaves
      the control points as they are. */
  lemma ScaleIdentity(k: Kind, cps: seq<Point>, p: Point, num: Numerics)
    requires Ready(Scale, k, cps, p, p, num)
    ensures MapAll(TransformMatrix(Scale, k, cps, p, p, num), cps) == cps
  {
    var c := CenterOf(k, cps);
    assert ScaleFactor(c, p, p, num) == 1.0;
    forall i | 0 <= i < |cps|
      ensures Apply(ScalingAt(1.0, c), cps[i]) == cps[i]
    {
    }
  }

  /** Scaling an offset u by s scales its coordinate difference to the
      centre by s. */
  lemma ScaledOffset(s: real, c: real, u: real)
    ensures c - (c + s * (u - c)) == s * (c - u)
  {
  }

  /** Squares of scaled coordinates sum to s² times the squares. */
  lemma ScaledSquares(s: real, u: real, v: real)
    ensures (s * u) * (s * u) + (s * v) * (s * v) == s * s * (u * u + v * v)
  {
  }

  /** A point moved to c + s (p - c) lies s² times as far (squared) from c. */
  lemma ScaledSqDist(s: real, c: Point, p: Point, q: Point)
    requires q.x == c.x + s * (p.x - c.x) && q.y == c.y + s * (p.y - c.y)
    ensures SqDist(c, q) == s * s * SqDist(c, p)
  {
    ScaledOffset(s, c.x, p.x);
    ScaledOffset(s, c.y, p.y);
    ScaledSquares(s, c.x - p.x, c.y - p.y);
  }

  /** Scaling about c by s multiplies every squared distance from c by s². */
  lemma ScaleDistance(s: real, c: Point, p: Point)
    ensures SqDist(c, Apply(ScalingAt(s, c), p)) == s * s * SqDist(c, p)
  {
    ScalingAbout(s, c, p);
    ScaledSqDist(s, c, p, Apply(ScalingAt(s, c), p));
  }

  /** The square root passed in is the non-negative square root. */
  ghost predicate RootOk(num: Numerics)
  {
    forall x: real :: x >= 0.0 ==> num.sqrt(x) >= 0.0 && num.sqrt(x) * num.sqrt(x) == x
  }

  /** Two non-negative reals with equal squares are equal. */
  lemma RootUnique(a: real, b: real)
    requires a >= 0.0 && b >= 0.0 && a * a == b * b
    ensures a == b
  {
    assert (a - b) * (a + b) == a * a - b * b;
    if a + b == 0.0 {
    } else {
      assert a - b == 0.0;
    }
  }

  /** A quotient of a non-negative by a positive real is non-negative. */
  lemma QuotientNonNeg(a: real, b: real)
    requires a >= 0.0 && b > 0.0
    ensures a / b >= 0.0
  {
  }

  /** With a true square root, the root of x = s²d is s times the root of d. */
  lemma RootOfScaled(num: Numerics, s: real, d: real, x: real)
    requires RootOk(num) && s >= 0.0 && d >= 0.0 && x == s * s * d
    ensures num.sqrt(x) == s * num.sqrt(d)
  {
    var e := num.sqrt(d);
    assert e >= 0.0 && e * e == d;
    var a := num.sqrt(x);
    assert a >= 0.0 && a * a == x;
    assert s * e >= 0.0;
    assert (s * e) * (s * e) == s * s * (e * e);
    RootUnique(a, s * e);
  }

  /** With a true square root, scaling about c by s >= 0 multiplies the
      distance of every point from c by s. */
  lemma ScaledEuclid(s: real, c: Point, p: Point, num: Numerics)
    requires RootOk(num) && s >= 0.0
    ensures Euclid(c, Apply(ScalingAt(s, c), p), num) == s * Euclid(c, p, num)
  {
    var q := Apply(ScalingAt(s, c), p);
    ScaleDistance(s, c, p);
    RootOfScaled(num, s, SqDist(c, p), SqDist(c, q));
  }

  /** With a true square root, Scale's factor is never negative. */
  lemma ScaleFactorNonNeg(c: Point, pOld: Point, pNew: Point, num: Numerics)
    requires Computable(Scale, c, pOld, pNew, num) && RootOk(num)
    ensures ScaleFactor(c, pOld, pNew, num) >= 0.0
  {
    var e0, e1 := Euclid(c, pOld, num), Euclid(c, pNew, num);
    assert e0 >= 0.0 && e1 >= 0.0;
    QuotientNonNeg(e1, e0);
  }

  /** Scale's promise: with a true square root, every point ends at
      `ScaleFactor` times its old distance from the centre. */
  lemma ScaleMultipliesDistance(k: Kind, cps: seq<Point>, pOld: Point, pNew: Point, num: Numerics, p: Point)
    requires Ready(Scale, k, cps, pOld, pNew, num) && RootOk(num)
    ensures var c := CenterOf(k, cps);
      Euclid(c, Apply(TransformMatrix(Scale, k, cps, pOld, pNew, num), p), num)
        == ScaleFactor(c, pOld, pNew, num) * Euclid(c, p, num)
  {
    var c := CenterOf(k, cps);
    ScaleFactorNonNeg(c, pOld, pNew, num);
    ScaledEuclid(ScaleFactor(c, pOld, pNew, num), c, p, num);
  }

  /** A product with a nonzero factor is zero only when the other is. */
  lemma ZeroProduct(x: real, y: real)
    requires x * y == 0.0 && y != 0.0
    ensures x == 0.0
  {
  }

  /** Cancelling the nonzero factor 2a² from a zero product. */
  lemma CancelDoubleSquare(x: real, a: real)
    requires a != 0.0 && x * (2.0 * a * a) == 0.0
    ensures x == 0.0
  {
    assert x * (2.0 * a * a) == ((2.0 * x) * a) * a;
    ZeroProduct((2.0 * x) * a, a);
    ZeroProduct(2.0 * x, a);
  }

  /** Two equal sides and a zero third side make an angle of cosine 1. */
  lemma CosineOfEqualSides(a: real)
    requires a != 0.0
    ensures CosineRule(a, a, 0.0) == 1.0
  {
    assert 2.0 * a * a != 0.0;
    var q := (a * a + a * a - 0.0 * 0.0) / (2.0 * a * a);
    assert (q - 1.0) * (2.0 * a * a) == 0.0;
    CancelDoubleSquare(q - 1.0, a);
  }

  /** Rotating with the same old and new anchor turns by angle 0 and leaves
      the control points as they are, given sqrt(0) = 0, acos(1) = 0,
      sin(0) = 0 and cos(0) = 1. */
  lemma RotateIdentity(k: Kind, cps: seq<Point>, p: Point, num: Numerics)
    requires Ready(Rotate, k, cps, p, p, num)
    requires num.sqrt(0.0) == 0.0 && num.acos(1.0) == 0.0 && num.sin(0.0) == 0.0 && num.cos(0.0) == 1.0
    ensures MapAll(TransformMatrix(Rotate, k, cps, p, p, num), cps) == cps
  {
    var c := CenterOf(k, cps);
    var a := Euclid(c, p, num);
    assert SqDist(p, p) == 0.0;
    assert Euclid(p, p, num) == 0.0;
    CosineOfEqualSides(a);
    assert RotationAngle(c, p, p, num) == 0.0;
    var m := RotationAt(0.0, c, num);
    assert m == Matrix(1.0, 0.0, 0.0, 1.0, 0.0, 0.0);
    forall i | 0 <= i < |cps|
      ensures Apply(m, cps[i]) == cps[i]
    {
    }
  }

  /** Rotation and scaling about a point leave that point where it is. */
  lemma CenterFixed(degrees: real, s: real, c: Point, num: Numerics)
    ensures Apply(RotationAt(degrees, c, num), c) == c
    ensures Apply(ScalingAt(s, c), c) == c
  {
  }

  /** Scaling about c by s moves p to c + s (p - c). */
  lemma ScalingAbout(s: real, c: Point, p: Point)
    ensures Apply(ScalingAt(s, c), p) == Point(c.x + s * (p.x - c.x), c.y + s * (p.y - c.y))
  {
    assert p.x * s + p.y * 0.0 + (c.x - s * c.x) == c.x + s * (p.x - c.x);
    assert p.x * 0.0 + p.y * s + (c.y - s * c.y) == c.y + s * (p.y - c.y);
  }

  /** The point p turned about c by the angle whose cosine and sine are given. */
  function Turn(c: Point, p: Point, cos: real, sin: real): Point
  {
    Point(c.x + (p.x - c.x) * cos - (p.y - c.y) * sin, c.y + (p.x - c.x) * sin + (p.y - c.y) * cos)
  }

  /** Rotation about c turns the offset p - c by the angle. */
  lemma RotationAbout(degrees: real, c: Point, p: Point, num: Numerics)
    ensures var rad := degrees * (PI / 180.0);
      Apply(RotationAt(degrees, c, num), p) == Turn(c, p, num.cos(rad), num.sin(rad))
  {
    var rad := degrees * (PI / 180.0);
    var sin, cos := num.sin(rad), num.cos(rad);
    var q := Apply(RotationAt(degrees, c, num), p);
    assert q.x == p.x * cos + p.y * -sin + (c.x * (1.0 - cos) + c.y * sin);
    assert q.y == p.x * sin + p.y * cos + (c.y * (1.0 - cos) - c.x * sin);
    RotatedOffset(p.x, p.y, c.x, c.y, cos, sin);
  }

  /** The rotation matrix's row form regrouped around the centre (cx, cy). */
  lemma RotatedOffset(px: real, py: real, cx: real, cy: real, cos: real, sin: real)
    ensures px * cos + py * -sin + (cx * (1.0 - cos) + cy * sin) == cx + (px - cx) * cos - (py - cy) * sin
    ensures px * sin + py * cos + (cy * (1.0 - cos) - cx * sin) == cy + (px - cx) * sin + (py - cy) * cos
  {
    assert cx * (1.0 - cos) == cx - cx * cos;
    assert cy * (1.0 - cos) == cy - cy * cos;
    assert (px - cx) * cos == px * cos - cx * cos;
    assert (py - cy) * sin == py * sin - cy * sin;
    assert (px - cx) * sin == px * sin - cx * sin;
    assert (py - cy) * cos == py * cos - cy * cos;
    assert py * -sin == -(py * sin);
  }

  /** A turn by a sine and cosine on the unit circle keeps the squared length. */
  lemma TurnKeepsLength(u: real, v: real, cos: real, sin: real)
    requires sin * sin + cos * cos == 1.0
    ensures (u * cos - v * sin) * (u * cos - v * sin) + (u * sin + v * cos) * (u * sin + v * cos) == u * u + v * v
  {
    calc {
      (u * cos - v * sin) * (u * cos - v * sin) + (u * sin + v * cos) * (u * sin + v * cos);
      u * u * (cos * cos + sin * sin) + v * v * (sin * sin + cos * cos);
      u * u + v * v;
    }
  }

  /** The squared distance from c to a point at offset (u, v) from it. */
  lemma OffsetSqDist(c: Point, q: Point, u: real, v: real)
    requires q.x - c.x == u && q.y - c.y == v
    ensures SqDist(c, q) == u * u + v * v
  {
    assert c.x - q.x == -u && c.y - q.y == -v;
    assert (-u) * (-u) == u * u && (-v) * (-v) == v * v;
  }

  /** A turn on the unit circle keeps the distance from its centre. */
  lemma TurnKeepsDistance(c: Point, p: Point, cos: real, sin: real)
    requires sin * sin + cos * cos == 1.0
    ensures SqDist(c, Turn(c, p, cos, sin)) == SqDist(c, p)
  {
    var u, v := p.x - c.x, p.y - c.y;
    OffsetSqDist(c, Turn(c, p, cos, sin), u * cos - v * sin, u * sin + v * cos);
    OffsetSqDist(c, p, u, v);
    TurnKeepsLength(u, v, cos, sin);
  }

  /** When sine and cosine lie on the unit circle, rotation about c keeps
      every point's distance from c. */
  lemma RotationKeepsDistance(degrees: real, c: Point, p: Point, num: Numerics)
    requires var rad := degrees * (PI / 180.0);
      num.sin(rad) * num.sin(rad) + num.cos(rad) * num.cos(rad) == 1.0
    ensures SqDist(c, Apply(RotationAt(degrees, c, num), p)) == SqDist(c, p)
  {
    var rad := degrees * (PI / 180.0);
    RotationAbout(degrees, c, p, num);
    TurnKeepsDistance(c, p, num.cos(rad), num.sin(rad));
  }

  /** The image of a sum t of n points: the linear part applied to t, the
      offset counted n times. */
  function Weighted(m: Matrix, t: Point, n: real): Point
  {
    Point(t.x * m.m11 + t.y * m.m21 + n * m.dx, t.x * m.m12 + t.y * m.m22 + n * m.dy)
  }

  /** The sum of mapped points is the mapped sum, with the offset counted
      once per point. */
  lemma {:induction false} SumMapped(m: Matrix, s: seq<Point>)
    ensures Sum(MapAll(m, s)) == Weighted(m, Sum(s), |s| as real)
  {
    if s != [] {
      var init, p := s[..|s| - 1], s[|s| - 1];
      SumMapped(m, init);
      assert MapAll(m, s)[..|s| - 1] == MapAll(m, init);
      WeightedStep(m, Sum(init), p, |init| as real);
    }
  }

  /** Adding one mapped point to the image of a sum of n points. */
  lemma WeightedStep(m: Matrix, t: Point, p: Point, n: real)
    ensures var w, q := Weighted(m, t, n), Apply(m, p);
      Point(w.x + q.x, w.y + q.y) == Weighted(m, Point(t.x + p.x, t.y + p.y), n + 1.0)
  {
    var w, q := Weighted(m, t, n), Apply(m, p);
    var v := Weighted(m, Point(t.x + p.x, t.y + p.y), n + 1.0);
    assert v.x == w.x + q.x by {
      assert (t.x + p.x) * m.m11 == t.x * m.m11 + p.x * m.m11;
      assert (t.y + p.y) * m.m21 == t.y * m.m21 + p.y * m.m21;
      assert (n + 1.0) * m.dx == n * m.dx + m.dx;
    }
    assert v.y == w.y + q.y by {
      assert (t.x + p.x) * m.m12 == t.x * m.m12 + p.x * m.m12;
      assert (t.y + p.y) * m.m22 == t.y * m.m22 + p.y * m.m22;
      assert (n + 1.0) * m.dy == n * m.dy + m.dy;
    }
  }

  /** Dividing a linear combination with an offset counted n times by n. */
  lemma DivSpread(x: real, y: real, n: real, a: real, b: real, d: real)
    requires n > 0.0
    ensures (x * a + y * b + n * d) / n == (x / n) * a + (y / n) * b + d
  {
    var u, v := x / n, y / n;
    assert x == u * n && y == v * n;
    calc {
      x * a + y * b + n * d;
      (u * n) * a + (v * n) * b + n * d;
      { assert (u * n) * a == (u * a) * n && (v * n) * b == (v * b) * n; }
      (u * a + v * b + d) * n;
    }
  }

  /** Dividing a mapped sum by the number of points maps the divided sum. */
  lemma MappedQuotient(m: Matrix, t: Point, u: Point, n: real)
    requires n > 0.0
    requires u == Weighted(m, t, n)
    ensures Point(u.x / n, u.y / n) == Apply(m, Point(t.x / n, t.y / n))
  {
    DivSpread(t.x, t.y, n, m.m11, m.m21, m.dx);
    DivSpread(t.x, t.y, n, m.m12, m.m22, m.dy);
  }

  /** A matrix commutes with taking the mean. */
  lemma MeanMapped(m: Matrix, s: seq<Point>)
    requires |s| >= 1
    ensures Mean(MapAll(m, s)) == Apply(m, Mean(s))
  {
    SumMapped(m, s);
    MappedQuotient(m, Sum(s), Sum(MapAll(m, s)), |s| as real);
  }

  /** The centre of the mapped control points is the mapped centre. */
  lemma CenterMapped(m: Matrix, k: Kind, cps: seq<Point>)
    requires |cps| >= 1
    ensures CenterOf(k, MapAll(m, cps)) == Apply(m, CenterOf(k, cps))
  {
    if k != Circle && k != Ellipse {
      MeanMapped(m, cps);
    }
  }

  /** Rotate and Scale keep the shape's centre; Translate moves it by the
      drag. */
  lemma TransformCenter(op: Op, k: Kind, cps: seq<Point>, pOld: Point, pNew: Point, num: Numerics)
    requires |cps| >= 1 && Ready(op, k, cps, pOld, pNew, num)
    ensures var c := CenterOf(k, cps);
      CenterOf(k, MapAll(TransformMatrix(op, k, cps, pOld, pNew, num), cps))
        == if op == Translate then Point(c.x + (pNew.x - pOld.x), c.y + (pNew.y - pOld.y)) else c
  {
    var c := CenterOf(k, cps);
    CenterMapped(TransformMatrix(op, k, cps, pOld, pNew, num), k, cps);
    match op
    case Translate =>
      TranslationMoves(pNew.x - pOld.x, pNew.y - pOld.y, c);
    case Rotate =>
      CenterFixed(RotationAngle(c, pOld, pNew, num), 1.0, c, num);
    case Scale =>
      CenterFixed(0.0, ScaleFactor(c, pOld, pNew, num), c, num);
  }
}
