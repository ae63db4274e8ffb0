/** Geometry primitives of the paint program: points, the `(int)` cast,
    squared distances and the orientation / segment predicates that the
    ray-casting hit test is built from (Shape.cs, lines 47-169). */
module Geometry {

  /** A `System.Windows.Point`: two double coordinates, modelled as reals. */
  datatype Point = Point(x: real, y: real)

  /** An integer pixel coordinate, as produced by the rasterisers. */
  datatype Pixel = Pixel(x: int, y: int)

  /** `Math.Abs` on integers. */
  function Abs(n: int): (r: nat)
    ensures r == n || r == -n
  {
    if n < 0 then -n else n
  }

  /** `Math.Abs` on doubles. */
  function RAbs(r: real): (a: real)
    ensures a >= 0.0 && (a == r || a == -r)
  {
    if r < 0.0 then -r else r
  }

  /** `Math.Min` on doubles. */
  function RMin(a: real, b: real): (m: real)
    ensures m <= a && m <= b && (m == a || m == b)
  {
    if a <= b then a else b
  }

  /** `Math.Max` on doubles. */
  function RMax(a: real, b: real): (m: real)
    ensures m >= a && m >= b && (m == a || m == b)
  {
    if a >= b then a else b
  }

  /** `Math.Max` on integers. */
  function Max(a: int, b: int): (m: int)
    ensures m >= a && m >= b && (m == a || m == b)
  {
    if a >= b then a else b
  }

  /** C#'s `(int)` cast of a double: truncation toward zero (not Floor). */
  function Trunc(r: real): int
  {
    if r >= 0.0 then r.Floor else -((-r).Floor)
  }

  /** Truncation keeps the sign and moves toward zero by less than one. */
  lemma TruncBounds(r: real)
    ensures r >= 0.0 ==> 0 <= Trunc(r) && Trunc(r) as real <= r < Trunc(r) as real + 1.0
    ensures r < 0.0 ==> Trunc(r) <= 0 && Trunc(r) as real - 1.0 < r <= Trunc(r) as real
  {
  }

  /** A real that holds an integer value, as every rasteriser output does. */
  predicate Integral(r: real)
  {
    r == r.Floor as real
  }

  predicate IntegralPoint(p: Point)
  {
    Integral(p.x) && Integral(p.y)
  }

  function ToPoint(q: Pixel): (p: Point)
    ensures IntegralPoint(p)
  {
    Point(q.x as real, q.y as real)
  }

  /** `new Point((int) p.X, (int) p.Y)`. */
  function TruncPoint(p: Point): Pixel
  {
    Pixel(Trunc(p.x), Trunc(p.y))
  }

  lemma TruncIntegral(r: real)
    requires Integral(r)
    ensures Trunc(r) == r.Floor && Trunc(r) as real == r
  {
  }

  /** Truncating a point with integer coordinates loses nothing. */
  lemma TruncPointIntegral(p: Point)
    requires IntegralPoint(p)
    ensures ToPoint(TruncPoint(p)) == p
  {
    TruncIntegral(p.x);
    TruncIntegral(p.y);
  }

  /** The square of `Euclid(A, B)`; the model compares squares instead of
      taking the square root. */
  function SqDist(a: Point, b: Point): (d: real)
    ensures d >= 0.0
  {
    var dx := a.x - b.x;
    var dy := a.y - b.y;
    SquareNonNeg(dx);
    SquareNonNeg(dy);
    dx * dx + dy * dy
  }

  lemma SquareNonNeg(r: real)
    ensures r * r >= 0.0
  {
    if r < 0.0 {
      assert r * r == (-r) * (-r);
    }
  }

  /** `onSegment(p, q, r)`: q lies in the bounding box of p and r, so
      either end of the segment lies on it. */
  predicate OnSegment(p: Point, q: Point, r: Point)
    ensures q == p || q == r ==> OnSegment(p, q, r)
  {
    q.x <= RMax(p.x, r.x) && q.x >= RMin(p.x, r.x) &&
    q.y <= RMax(p.y, r.y) && q.y >= RMin(p.y, r.y)
  }

  /** The value `val` that `orientation` computes: the cross product of
      q - p and r - q, with the source's sign convention. */
  function Cross(p: Point, q: Point, r: Point): real
  {
    (q.y - p.y) * (r.x - q.x) - (q.x - p.x) * (r.y - q.y)
  }

  /** `orientation(p, q, r)`: 0 collinear, 1 and 2 the two turning senses. */
  function Orientation(p: Point, q: Point, r: Point): (o: int)
    ensures o == 0 || o == 1 || o == 2
    ensures o == 0 <==> Cross(p, q, r) == 0.0
    ensures o == 1 <==> Cross(p, q, r) > 0.0
  {
    var v := Cross(p, q, r);
    if v == 0.0 then 0 else if v > 0.0 then 1 else 2
  }

  /** `doIntersect(p1, q1, p2, q2)`: segments p1q1 and p2q2 meet; two
      segments that share an endpoint always do, through the collinear
      cases. */
  predicate DoIntersect(p1: Point, q1: Point, p2: Point, q2: Point)
    ensures p1 == p2 || p1 == q2 || q1 == p2 || q1 == q2 ==> DoIntersect(p1, q1, p2, q2)
  {
    var o1 := Orientation(p1, q1, p2);
    var o2 := Orientation(p1, q1, q2);
    var o3 := Orientation(p2, q2, p1);
    var o4 := Orientation(p2, q2, q1);
    if o1 != o2 && o3 != o4 then true
    else if o1 == 0 && OnSegment(p1, p2, q1) then true
    else if o2 == 0 && OnSegment(p1, q2, q1) then true
    else if o3 == 0 && OnSegment(p2, p1, q2) then true
    else if o4 == 0 && OnSegment(p2, q1, q2) then true
    else false
  }

  /** Exchanging the first and third arguments negates the cross product. */
  lemma CrossSwap(p: Point, q: Point, r: Point)
    ensures Cross(r, q, p) == -Cross(p, q, r)
  {
    var ux, uy := q.x - p.x, q.y - p.y;
    var vx, vy := r.x - q.x, r.y - q.y;
    calc {
      Cross(r, q, p);
      (-vy) * (-ux) - (-vx) * (-uy);
      -(uy * vx - ux * vy);
      -Cross(p, q, r);
    }
  }

  /** `orientation` keeps 0 and exchanges 1 and 2 when p and r are exchanged. */
  lemma OrientationSwap(p: Point, q: Point, r: Point)
    ensures Orientation(r, q, p) == (if Orientation(p, q, r) == 0 then 0 else 3 - Orientation(p, q, r))
  {
    CrossSwap(p, q, r);
  }

  /** A repeated point makes any triple collinear. */
  lemma OrientationDegenerate(p: Point, q: Point)
    ensures Orientation(p, q, p) == 0 && Orientation(p, q, q) == 0 && Orientation(p, p, q) == 0
  {
  }

  lemma OnSegmentSymmetric(p: Point, q: Point, r: Point)
    ensures OnSegment(p, q, r) == OnSegment(r, q, p)
  {
  }

  /** `doIntersect` does not depend on which segment comes first. */
  lemma DoIntersectSymmetric(p1: Point, q1: Point, p2: Point, q2: Point)
    ensures DoIntersect(p1, q1, p2, q2) == DoIntersect(p2, q2, p1, q1)
  {
  }
}
