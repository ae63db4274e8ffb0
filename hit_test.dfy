/** The ray-casting point-in-polygon test `isInside` (Shape.cs, lines
    122-164) that Triangle, Rectangle, Pentagon, Hexagon and Polygon use as
    their `Contains`. */
module HitTest {
  import opened Geometry
  import opened Wrappers

  /** `INF`: the x coordinate of the far end of the ray cast from the query
      point. */
  const INF: real := 10000.0

  /** The far end `(INF, p.Y)` of the horizontal ray cast from p. */
  function Extreme(p: Point): Point
  {
    Point(INF, p.y)
  }

  /** The vertex that closes edge i: `(i + 1) % n`. */
  function Next(i: nat, n: nat): (j: nat)
    requires i < n
    ensures j < n
    ensures j == 0 <==> i == n - 1
    ensures i < n - 1 ==> j == i + 1
  {
    (i + 1) % n
  }

  /** Edge i of the closed polygon meets the ray from p. */
  predicate Crosses(poly: seq<Point>, p: Point, i: nat)
    requires i < |poly|
  {
    DoIntersect(poly[i], poly[Next(i, |poly|)], p, Extreme(p))
  }

  /** p is collinear with edge i. */
  predicate CollinearWith(poly: seq<Point>, p: Point, i: nat)
    requires i < |poly|
  {
    Orientation(poly[i], p, poly[Next(i, |poly|)]) == 0
  }

  /** How many of the first k edges the ray crosses. */
  function CrossCount(poly: seq<Point>, p: Point, k: nat): (c: nat)
    requires k <= |poly|
    ensures c <= k
  {
    if k == 0 then 0
    else CrossCount(poly, p, k - 1) + (if Crosses(poly, p, k - 1) then 1 else 0)
  }

  /** The first of the first k edges that the ray crosses while p is
      collinear with it, if there is one. */
  function FirstCollinear(poly: seq<Point>, p: Point, k: nat): (r: Option<nat>)
    requires k <= |poly|
    ensures r.Some? ==> r.value < k && Crosses(poly, p, r.value) && CollinearWith(poly, p, r.value)
    ensures r.Some? ==> forall j :: 0 <= j < r.value ==> !(Crosses(poly, p, j) && CollinearWith(poly, p, j))
    ensures r.None? ==> forall j :: 0 <= j < k ==> !(Crosses(poly, p, j) && CollinearWith(poly, p, j))
  {
    if k == 0 then None
    else
      var r := FirstCollinear(poly, p, k - 1);
      if r.Some? then r
      else if Crosses(poly, p, k - 1) && CollinearWith(poly, p, k - 1) then Some(k - 1)
      else None
  }

  /** What `isInside` answers: false below three vertices; on the first
      crossed edge that p is collinear with, whether p lies on that edge;
      otherwise whether the ray crosses an odd number of edges. */
  predicate Inside(poly: seq<Point>, p: Point)
  {
    |poly| >= 3 &&
    match FirstCollinear(poly, p, |poly|)
    case Some(i) => OnSegment(poly[i], p, poly[Next(i, |poly|)])
    case None => CrossCount(poly, p, |poly|) % 2 == 1
  }

  /** `isInside(polygon, p)`: a do-while loop over the edges
      (i, (i + 1) mod n) that counts crossings and returns early on a
      collinear one. */
  method IsInside(polygon: seq<Point>, p: Point) returns (b: bool)
    ensures |polygon| < 3 ==> !b
    ensures b == Inside(polygon, p)
  {
    var n := |polygon|;
    if n < 3 {
      return false;
    }
    var extreme := Point(INF, p.y);
    var count, i := 0, 0;
    while true
      invariant 0 <= i < n
      invariant count == CrossCount(polygon, p, i)
      invariant FirstCollinear(polygon, p, i).None?
      decreases n - i
    {
      ghost var old_i := i;
      var next := (i + 1) % n;
      assert next == Next(i, n);
      var crosses := DoIntersect(polygon[i], polygon[next], p, extreme);
      assert crosses == Crosses(polygon, p, i);
      if crosses {
        var o := Orientation(polygon[i], p, polygon[next]);
        assert o == 0 <==> CollinearWith(polygon, p, i);
        if o == 0 {
          assert FirstCollinear(polygon, p, i + 1) == Some(i);
          return OnSegment(polygon[i], p, polygon[next]);
        }
        count := count + 1;
      }
      assert count == CrossCount(polygon, p, i + 1);
      assert FirstCollinear(polygon, p, i + 1).None?;
      i := next;
      if i == 0 {
        break;
      }
      assert i == old_i + 1;
    }
    b := count % 2 == 1;
  }

  /** Any polygon with at least three vertices contains its first vertex:
      edge 0 touches the ray at p itself, p is collinear with it and lies on
      it. */
  lemma FirstVertexInside(poly: seq<Point>)
    requires |poly| >= 3
    ensures Inside(poly, poly[0])
  {
    var p := poly[0];
    assert DoIntersect(poly[0], poly[1], p, Extreme(p));
    OrientationDegenerate(p, poly[1]);
    assert OnSegment(p, p, poly[1]);
    assert Crosses(poly, p, 0) && CollinearWith(poly, p, 0);
    var r := FirstCollinear(poly, p, |poly|);
    assert r.Some? && r.value == 0;
  }

  /** The rectangle with corners (0,0),(4,0),(4,2),(0,2), in the order the
      Rectangle constructor stores them. */
  function SampleRectangle(): (poly: seq<Point>)
    ensures |poly| == 4
  {
    [Point(0.0, 0.0), Point(4.0, 0.0), Point(4.0, 2.0), Point(0.0, 2.0)]
  }

  /** For a four-vertex polygon with p collinear with no edge, `Inside` is
      the parity of the edges the ray crosses. */
  lemma InsideOfQuad(poly: seq<Point>, p: Point)
    requires |poly| == 4
    requires forall i :: 0 <= i < 4 ==> !CollinearWith(poly, p, i)
    ensures Inside(poly, p) <==>
      ((if Crosses(poly, p, 0) then 1 else 0) + (if Crosses(poly, p, 1) then 1 else 0) +
       (if Crosses(poly, p, 2) then 1 else 0) + (if Crosses(poly, p, 3) then 1 else 0)) % 2 == 1
  {
    assert !CollinearWith(poly, p, 0) && !CollinearWith(poly, p, 1);
    assert !CollinearWith(poly, p, 2) && !CollinearWith(poly, p, 3);
    assert FirstCollinear(poly, p, 1).None?;
    assert FirstCollinear(poly, p, 2).None?;
    assert FirstCollinear(poly, p, 3).None?;
    assert FirstCollinear(poly, p, 4).None?;
    assert CrossCount(poly, p, 4) == CrossCount(poly, p, 3) + (if Crosses(poly, p, 3) then 1 else 0);
    assert CrossCount(poly, p, 3) == CrossCount(poly, p, 2) + (if Crosses(poly, p, 2) then 1 else 0);
    assert CrossCount(poly, p, 2) == CrossCount(poly, p, 1) + (if Crosses(poly, p, 1) then 1 else 0);
    assert CrossCount(poly, p, 1) == (if Crosses(poly, p, 0) then 1 else 0);
  }

  /** An edge whose ends lie strictly on opposite sides of the ray, and the
      ray's ends strictly on opposite sides of the edge, is crossed. */
  lemma ProperCrossing(poly: seq<Point>, p: Point, i: nat)
    requires i < |poly|
    requires Orientation(poly[i], p, poly[Next(i, |poly|)]) != 0
    requires Orientation(poly[i], poly[Next(i, |poly|)], p) != Orientation(poly[i], poly[Next(i, |poly|)], Extreme(p))
    requires Orientation(p, Extreme(p), poly[i]) != Orientation(p, Extreme(p), poly[Next(i, |poly|)])
    ensures Crosses(poly, p, i) && !CollinearWith(poly, p, i)
  {
  }

  /** An edge with no collinear triple among its ends and the ray's ends,
      and with both ends on one side of the ray (or the ray's ends on one
      side of it), is not crossed. */
  lemma NoCrossing(poly: seq<Point>, p: Point, i: nat)
    requires i < |poly|
    requires Orientation(poly[i], p, poly[Next(i, |poly|)]) != 0
    requires Orientation(poly[i], poly[Next(i, |poly|)], p) != 0
    requires Orientation(poly[i], poly[Next(i, |poly|)], Extreme(p)) != 0
    requires Orientation(p, Extreme(p), poly[i]) != 0
    requires Orientation(p, Extreme(p), poly[Next(i, |poly|)]) != 0
    requires Orientation(poly[i], poly[Next(i, |poly|)], p) == Orientation(poly[i], poly[Next(i, |poly|)], Extreme(p))
      || Orientation(p, Extreme(p), poly[i]) == Orientation(p, Extreme(p), poly[Next(i, |poly|)])
    ensures !Crosses(poly, p, i) && !CollinearWith(poly, p, i)
  {
  }

  /** The ray from (2,1) crosses only edge 1 of the sample rectangle, its
      right side, and is collinear with none of its edges. */
  lemma InteriorEdges(i: nat)
    requires i < 4
    ensures Crosses(SampleRectangle(), Point(2.0, 1.0), i) == (i == 1)
    ensures !CollinearWith(SampleRectangle(), Point(2.0, 1.0), i)
  {
    var poly, p := SampleRectangle(), Point(2.0, 1.0);
    if i == 0 {
      assert Next(0, 4) == 1;
      assert Orientation(poly[0], p, poly[1]) == 1;
      assert Orientation(poly[0], poly[1], p) == 2;
      assert Orientation(poly[0], poly[1], Extreme(p)) == 2;
      assert Orientation(p, Extreme(p), poly[0]) == 1;
      assert Orientation(p, Extreme(p), poly[1]) == 1;
      NoCrossing(poly, p, 0);
    } else if i == 1 {
      assert Next(1, 4) == 2;
      assert Orientation(poly[1], p, poly[2]) == 1;
      assert Orientation(poly[1], poly[2], p) == 2;
      assert Orientation(poly[1], poly[2], Extreme(p)) == 1;
      assert Orientation(p, Extreme(p), poly[1]) == 1;
      assert Orientation(p, Extreme(p), poly[2]) == 2;
      ProperCrossing(poly, p, 1);
    } else if i == 2 {
      assert Next(2, 4) == 3;
      assert Orientation(poly[2], p, poly[3]) == 1;
      assert Orientation(poly[2], poly[3], p) == 2;
      assert Orientation(poly[2], poly[3], Extreme(p)) == 2;
      assert Orientation(p, Extreme(p), poly[2]) == 2;
      assert Orientation(p, Extreme(p), poly[3]) == 2;
      NoCrossing(poly, p, 2);
    } else {
      assert Next(3, 4) == 0;
      assert Orientation(poly[3], p, poly[0]) == 1;
      assert Orientation(poly[3], poly[0], p) == 2;
      assert Orientation(poly[3], poly[0], Extreme(p)) == 2;
      assert Orientation(p, Extreme(p), poly[3]) == 2;
      assert Orientation(p, Extreme(p), poly[0]) == 1;
      NoCrossing(poly, p, 3);
    }
  }

  /** The sample rectangle contains its centre (2,1). */
  lemma RectangleContainsCentre()
    ensures Inside(SampleRectangle(), Point(2.0, 1.0))
  {
    var poly, p := SampleRectangle(), Point(2.0, 1.0);
    InteriorEdges(0);
    InteriorEdges(1);
    InteriorEdges(2);
    InteriorEdges(3);
    InsideOfQuad(poly, p);
  }

  /** The ray from (5,5) passes above the sample rectangle and meets none
      of its edges, with no collinear triple along the way. */
  lemma ExteriorEdges(i: nat)
    requires i < 4
    ensures !Crosses(SampleRectangle(), Point(5.0, 5.0), i)
    ensures !CollinearWith(SampleRectangle(), Point(5.0, 5.0), i)
  {
    var poly, q := SampleRectangle(), Point(5.0, 5.0);
    if i == 0 {
      assert Next(0, 4) == 1;
      assert Orientation(poly[0], q, poly[1]) == 1;
      assert Orientation(poly[0], poly[1], q) == 2;
      assert Orientation(poly[0], poly[1], Extreme(q)) == 2;
      assert Orientation(q, Extreme(q), poly[0]) == 1;
      assert Orientation(q, Extreme(q), poly[1]) == 1;
      NoCrossing(poly, q, 0);
    } else if i == 1 {
      assert Next(1, 4) == 2;
      assert Orientation(poly[1], q, poly[2]) == 2;
      assert Orientation(poly[1], poly[2], q) == 1;
      assert Orientation(poly[1], poly[2], Extreme(q)) == 1;
      assert Orientation(q, Extreme(q), poly[1]) == 1;
      assert Orientation(q, Extreme(q), poly[2]) == 1;
      NoCrossing(poly, q, 1);
    } else if i == 2 {
      assert Next(2, 4) == 3;
      assert Orientation(poly[2], q, poly[3]) == 2;
      assert Orientation(poly[2], poly[3], q) == 1;
      assert Orientation(poly[2], poly[3], Extreme(q)) == 1;
      assert Orientation(q, Extreme(q), poly[2]) == 1;
      assert Orientation(q, Extreme(q), poly[3]) == 1;
      NoCrossing(poly, q, 2);
    } else {
      assert Next(3, 4) == 0;
      assert Orientation(poly[3], q, poly[0]) == 1;
      assert Orientation(poly[3], poly[0], q) == 2;
      assert Orientation(poly[3], poly[0], Extreme(q)) == 2;
      assert Orientation(q, Extreme(q), poly[3]) == 1;
      assert Orientation(q, Extreme(q), poly[0]) == 1;
      NoCrossing(poly, q, 3);
    }
  }

  /** The sample rectangle does not contain (5,5). */
  lemma RectangleExcludesOutside()
    ensures !Inside(SampleRectangle(), Point(5.0, 5.0))
  {
    var poly, q := SampleRectangle(), Point(5.0, 5.0);
    ExteriorEdges(0);
    ExteriorEdges(1);
    ExteriorEdges(2);
    ExteriorEdges(3);
    InsideOfQuad(poly, q);
  }
}
