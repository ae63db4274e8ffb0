/** The midpoint circle generator of `Circle.Draw` and the two-region
    midpoint ellipse generator of `Ellipse.Draw` (Shape.cs, lines 555-641
    and 695-789). Both return the point list that the source sends to
    `gl.Vertex`. The generators walk one arc in the first octant
    (circle) or quadrant (ellipse), and every arc point is emitted
    together with its reflections about the centre. */
module CurveRaster {
  import opened Geometry

  /** The eight reflections (±x, ±y), (±y, ±x) of an arc point about the
      centre (cx, cy), in the order `Circle.Draw` appends them. */
  function Octants(cx: int, cy: int, x: int, y: int): (g: seq<Pixel>)
    ensures |g| == 8
  {
    [Pixel(x + cx, y + cy), Pixel(y + cx, x + cy), Pixel(y + cx, -x + cy), Pixel(x + cx, -y + cy),
     Pixel(-x + cx, -y + cy), Pixel(-y + cx, -x + cy), Pixel(-y + cx, x + cy), Pixel(-x + cx, y + cy)]
  }

  /** The four reflections (±x, ±y) of an arc point, in the order
      `Ellipse.Draw` appends them inside its two loops. */
  function Quadrants(cx: int, cy: int, x: int, y: int): (g: seq<Pixel>)
    ensures |g| == 4
  {
    [Pixel(x + cx, y + cy), Pixel(x + cx, -y + cy), Pixel(-x + cx, -y + cy), Pixel(-x + cx, y + cy)]
  }

  /** Every arc point replaced by its eight reflections. */
  function ExpandOctants(arc: seq<Pixel>, cx: int, cy: int): (pts: seq<Pixel>)
    ensures |pts| == 8 * |arc|
  {
    if |arc| == 0 then [] else Octants(cx, cy, arc[0].x, arc[0].y) + ExpandOctants(arc[1..], cx, cy)
  }

  /** Every arc point replaced by its four reflections. */
  function ExpandQuadrants(arc: seq<Pixel>, cx: int, cy: int): (pts: seq<Pixel>)
    ensures |pts| == 4 * |arc|
  {
    if |arc| == 0 then [] else Quadrants(cx, cy, arc[0].x, arc[0].y) + ExpandQuadrants(arc[1..], cx, cy)
  }

  lemma ExpandOctantsCons(q: Pixel, arc: seq<Pixel>, cx: int, cy: int)
    ensures ExpandOctants([q] + arc, cx, cy) == Octants(cx, cy, q.x, q.y) + ExpandOctants(arc, cx, cy)
  {
    assert ([q] + arc)[1..] == arc;
  }

  lemma ExpandQuadrantsCons(q: Pixel, arc: seq<Pixel>, cx: int, cy: int)
    ensures ExpandQuadrants([q] + arc, cx, cy) == Quadrants(cx, cy, q.x, q.y) + ExpandQuadrants(arc, cx, cy)
  {
    assert ([q] + arc)[1..] == arc;
  }

  lemma {:induction false} ExpandOctantsSnoc(arc: seq<Pixel>, q: Pixel, cx: int, cy: int)
    ensures ExpandOctants(arc + [q], cx, cy) == ExpandOctants(arc, cx, cy) + Octants(cx, cy, q.x, q.y)
  {
    if |arc| == 0 {
      assert arc + [q] == [q];
    } else {
      assert (arc + [q])[1..] == arc[1..] + [q];
      ExpandOctantsSnoc(arc[1..], q, cx, cy);
    }
  }

  lemma {:induction false} ExpandQuadrantsSnoc(arc: seq<Pixel>, q: Pixel, cx: int, cy: int)
    ensures ExpandQuadrants(arc + [q], cx, cy) == ExpandQuadrants(arc, cx, cy) + Quadrants(cx, cy, q.x, q.y)
  {
    if |arc| == 0 {
      assert arc + [q] == [q];
    } else {
      assert (arc + [q])[1..] == arc[1..] + [q];
      ExpandQuadrantsSnoc(arc[1..], q, cx, cy);
    }
  }

  // ---------------------------------------------------------------------
  // Reflections about the centre

  /** Reflection across the vertical line x = cx. */
  function MirrorX(q: Pixel, cx: int): Pixel
  {
    Pixel(2 * cx - q.x, q.y)
  }

  /** Reflection across the horizontal line y = cy. */
  function MirrorY(q: Pixel, cy: int): Pixel
  {
    Pixel(q.x, 2 * cy - q.y)
  }

  /** Reflection across the diagonal through (cx, cy). */
  function Transpose(q: Pixel, cx: int, cy: int): Pixel
  {
    Pixel(cx + q.y - cy, cy + q.x - cx)
  }

  /** A point set that every reflection of the circle generator maps into
      itself. */
  ghost predicate OctantSymmetric(pts: seq<Pixel>, cx: int, cy: int)
  {
    forall q :: q in pts ==>
      MirrorX(q, cx) in pts && MirrorY(q, cy) in pts && Transpose(q, cx, cy) in pts
  }

  /** A point set that both axis reflections map into itself. */
  ghost predicate QuadrantSymmetric(pts: seq<Pixel>, cx: int, cy: int)
  {
    forall q :: q in pts ==> MirrorX(q, cx) in pts && MirrorY(q, cy) in pts
  }

  lemma OctantsMirrorX(cx: int, cy: int, x: int, y: int)
    ensures var g := Octants(cx, cy, x, y);
      forall i :: 0 <= i < 8 ==> MirrorX(g[i], cx) == g[7 - i]
  {
  }

  lemma OctantsMirrorY(cx: int, cy: int, x: int, y: int)
    ensures var g := Octants(cx, cy, x, y);
      && MirrorY(g[0], cy) == g[3] && MirrorY(g[1], cy) == g[2] && MirrorY(g[2], cy) == g[1]
      && MirrorY(g[3], cy) == g[0] && MirrorY(g[4], cy) == g[7] && MirrorY(g[5], cy) == g[6]
      && MirrorY(g[6], cy) == g[5] && MirrorY(g[7], cy) == g[4]
  {
  }

  lemma OctantsTranspose(cx: int, cy: int, x: int, y: int)
    ensures var g := Octants(cx, cy, x, y);
      && Transpose(g[0], cx, cy) == g[1] && Transpose(g[1], cx, cy) == g[0]
      && Transpose(g[2], cx, cy) == g[7] && Transpose(g[7], cx, cy) == g[2]
      && Transpose(g[3], cx, cy) == g[6] && Transpose(g[6], cx, cy) == g[3]
      && Transpose(g[4], cx, cy) == g[5] && Transpose(g[5], cx, cy) == g[4]
  {
  }

  lemma OctantsSymmetric(cx: int, cy: int, x: int, y: int)
    ensures OctantSymmetric(Octants(cx, cy, x, y), cx, cy)
  {
    var g := Octants(cx, cy, x, y);
    OctantsMirrorX(cx, cy, x, y);
    OctantsMirrorY(cx, cy, x, y);
    OctantsTranspose(cx, cy, x, y);
    forall q | q in g
      ensures MirrorX(q, cx) in g && MirrorY(q, cy) in g && Transpose(q, cx, cy) in g
    {
      var i :| 0 <= i < 8 && g[i] == q;
      assert MirrorX(q, cx) == g[7 - i];
    }
  }

  lemma QuadrantsSymmetric(cx: int, cy: int, x: int, y: int)
    ensures QuadrantSymmetric(Quadrants(cx, cy, x, y), cx, cy)
  {
  }

  /** Expanding every arc point by its eight reflections gives a point set
      closed under all three reflections. */
  lemma {:induction false} ExpandOctantsSymmetric(arc: seq<Pixel>, cx: int, cy: int)
    ensures OctantSymmetric(ExpandOctants(arc, cx, cy), cx, cy)
  {
    if |arc| > 0 {
      OctantsSymmetric(cx, cy, arc[0].x, arc[0].y);
      ExpandOctantsSymmetric(arc[1..], cx, cy);
    }
  }

  /** Expanding every arc point by its four reflections gives a point set
      closed under both axis reflections. */
  lemma {:induction false} ExpandQuadrantsSymmetric(arc: seq<Pixel>, cx: int, cy: int)
    ensures QuadrantSymmetric(ExpandQuadrants(arc, cx, cy), cx, cy)
  {
    if |arc| > 0 {
      QuadrantsSymmetric(cx, cy, arc[0].x, arc[0].y);
      ExpandQuadrantsSymmetric(arc[1..], cx, cy);
    }
  }

  // ---------------------------------------------------------------------
  // Midpoint circle

  /** The loop variables of `Circle.Draw`: xi, yi and the decision
      value p. */
  datatype Cursor = Cursor(x: int, y: int, p: int)

  /** One iteration of the `while (xi < yi)` loop of `Circle.Draw`: x
      advances, y drops when p >= 0, and p is updated to match. */
  function CircleNext(c: Cursor): Cursor
  {
    if c.p < 0 then Cursor(c.x + 1, c.y, c.p + 2 * c.x + 3)
    else Cursor(c.x + 1, c.y - 1, c.p + 2 * c.x - 2 * c.y + 5)
  }

  /** The arc points that the circle loop visits after c, one per
      iteration, until x reaches y. */
  function CircleArc(c: Cursor): seq<Pixel>
    decreases c.y - c.x
  {
    if c.x >= c.y then []
    else
      var c' := CircleNext(c);
      [Pixel(c'.x, c'.y)] + CircleArc(c')
  }

  /** Taking one step of the circle loop moves its first arc point onto
      `done`. */
  lemma CircleAdvance(c: Cursor, done: seq<Pixel>, whole: seq<Pixel>)
    requires c.x < c.y && done + CircleArc(c) == whole
    ensures var c' := CircleNext(c); (done + [Pixel(c'.x, c'.y)]) + CircleArc(c') == whole
  {
  }

  /** The circle loop runs at most max(y - x, 0) times, iteration i
      emitting column x + 1 + i. */
  lemma {:induction false} CircleArcLength(c: Cursor)
    ensures var arc := CircleArc(c);
      && |arc| <= Max(c.y - c.x, 0)
      && forall i :: 0 <= i < |arc| ==> arc[i].x == c.x + 1 + i
    decreases c.y - c.x
  {
    if c.x < c.y {
      var c' := CircleNext(c);
      CircleArcLength(c');
      assert CircleArc(c) == [Pixel(c'.x, c'.y)] + CircleArc(c');
    }
  }

  /** y never grows along the circle loop: the first step lowers it from
      y by 0 or 1, and so does every later step. */
  lemma {:induction false} CircleArcDescends(c: Cursor)
    ensures var arc := CircleArc(c);
      && (|arc| > 0 ==> c.y - 1 <= arc[0].y <= c.y)
      && forall i :: 0 < i < |arc| ==> arc[i - 1].y - 1 <= arc[i].y <= arc[i - 1].y
    decreases c.y - c.x
  {
    if c.x < c.y {
      var c' := CircleNext(c);
      CircleArcDescends(c');
      var arc, rest := CircleArc(c), CircleArc(c');
      assert arc == [Pixel(c'.x, c'.y)] + rest;
      assert forall i :: 0 < i < |arc| ==> arc[i] == rest[i - 1];
    }
  }

  /** Where `Circle.Draw` starts its loop for radius r: (0, r), p = 1 - r. */
  function CircleStart(r: int): Cursor
  {
    Cursor(0, r, 1 - r)
  }

  /** The points `Circle.Draw` emits for radius r about (cx, cy): the seed
      group of (0, r) and then one group of eight per loop iteration. */
  function CirclePoints(cx: int, cy: int, r: int): (pts: seq<Pixel>)
    ensures 8 <= |pts| <= 8 * (Max(r, 0) + 1) && |pts| % 8 == 0
    ensures pts[..8] == Octants(cx, cy, 0, r)
  {
    var arc := CircleArc(CircleStart(r));
    CircleArcLength(CircleStart(r));
    ExpandOctantsCons(Pixel(0, r), arc, cx, cy);
    ExpandOctants([Pixel(0, r)] + arc, cx, cy)
  }

  /** The `while (xi < yi)` loop of `Circle.Draw` from (x0, y0) with
      decision value p0, appending each iteration's eight points. */
  method CircleLoop(cx: int, cy: int, x0: int, y0: int, p0: int, points0: seq<Pixel>)
    returns (points: seq<Pixel>)
    ensures points == points0 + ExpandOctants(CircleArc(Cursor(x0, y0, p0)), cx, cy)
  {
    var xi, yi, p := x0, y0, p0;
    points := points0;
    ghost var whole := CircleArc(Cursor(x0, y0, p0));
    ghost var done := [];
    while xi < yi
      invariant done + CircleArc(Cursor(xi, yi, p)) == whole
      invariant points == points0 + ExpandOctants(done, cx, cy)
      decreases yi - xi
    {
      ghost var c := Cursor(xi, yi, p);
      if p < 0 {
        p := p + 2 * xi + 3;
      } else {
        p := p + 2 * xi - 2 * yi + 5;
        yi := yi - 1;
      }
      xi := xi + 1;
      assert Cursor(xi, yi, p) == CircleNext(c);
      CircleAdvance(c, done, whole);
      ExpandOctantsSnoc(done, Pixel(xi, yi), cx, cy);
      done := done + [Pixel(xi, yi)];
      points := points + Octants(cx, cy, xi, yi);
    }
    assert done == whole;
  }

  /** The generator part of `Circle.Draw`: the seed group of (0, r), then
      the loop. */
  method MidpointCircle(cx: int, cy: int, r: int) returns (points: seq<Pixel>)
    ensures points == CirclePoints(cx, cy, r)
  {
    var xi, yi := 0, r;
    var p := 1 - r;
    points := Octants(cx, cy, xi, yi);
    points := CircleLoop(cx, cy, xi, yi, p, points);
    ExpandOctantsCons(Pixel(0, r), CircleArc(CircleStart(r)), cx, cy);
  }

  /** The circle's points are symmetric under the three reflections. */
  lemma CircleSymmetric(cx: int, cy: int, r: int)
    ensures OctantSymmetric(CirclePoints(cx, cy, r), cx, cy)
  {
    ExpandOctantsSymmetric([Pixel(0, r)] + CircleArc(CircleStart(r)), cx, cy);
  }

  /** The midpoint (x, y - 1/2) is inside or on the circle of radius r:
      x² + (y - 1/2)² <= r², that is 4x² + 4y² - 4y + 1 <= 4r², which for
      integers is x² + y² - y < r². */
  predicate BelowOuter(q: Pixel, r: int)
  {
    q.x * q.x + q.y * q.y - q.y < r * r
  }

  /** The midpoint (x, y + 1/2) is outside or on the circle of radius r:
      x² + (y + 1/2)² >= r², which for integers is x² + y² + y >= r². */
  predicate AboveInner(q: Pixel, r: int)
  {
    r * r <= q.x * q.x + q.y * q.y + q.y
  }

  /** p is the midpoint decision value (x + 1)^2 + (y - 1/2)^2 - r^2 - 1/4
      of the next column. */
  function Decision(x: int, y: int, r: int): int
  {
    (x + 1) * (x + 1) + y * y - y - r * r
  }

  /** One iteration of the circle loop keeps p the decision value and
      picks a pixel within half a pixel of the circle. */
  lemma CircleStepNear(x: int, y: int, p: int, r: int)
    requires 0 <= x < y && p == Decision(x, y, r)
    requires AboveInner(Pixel(x, y), r) && BelowOuter(Pixel(x, y), r)
    ensures var c' := CircleNext(Cursor(x, y, p));
      && c'.p == Decision(c'.x, c'.y, r)
      && AboveInner(Pixel(c'.x, c'.y), r)
      && (c'.x <= c'.y ==> BelowOuter(Pixel(c'.x, c'.y), r))
  {
    assert (x + 1) * (x + 1) == x * x + 2 * x + 1;
    assert (x + 2) * (x + 2) == (x + 1) * (x + 1) + 2 * x + 3;
    assert (y - 1) * (y - 1) == y * y - 2 * y + 1;
  }

  lemma {:induction false} CircleArcNear(c: Cursor, r: int)
    requires 0 <= c.x && c.p == Decision(c.x, c.y, r)
    requires AboveInner(Pixel(c.x, c.y), r)
    requires c.x < c.y ==> BelowOuter(Pixel(c.x, c.y), r)
    ensures forall a :: a in CircleArc(c) ==> AboveInner(a, r) && (a.x <= a.y ==> BelowOuter(a, r))
    decreases c.y - c.x
  {
    if c.x < c.y {
      var c' := CircleNext(c);
      CircleStepNear(c.x, c.y, c.p, r);
      CircleArcNear(c', r);
      assert CircleArc(c) == [Pixel(c'.x, c'.y)] + CircleArc(c');
    }
  }

  /** For r >= 0 every arc point (x, y) of the first octant (x <= y) is
      the pixel the midpoint test picks: (x, y + 1/2) lies outside or on
      the circle and, for r >= 1, (x, y - 1/2) inside or on it. The point
      past the diagonal that ends the loop keeps only the first bound. For
      r = 0 the only point is the seed (0, 0), half a pixel from the
      degenerate circle. */
  lemma CircleNearRadius(r: int)
    requires r >= 0
    ensures forall a :: a in [Pixel(0, r)] + CircleArc(CircleStart(r)) ==>
      AboveInner(a, r) && (a.x <= a.y && r >= 1 ==> BelowOuter(a, r))
  {
    CircleArcNear(CircleStart(r), r);
  }

  /** No arc point lies above the row the loop starts on. */
  lemma {:induction false} CircleArcBelow(c: Cursor)
    ensures forall a :: a in CircleArc(c) ==> a.y <= c.y
    decreases c.y - c.x
  {
    if c.x < c.y {
      var c' := CircleNext(c);
      CircleArcBelow(c');
      assert CircleArc(c) == [Pixel(c'.x, c'.y)] + CircleArc(c');
    }
  }

  /** Every first-octant point (x <= y) of the circle of radius r >= 0 lies
      within r of it in squared distance: r² - r <= x² + y² <= r² + r. */
  lemma CircleWithinRadius(r: int)
    requires r >= 0
    ensures forall a :: a in [Pixel(0, r)] + CircleArc(CircleStart(r)) && a.x <= a.y ==>
      r * r - r <= a.x * a.x + a.y * a.y <= r * r + r
  {
    CircleNearRadius(r);
    CircleArcBelow(CircleStart(r));
    forall a | a in [Pixel(0, r)] + CircleArc(CircleStart(r)) && a.x <= a.y
      ensures r * r - r <= a.x * a.x + a.y * a.y <= r * r + r
    {
      assert a.y <= r;
      if r == 0 {
        assert CircleArc(CircleStart(r)) == [];
        assert a == Pixel(0, 0);
      }
    }
  }

  /** Every point the circle loop visits from c lies within r of the
      circle in squared distance, including the point past the diagonal
      that ends the loop, which mirrors the point before it. */
  lemma {:induction false} ArcWithin(c: Cursor, r: int)
    requires 0 <= c.x && c.y <= r && c.p == Decision(c.x, c.y, r)
    requires AboveInner(Pixel(c.x, c.y), r)
    requires c.x < c.y ==> BelowOuter(Pixel(c.x, c.y), r)
    ensures forall a :: a in CircleArc(c) ==> r * r - r <= a.x * a.x + a.y * a.y <= r * r + r
    decreases c.y - c.x
  {
    if c.x < c.y {
      var c' := CircleNext(c);
      CircleStepNear(c.x, c.y, c.p, r);
      if c'.x > c'.y {
        assert c'.x == c.y && c'.y == c.x;
      }
      ArcWithin(c', r);
      assert CircleArc(c) == [Pixel(c'.x, c'.y)] + CircleArc(c');
    }
  }

  /** The eight reflections of (x, y) about (cx, cy) all lie at squared
      distance x² + y² from the centre. */
  lemma OctantsNorm(cx: int, cy: int, x: int, y: int)
    ensures forall q :: q in Octants(cx, cy, x, y) ==>
      (q.x - cx) * (q.x - cx) + (q.y - cy) * (q.y - cy) == x * x + y * y
  {
    assert (-x) * (-x) == x * x;
    assert (-y) * (-y) == y * y;
  }

  /** Reflecting arc points about (cx, cy) keeps their squared distance
      from the centre: bounds on x² + y² over the arc hold for every
      emitted point relative to (cx, cy). */
  lemma {:induction false} ExpandNorm(arc: seq<Pixel>, cx: int, cy: int, lo: int, hi: int)
    requires forall a :: a in arc ==> lo <= a.x * a.x + a.y * a.y <= hi
    ensures forall q :: q in ExpandOctants(arc, cx, cy) ==>
      lo <= (q.x - cx) * (q.x - cx) + (q.y - cy) * (q.y - cy) <= hi
  {
    if |arc| > 0 {
      assert arc[0] in arc;
      assert forall a :: a in arc[1..] ==> a in arc;
      ExpandNorm(arc[1..], cx, cy, lo, hi);
      OctantsNorm(cx, cy, arc[0].x, arc[0].y);
    }
  }

  /** Every point `Circle.Draw` emits for radius r >= 0 about (cx, cy),
      in all eight octants, lies within r of the circle in squared
      distance: r² - r <= (x - cx)² + (y - cy)² <= r² + r. */
  lemma CirclePointsWithin(cx: int, cy: int, r: int)
    requires r >= 0
    ensures forall q :: q in CirclePoints(cx, cy, r) ==>
      r * r - r <= (q.x - cx) * (q.x - cx) + (q.y - cy) * (q.y - cy) <= r * r + r
  {
    var seeded := [Pixel(0, r)] + CircleArc(CircleStart(r));
    assert CirclePoints(cx, cy, r) == ExpandOctants(seeded, cx, cy);
    ArcWithin(CircleStart(r), r);
    ExpandNorm(seeded, cx, cy, r * r - r, r * r + r);
  }

  // ---------------------------------------------------------------------
  // Midpoint ellipse

  /** `ry2_x_2` is meant to stay 2 ry^2 x; ry2 is ry^2. */
  function ScaledX(ry2: int, x: int): int
  {
    2 * ry2 * x
  }

  /** `rx2_y_2` is meant to stay 2 rx^2 y; rx2 is rx^2. */
  function ScaledY(rx2: int, y: int): int
  {
    2 * rx2 * y
  }

  /** The loop variables of `Ellipse.Draw`: xi, yi, p, and the running
      values a = `ry2_x_2` and b = `rx2_y_2`. */
  datatype State = State(x: int, y: int, p: int, a: int, b: int)

  /** Where region 1 stops: its arc and the loop variables at exit. */
  datatype Run = Run(arc: seq<Pixel>, last: State)

  /** The squares rx^2 and ry^2 that the loop bodies of `Ellipse.Draw`
      recompute as `rx * rx` and `ry * ry` at every step. */
  predicate Squares(rx2: int, ry2: int)
  {
    rx2 >= 0 && ry2 >= 0
  }

  /** One iteration of the first loop of `Ellipse.Draw`. */
  function Region1Step(rx2: int, ry2: int, s: State): State
  {
    var a' := s.a + 2 * ry2;
    if s.p < 0 then State(s.x + 1, s.y, s.p + a' + ry2, a', s.b)
    else
      var b' := s.b - 2 * rx2;
      State(s.x + 1, s.y - 1, s.p + a' - b' + ry2, a', b')
  }

  /** The first loop of `Ellipse.Draw` (`while (rx2_y_2 > ry2_x_2)`) from
      state s: one arc point per iteration. It terminates: a step needs
      b > a, which with ry = 0 never holds (both start at 0), so
      `ry2_x_2` grows by 2 ry^2 >= 2 while `rx2_y_2` does not grow. The
      loop stops with `rx2_y_2 <= ry2_x_2`, x advanced by one per point
      and y not grown. */
  function Region1(rx2: int, ry2: int, s: State): (run: Run)
    requires Squares(rx2, ry2) && (ry2 == 0 ==> s.b <= s.a)
    ensures |run.arc| == run.last.x - s.x && run.last.y <= s.y
    ensures run.last.b <= run.last.a
    decreases s.b - s.a
  {
    if s.b <= s.a then Run([], s)
    else
      var s' := Region1Step(rx2, ry2, s);
      var rest := Region1(rx2, ry2, s');
      Run([Pixel(s'.x, s'.y)] + rest.arc, rest.last)
  }

  /** Taking one step of region 1 moves its first arc point onto `done`
      and leaves the exit state unchanged. */
  lemma Region1Advance(rx2: int, ry2: int, s: State, done: seq<Pixel>, whole: Run)
    requires Squares(rx2, ry2) && (ry2 == 0 ==> s.b <= s.a) && s.b > s.a
    requires done + Region1(rx2, ry2, s).arc == whole.arc && Region1(rx2, ry2, s).last == whole.last
    ensures var s' := Region1Step(rx2, ry2, s);
      && (ry2 == 0 ==> s'.b <= s'.a)
      && (done + [Pixel(s'.x, s'.y)]) + Region1(rx2, ry2, s').arc == whole.arc
      && Region1(rx2, ry2, s').last == whole.last
  {
  }

  lemma MulMonotone(k: int, a: int, b: int)
    requires k >= 0 && a <= b
    ensures k * a <= k * b
  {
    assert k * b - k * a == k * (b - a);
  }

  /** `ry2_x_2` is non-negative for x >= 0, and `rx2_y_2` is at most 0 for
      y <= 0. */
  lemma ScaledSigns(rx2: int, ry2: int, x: int, y: int)
    requires Squares(rx2, ry2)
    ensures x >= 0 ==> ScaledX(ry2, x) >= 0
    ensures y <= 0 ==> ScaledY(rx2, y) <= 0
  {
    if x >= 0 {
      MulMonotone(2 * ry2, 0, x);
    }
    if y <= 0 {
      MulMonotone(2 * rx2, y, 0);
    }
  }

  /** The running values match their products: a = 2 ry^2 x, b = 2 rx^2 y. */
  predicate Tracks(rx2: int, ry2: int, s: State)
  {
    s.a == ScaledX(ry2, s.x) && s.b == ScaledY(rx2, s.y)
  }

  /** Started with `ry2_x_2` = 2 ry^2 x and `rx2_y_2` = 2 rx^2 y, region 1
      keeps both equal to their products and stops where
      2 rx^2 y <= 2 ry^2 x, where the slope passes -1. Started at x, y >= 0
      it stops with y >= 0: a step that lowers y needs
      2 rx^2 y > 2 ry^2 x >= 0, so y > 0. */
  lemma {:induction false} Region1Tracks(rx2: int, ry2: int, s: State)
    requires Squares(rx2, ry2) && (ry2 == 0 ==> s.b <= s.a) && Tracks(rx2, ry2, s)
    ensures var last := Region1(rx2, ry2, s).last;
      && Tracks(rx2, ry2, last)
      && ScaledY(rx2, last.y) <= ScaledX(ry2, last.x)
      && (0 <= s.x && 0 <= s.y ==> 0 <= last.y)
    decreases s.b - s.a
  {
    if s.b > s.a {
      var s' := Region1Step(rx2, ry2, s);
      assert ScaledX(ry2, s.x + 1) == s'.a;
      assert ScaledY(rx2, s'.y) == s'.b;
      ScaledSigns(rx2, ry2, s.x, s.y);
      Region1Tracks(rx2, ry2, s');
    }
  }

  /** The decision value with which `Ellipse.Draw` starts region 2. The
      source writes `xi + 1 / 2`, an integer division that adds 0. */
  function Region2Start(rx2: int, ry2: int, x: int, y: int): int
  {
    ry2 * (x + 1 / 2) * (x + 1 / 2) + rx2 * (y - 1) * (y - 1) - rx2 * ry2
  }

  /** One iteration of the second loop of `Ellipse.Draw`. */
  function Region2Step(rx2: int, ry2: int, s: State): State
  {
    var b' := s.b - 2 * rx2;
    if s.p >= 0 then State(s.x, s.y - 1, s.p - (b' + rx2), s.a, b')
    else
      var a' := s.a + 2 * ry2;
      State(s.x + 1, s.y - 1, s.p + a' - b' + rx2, a', b')
  }

  /** The second loop of `Ellipse.Draw` (`while (yi > 0)`) from state s:
      one arc point per row, so exactly max(y, 0) of them. */
  function Region2(rx2: int, ry2: int, s: State): (arc: seq<Pixel>)
    ensures |arc| == Max(s.y, 0)
    decreases s.y
  {
    if s.y <= 0 then []
    else
      var s' := Region2Step(rx2, ry2, s);
      [Pixel(s'.x, s'.y)] + Region2(rx2, ry2, s')
  }

  /** Taking one step of region 2 moves its first arc point onto `done`. */
  lemma Region2Advance(rx2: int, ry2: int, s: State, done: seq<Pixel>, whole: seq<Pixel>)
    requires s.y > 0 && done + Region2(rx2, ry2, s) == whole
    ensures var s' := Region2Step(rx2, ry2, s);
      (done + [Pixel(s'.x, s'.y)]) + Region2(rx2, ry2, s') == whole
  {
  }

  /** Region 2 runs until yi is 0: row i of its arc is y - 1 - i, so the
      last is row 0, and x grows by 0 or 1 per row. */
  lemma {:induction false} Region2Rows(rx2: int, ry2: int, s: State)
    ensures var arc := Region2(rx2, ry2, s);
      && (forall i :: 0 <= i < |arc| ==> arc[i].y == s.y - 1 - i)
      && (|arc| > 0 ==> s.x <= arc[0].x <= s.x + 1)
      && (forall i :: 0 < i < |arc| ==> arc[i - 1].x <= arc[i].x <= arc[i - 1].x + 1)
    decreases s.y
  {
    if s.y > 0 {
      var s' := Region2Step(rx2, ry2, s);
      Region2Rows(rx2, ry2, s');
      var arc, rest := Region2(rx2, ry2, s), Region2(rx2, ry2, s');
      assert arc == [Pixel(s'.x, s'.y)] + rest;
      assert forall i :: 0 < i < |arc| ==> arc[i] == rest[i - 1];
    }
  }

  /** The four axis points `Ellipse.Draw` emits before its loops, with
      xi = 0 and yi = ry. */
  function EllipseSeed(cx: int, cy: int, rx: int, ry: int): (g: seq<Pixel>)
    ensures |g| == 4
  {
    [Pixel(0 + cx, ry + cy), Pixel(rx + cx, 0 + cy), Pixel(0 + cx, -ry + cy), Pixel(-rx + cx, 0 + cy)]
  }

  /** The decision value with which `Ellipse.Draw` starts region 1. */
  function Region1Start(rx2: int, ry2: int, ry: int): int
  {
    ry2 - rx2 * ry + rx2
  }

  lemma SquareNonNegInt(n: int)
    ensures n * n >= 0 && (n == 0 <==> n * n == 0)
  {
    if n < 0 {
      assert n * n == (-n) * (-n);
    }
  }

  /** The loop variables at the start of region 1: (0, ry), with the
      running values equal to their products. */
  function EllipseStart(rx: int, ry: int): (s: State)
    ensures Squares(rx * rx, ry * ry) && Tracks(rx * rx, ry * ry, s)
    ensures ry * ry == 0 ==> s.b <= s.a
  {
    SquareNonNegInt(rx);
    SquareNonNegInt(ry);
    State(0, ry, Region1Start(rx * rx, ry * ry, ry), ScaledX(ry * ry, 0), ScaledY(rx * rx, ry))
  }

  /** Region 1 as `Ellipse.Draw` starts it, from (0, ry). */
  function EllipseRegion1(rx: int, ry: int): Run
  {
    Region1(rx * rx, ry * ry, EllipseStart(rx, ry))
  }

  /** Region 2 as `Ellipse.Draw` starts it, where region 1 stopped, with p
      recomputed. */
  function EllipseRegion2(rx: int, ry: int): seq<Pixel>
  {
    var l := EllipseRegion1(rx, ry).last;
    Region2(rx * rx, ry * ry, State(l.x, l.y, Region2Start(rx * rx, ry * ry, l.x, l.y), l.a, l.b))
  }

  /** The points `Ellipse.Draw` emits for radii rx, ry about (cx, cy). */
  function EllipsePoints(cx: int, cy: int, rx: int, ry: int): (pts: seq<Pixel>)
    ensures 4 <= |pts| && |pts| % 4 == 0
    ensures pts[..4] == EllipseSeed(cx, cy, rx, ry)
  {
    var arcs := ExpandQuadrants(EllipseRegion1(rx, ry).arc, cx, cy)
      + ExpandQuadrants(EllipseRegion2(rx, ry), cx, cy);
    assert |arcs| % 4 == 0;
    EllipseSeed(cx, cy, rx, ry) + arcs
  }

  /** The first loop of `Ellipse.Draw` from the loop variables x0, y0, p0,
      a0, b0, appending to `points`; it returns the variables at exit. */
  method EllipseLoop1(cx: int, cy: int, rx2: int, ry2: int, points0: seq<Pixel>,
                      x0: int, y0: int, p0: int, a0: int, b0: int)
    returns (points: seq<Pixel>, xi: int, yi: int, p: int, a: int, b: int)
    requires Squares(rx2, ry2) && (ry2 == 0 ==> b0 <= a0)
    ensures var run := Region1(rx2, ry2, State(x0, y0, p0, a0, b0));
      points == points0 + ExpandQuadrants(run.arc, cx, cy) && run.last == State(xi, yi, p, a, b)
  {
    xi, yi, p, a, b := x0, y0, p0, a0, b0;
    points := points0;
    ghost var whole := Region1(rx2, ry2, State(x0, y0, p0, a0, b0));
    ghost var done := [];
    while b > a
      invariant ry2 == 0 ==> b <= a
      invariant done + Region1(rx2, ry2, State(xi, yi, p, a, b)).arc == whole.arc
      invariant Region1(rx2, ry2, State(xi, yi, p, a, b)).last == whole.last
      invariant points == points0 + ExpandQuadrants(done, cx, cy)
      decreases b - a
    {
      ghost var s := State(xi, yi, p, a, b);
      if p < 0 {
        a := a + 2 * ry2;
        p := p + a + ry2;
      } else {
        a := a + 2 * ry2;
        b := b - 2 * rx2;
        p := p + a - b + ry2;
        yi := yi - 1;
      }
      xi := xi + 1;
      assert State(xi, yi, p, a, b) == Region1Step(rx2, ry2, s);
      Region1Advance(rx2, ry2, s, done, whole);
      ExpandQuadrantsSnoc(done, Pixel(xi, yi), cx, cy);
      done := done + [Pixel(xi, yi)];
      points := points + Quadrants(cx, cy, xi, yi);
    }
    assert Region1(rx2, ry2, State(xi, yi, p, a, b)).arc == [];
    assert done == whole.arc;
  }

  /** The second loop of `Ellipse.Draw` from the loop variables x0, y0,
      p0, a0, b0, appending to `points`. */
  method EllipseLoop2(cx: int, cy: int, rx2: int, ry2: int, points0: seq<Pixel>,
                      x0: int, y0: int, p0: int, a0: int, b0: int)
    returns (points: seq<Pixel>)
    ensures points == points0 + ExpandQuadrants(Region2(rx2, ry2, State(x0, y0, p0, a0, b0)), cx, cy)
  {
    var xi, yi, p, a, b := x0, y0, p0, a0, b0;
    points := points0;
    ghost var whole := Region2(rx2, ry2, State(x0, y0, p0, a0, b0));
    ghost var done := [];
    while yi > 0
      invariant done + Region2(rx2, ry2, State(xi, yi, p, a, b)) == whole
      invariant points == points0 + ExpandQuadrants(done, cx, cy)
      decreases yi
    {
      ghost var s := State(xi, yi, p, a, b);
      if p >= 0 {
        b := b - 2 * rx2;
        p := p - (b + rx2);
      } else {
        a := a + 2 * ry2;
        b := b - 2 * rx2;
        p := p + a - b + rx2;
        xi := xi + 1;
      }
      yi := yi - 1;
      assert State(xi, yi, p, a, b) == Region2Step(rx2, ry2, s);
      Region2Advance(rx2, ry2, s, done, whole);
      ExpandQuadrantsSnoc(done, Pixel(xi, yi), cx, cy);
      done := done + [Pixel(xi, yi)];
      points := points + Quadrants(cx, cy, xi, yi);
    }
    assert done == whole;
  }

  /** The generator part of `Ellipse.Draw`: the four axis points, the
      initial values, region 1, the region 2 decision value, region 2. */
  method MidpointEllipse(cx: int, cy: int, rx: int, ry: int) returns (points: seq<Pixel>)
    ensures points == EllipsePoints(cx, cy, rx, ry)
  {
    var rx2, ry2 := rx * rx, ry * ry;
    ghost var start := EllipseStart(rx, ry);
    points := EllipseSeed(cx, cy, rx, ry);
    var xi, yi := 0, ry;
    var a, b := ScaledX(ry2, xi), ScaledY(rx2, yi);
    var p := Region1Start(rx2, ry2, ry);
    points, xi, yi, p, a, b := EllipseLoop1(cx, cy, rx2, ry2, points, xi, yi, p, a, b);
    p := Region2Start(rx2, ry2, xi, yi);
    points := EllipseLoop2(cx, cy, rx2, ry2, points, xi, yi, p, a, b);
  }

  lemma QuadrantSymmetricConcat(s: seq<Pixel>, t: seq<Pixel>, cx: int, cy: int)
    requires QuadrantSymmetric(s, cx, cy) && QuadrantSymmetric(t, cx, cy)
    ensures QuadrantSymmetric(s + t, cx, cy)
  {
  }

  lemma EllipseSeedSymmetric(cx: int, cy: int, rx: int, ry: int)
    ensures QuadrantSymmetric(EllipseSeed(cx, cy, rx, ry), cx, cy)
  {
    var g := EllipseSeed(cx, cy, rx, ry);
    assert MirrorX(g[0], cx) == g[0] && MirrorY(g[0], cy) == g[2];
    assert MirrorX(g[1], cx) == g[3] && MirrorY(g[1], cy) == g[1];
    assert MirrorX(g[2], cx) == g[2] && MirrorY(g[2], cy) == g[0];
    assert MirrorX(g[3], cx) == g[1] && MirrorY(g[3], cy) == g[3];
  }

  /** The ellipse's points are symmetric under both axis reflections. */
  lemma EllipseSymmetric(cx: int, cy: int, rx: int, ry: int)
    ensures QuadrantSymmetric(EllipsePoints(cx, cy, rx, ry), cx, cy)
  {
    var s := EllipseSeed(cx, cy, rx, ry);
    var e1 := ExpandQuadrants(EllipseRegion1(rx, ry).arc, cx, cy);
    var e2 := ExpandQuadrants(EllipseRegion2(rx, ry), cx, cy);
    EllipseSeedSymmetric(cx, cy, rx, ry);
    ExpandQuadrantsSymmetric(EllipseRegion1(rx, ry).arc, cx, cy);
    ExpandQuadrantsSymmetric(EllipseRegion2(rx, ry), cx, cy);
    QuadrantSymmetricConcat(s, e1, cx, cy);
    QuadrantSymmetricConcat(s + e1, e2, cx, cy);
  }

  /** For ry >= 0 region 1 stops with yi >= 0 where 2 rx^2 yi <= 2 ry^2 xi,
      and region 2 then takes one step per remaining row, its last point
      on the x axis: the ellipse generator runs until yi is 0. */
  lemma EllipseReachesAxis(rx: int, ry: int)
    requires ry >= 0
    ensures var l, a2 := EllipseRegion1(rx, ry).last, EllipseRegion2(rx, ry);
      && l.y >= 0 && ScaledY(rx * rx, l.y) <= ScaledX(ry * ry, l.x)
      && |a2| == l.y && (|a2| > 0 ==> a2[|a2| - 1].y == 0)
  {
    Region1Tracks(rx * rx, ry * ry, EllipseStart(rx, ry));
    var l := EllipseRegion1(rx, ry).last;
    Region2Rows(rx * rx, ry * ry, State(l.x, l.y, Region2Start(rx * rx, ry * ry, l.x, l.y), l.a, l.b));
  }
}
