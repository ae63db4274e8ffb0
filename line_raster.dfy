/** The line rasteriser `Bresenham(Point, Point)` (Shape.cs, lines 172-263)
    and the closed edge chains that the polygon-like shapes draw with it.
    The rasteriser returns its pixel list instead of issuing vertex calls. */
module LineRaster {
  import opened Geometry

  /** How a walk step (major, minor) becomes a pixel: unchanged in the
      shallow branch, transposed in the steep branch when the product of
      the deltas is non-negative, transposed and negated otherwise. */
  datatype Axis = AlongX | AlongY | AlongYNeg

  function Place(m: Axis, major: int, minor: int): (q: Pixel)
    ensures Major(m, q) == major && Minor(m, q) == minor
  {
    match m
    case AlongX => Pixel(major, minor)
    case AlongY => Pixel(minor, major)
    case AlongYNeg => Pixel(-minor, -major)
  }

  /** The walk coordinate that a pixel was placed from along the major axis. */
  function Major(m: Axis, q: Pixel): int
  {
    match m
    case AlongX => q.x
    case AlongY => q.y
    case AlongYNeg => -q.y
  }

  /** The walk coordinate that a pixel was placed from along the minor axis. */
  function Minor(m: Axis, q: Pixel): int
  {
    match m
    case AlongX => q.y
    case AlongY => q.x
    case AlongYNeg => -q.x
  }

  /** The pixels that n more iterations of the incremental-error loop emit,
      from walk position (x, y) with decision value p: each iteration steps
      x by xu, and also y by yu when p >= 0. */
  function Walk(x: int, y: int, p: int, n: nat, xu: int, yu: int, adx: int, ady: int, m: Axis): (r: seq<Pixel>)
    ensures |r| == n
    decreases n
  {
    if n == 0 then []
    else
      var y' := if p >= 0 then y + yu else y;
      var p' := if p >= 0 then p + 2 * ady - 2 * adx else p + 2 * ady;
      [Place(m, x + xu, y')] + Walk(x + xu, y', p', n - 1, xu, yu, adx, ady, m)
  }

  /** The endpoints after the conditional swap: exchanged when A.X > B.X or
      A.Y > B.Y. */
  function Ordered(a: Point, b: Point): (r: (Point, Point))
    ensures r == (a, b) || r == (b, a)
  {
    if a.x > b.x || a.y > b.y then (b, a) else (a, b)
  }

  function Sign(d: int): (u: int)
    ensures u == 1 || u == -1
    ensures d > 0 ==> u == 1
  {
    if d < 0 then -1 else 1
  }

  /** `kt`: the truncated product of the deltas, whose sign picks the frame. */
  function Kt(aX: real, aY: real, bX: real, bY: real): int
  {
    Trunc((bX - aX) * (bY - aY))
  }

  /** The parameters of the steep branch, recomputed in the transposed frame
      (negated when the product of the deltas truncates below zero):
      the walk's start (x0, y0) and its deltas. */
  datatype SteepFrame = SteepFrame(x0: int, y0: int, dx: int, dy: int, m: Axis)

  function Steep(aX: real, aY: real, bX: real, bY: real): SteepFrame
  {
    var kt := Kt(aX, aY, bX, bY);
    var x1 := if kt >= 0 then Trunc(bY) else Trunc(-bY);
    var y1 := if kt >= 0 then bX else -bX;
    var x0 := if kt >= 0 then Trunc(aY) else Trunc(-aY);
    var y0 := if kt >= 0 then Trunc(aX) else Trunc(-aX);
    SteepFrame(x0, y0, x1 - x0, Trunc(y1 - y0 as real), if kt >= 0 then AlongY else AlongYNeg)
  }

  /** Where the counting loop starts: position (x, y), decision value p,
      iteration count n, units, absolute deltas and the placement of each
      step. */
  datatype WalkStart = WalkStart(x: int, y: int, p: int, n: nat, xu: int, yu: int, adx: int, ady: int, m: Axis)

  /** Everything `Bresenham` computes before its loop: the conditional
      swap, the deltas and units, and the choice between the shallow loop
      and the steep one. */
  function Setup(a0: Point, b0: Point): WalkStart
  {
    var (a, b) := Ordered(a0, b0);
    StartBetween(a, b)
  }

  /** The loop start for the endpoints a, b as they stand after the swap. */
  function StartBetween(a: Point, b: Point): WalkStart
  {
    var dx, dy := Trunc(b.x - a.x), Trunc(b.y - a.y);
    var xu, yu := Sign(dx), Sign(dy);
    if RAbs(b.y - a.y) < RAbs(b.x - a.x) then
      WalkStart(Trunc(a.x), Trunc(a.y), 2 * dy - dx, Abs(dx), xu, yu, Abs(dx), Abs(dy), AlongX)
    else
      var f := Steep(a.x, a.y, b.x, b.y);
      WalkStart(f.x0, f.y0, 2 * f.dy - f.dx, Abs(f.dx), xu, yu, Abs(f.dx), Abs(f.dy), f.m)
  }

  /** The pixel list `Bresenham(A, B)` returns: the truncated A first, then
      the walk between the (possibly swapped) endpoints. */
  function BresenhamPoints(a0: Point, b0: Point): (r: seq<Pixel>)
    ensures |r| >= 1 && r[0] == TruncPoint(a0)
  {
    var s := Setup(a0, b0);
    [TruncPoint(a0)] + Walk(s.x, s.y, s.p, s.n, s.xu, s.yu, s.adx, s.ady, s.m)
  }

  /** One of the two counting loops of `Bresenham`: n iterations that step
      x by xu, step y by yu when p >= 0, update p and append the placed
      pixel. */
  method EmitWalk(x0: int, y0: int, p0: int, n: nat, xu: int, yu: int, adx: int, ady: int, m: Axis)
    returns (points: seq<Pixel>)
    ensures points == Walk(x0, y0, p0, n, xu, yu, adx, ady, m)
  {
    var x, y, p := x0, y0, p0;
    points := [];
    var i := 0;
    while i < n
      invariant 0 <= i <= n
      invariant points + Walk(x, y, p, n - i, xu, yu, adx, ady, m) == Walk(x0, y0, p0, n, xu, yu, adx, ady, m)
    {
      ghost var rest := Walk(x, y, p, n - i, xu, yu, adx, ady, m);
      if p >= 0 {
        x := x + xu;
        y := y + yu;
        p := p + 2 * ady - 2 * adx;
      } else {
        x := x + xu;
        p := p + 2 * ady;
      }
      assert rest == [Place(m, x, y)] + Walk(x, y, p, n - i - 1, xu, yu, adx, ady, m);
      points := points + [Place(m, x, y)];
      i := i + 1;
    }
  }

  /** The steep branch's recomputation of the walk start and deltas in
      the transposed (and, when kt < 0, negated) frame. */
  method SteepSetup(aX: real, aY: real, bX: real, bY: real) returns (f: SteepFrame)
    ensures f == Steep(aX, aY, bX, bY)
  {
    var kt := Kt(aX, aY, bX, bY);
    var x1 := if kt >= 0 then Trunc(bY) else Trunc(-bY);
    var y1 := if kt >= 0 then bX else -bX;
    var x := if kt >= 0 then Trunc(aY) else Trunc(-aY);
    var y := if kt >= 0 then Trunc(aX) else Trunc(-aX);
    var dx := x1 - x;
    var dy := Trunc(y1 - y as real);
    f := SteepFrame(x, y, dx, dy, if kt >= 0 then AlongY else AlongYNeg);
  }

  /** The part of `Bresenham` before its loops: the conditional swap, the
      deltas and units, and (steep case) the transposed frame. */
  method Prepare(a0: Point, b0: Point) returns (s: WalkStart)
    ensures s == Setup(a0, b0)
  {
    var aX, aY, bX, bY := a0.x, a0.y, b0.x, b0.y;
    if aX > bX || aY > bY {
      aX, bX := bX, aX;
      aY, bY := bY, aY;
    }
    var xUnit, dx, dy := 1, Trunc(bX - aX), Trunc(bY - aY);
    var x, y := Trunc(aX), Trunc(aY);
    var yUnit := 1;
    if dx < 0 {
      xUnit := -1;
    }
    if dy < 0 {
      yUnit := -1;
    }
    assert (Point(aX, aY), Point(bX, bY)) == Ordered(a0, b0);
    if RAbs(bY - aY) < RAbs(bX - aX) {
      s := WalkStart(x, y, 2 * dy - dx, Abs(dx), xUnit, yUnit, Abs(dx), Abs(dy), AlongX);
    } else {
      var f := SteepSetup(aX, aY, bX, bY);
      s := WalkStart(f.x0, f.y0, 2 * f.dy - f.dx, Abs(f.dx), xUnit, yUnit, Abs(f.dx), Abs(f.dy), f.m);
    }
  }

  /** `Bresenham(A, B)`: the truncated A first, then the pixels of the
      counting loop. */
  method Bresenham(a0: Point, b0: Point) returns (points: seq<Pixel>)
    ensures points == BresenhamPoints(a0, b0)
  {
    points := [TruncPoint(a0)];
    var s := Prepare(a0, b0);
    var walk := EmitWalk(s.x, s.y, s.p, s.n, s.xu, s.yu, s.adx, s.ady, s.m);
    points := points + walk;
  }

  /** A walk with unit steps (xu = yu = 1), preceded by its starting
      pixel, moves by one along the major axis per pixel and by zero or one
      along the minor axis. */
  lemma {:induction false} WalkSteps(x: int, y: int, p: int, n: nat, adx: int, ady: int, m: Axis)
    ensures UnitSteps(m, [Place(m, x, y)] + Walk(x, y, p, n, 1, 1, adx, ady, m))
    decreases n
  {
    if n > 0 {
      var y' := if p >= 0 then y + 1 else y;
      var p' := if p >= 0 then p + 2 * ady - 2 * adx else p + 2 * ady;
      var tail := [Place(m, x + 1, y')] + Walk(x + 1, y', p', n - 1, 1, 1, adx, ady, m);
      assert Walk(x, y, p, n, 1, 1, adx, ady, m) == tail;
      WalkSteps(x + 1, y', p', n - 1, adx, ady, m);
      StepThenUnitSteps(m, Place(m, x, y), tail);
    }
  }

  /** A unit step followed by unit steps is unit steps. */
  lemma StepThenUnitSteps(m: Axis, q: Pixel, r: seq<Pixel>)
    requires UnitSteps(m, r)
    requires |r| > 0 ==> Major(m, r[0]) == Major(m, q) + 1 && 0 <= Minor(m, r[0]) - Minor(m, q) <= 1
    ensures UnitSteps(m, [q] + r)
  {
    var s := [q] + r;
    forall i | 0 < i < |s|
      ensures Major(m, s[i]) == Major(m, s[i - 1]) + 1 && 0 <= Minor(m, s[i]) - Minor(m, s[i - 1]) <= 1
    {
      assert s[i] == r[i - 1];
      if i > 1 {
        assert s[i - 1] == r[i - 2];
      }
    }
  }

  /** How far the walk rises along its minor axis in n steps: one for
      every step taken with p >= 0. */
  function Rise(p: int, n: nat, adx: int, ady: int): (j: int)
    ensures 0 <= j <= n
    decreases n
  {
    if n == 0 then 0
    else
      var p' := if p >= 0 then p + 2 * ady - 2 * adx else p + 2 * ady;
      (if p >= 0 then 1 else 0) + Rise(p', n - 1, adx, ady)
  }

  /** The last pixel of a unit-step walk sits Rise steps above its start
      along the minor axis. */
  lemma {:induction false} WalkLastMinor(x: int, y: int, p: int, n: nat, adx: int, ady: int, m: Axis)
    requires n > 0
    ensures Minor(m, Walk(x, y, p, n, 1, 1, adx, ady, m)[n - 1]) == y + Rise(p, n, adx, ady)
    decreases n
  {
    var y' := if p >= 0 then y + 1 else y;
    var p' := if p >= 0 then p + 2 * ady - 2 * adx else p + 2 * ady;
    var rest := Walk(x + 1, y', p', n - 1, 1, 1, adx, ady, m);
    assert Walk(x, y, p, n, 1, 1, adx, ady, m) == [Place(m, x + 1, y')] + rest;
    assert Rise(p, n, adx, ady) == (y' - y) + Rise(p', n - 1, adx, ady);
    if n > 1 {
      WalkLastMinor(x + 1, y', p', n - 1, adx, ady, m);
    }
  }

  /** The last pixel of a unit-step walk of n steps sits n steps past its
      start along the major axis. */
  lemma {:induction false} WalkLastMajor(x: int, y: int, p: int, n: nat, adx: int, ady: int, m: Axis)
    requires n > 0
    ensures Major(m, Walk(x, y, p, n, 1, 1, adx, ady, m)[n - 1]) == x + n
    decreases n
  {
    var y' := if p >= 0 then y + 1 else y;
    var p' := if p >= 0 then p + 2 * ady - 2 * adx else p + 2 * ady;
    var rest := Walk(x + 1, y', p', n - 1, 1, 1, adx, ady, m);
    assert Walk(x, y, p, n, 1, 1, adx, ady, m) == [Place(m, x + 1, y')] + rest;
    if n > 1 {
      WalkLastMajor(x + 1, y', p', n - 1, adx, ady, m);
    }
  }

  /** The scaled error 2 (ady n - adx j) + p - 2 ady + adx of a walk that
      started with decision value p and rose j in n steps. */
  function WalkError(p: int, n: int, j: int, adx: int, ady: int): int
  {
    p - 2 * ady + adx + 2 * ady * n - 2 * adx * j
  }

  /** The incremental error stays within [-adx, adx] for the whole walk
      when it starts there: each step either rises (p >= 0) or not, and
      both keep the bound. */
  lemma {:induction false} RiseBound(p: int, n: nat, adx: int, ady: int)
    requires 0 <= ady <= adx
    requires -adx <= p - 2 * ady + adx <= adx
    ensures -adx <= WalkError(p, n, Rise(p, n, adx, ady), adx, ady) <= adx
    decreases n
  {
    if n > 0 {
      var d := if p >= 0 then 1 else 0;
      var p' := p + 2 * ady - 2 * adx * d;
      var j' := Rise(p', n - 1, adx, ady);
      assert Rise(p, n, adx, ady) == d + j';
      RiseBound(p', n - 1, adx, ady);
      assert WalkError(p', n - 1, j', adx, ady) == WalkError(p, n, d + j', adx, ady) by {
        assert 2 * ady * n == 2 * ady * (n - 1) + 2 * ady;
        assert 2 * adx * (d + j') == 2 * adx * d + 2 * adx * j';
      }
    }
  }

  /** Multiplying by a positive d keeps |t| >= 1 away from zero by d. */
  lemma ScaleAwayFromZero(d: int, t: int)
    requires d > 0
    ensures t >= 1 ==> d * t >= d
    ensures t <= -1 ==> d * t <= -d
  {
    assert d * t - d == d * (t - 1);
    assert d * t + d == d * (t + 1);
  }

  /** An error term with |2 d t| <= d and d > 0 forces t == 0. */
  lemma PinnedError(d: int, t: int)
    requires d > 0
    requires -d <= 2 * d * t <= d
    ensures t == 0
  {
    ScaleAwayFromZero(d, t);
  }

  lemma TruncInt(n: int)
    ensures Trunc(n as real) == n
  {
  }

  /** The error bound after dx steps with j rises pins j to dy. */
  lemma LandsAt(dx: int, dy: int, j: int)
    requires dx > 0
    requires -dx <= WalkError(2 * dy - dx, dx, j, dx, dy) <= dx
    ensures j == dy
  {
    assert WalkError(2 * dy - dx, dx, j, dx, dy) == 2 * dx * (dy - j);
    PinnedError(dx, dy - j);
  }

  /** Each step of r moves by one along the major axis of m and by zero
      or one along its minor axis. */
  predicate UnitSteps(m: Axis, r: seq<Pixel>)
  {
    forall i :: 0 < i < |r| ==>
      Major(m, r[i]) == Major(m, r[i - 1]) + 1 && 0 <= Minor(m, r[i]) - Minor(m, r[i - 1]) <= 1
  }

  /** The counting loop started as `Bresenham` starts it (p = 2 dy - dx,
      |Dx| iterations, unit steps) from (x, y) with 0 <= dy <= dx ends
      exactly at (x + dx, y + dy), one unit step at a time. */
  lemma WalkLands(x: int, y: int, dx: int, dy: int, m: Axis)
    requires 0 <= dy <= dx
    ensures var r := [Place(m, x, y)] + Walk(x, y, 2 * dy - dx, dx, 1, 1, dx, dy, m);
      |r| == dx + 1 && r[dx] == Place(m, x + dx, y + dy) && UnitSteps(m, r)
  {
    var w := Walk(x, y, 2 * dy - dx, dx, 1, 1, dx, dy, m);
    var r := [Place(m, x, y)] + w;
    WalkSteps(x, y, 2 * dy - dx, dx, dx, dy, m);
    if dx > 0 {
      WalkLastMinor(x, y, 2 * dy - dx, dx, dx, dy, m);
      RiseBound(2 * dy - dx, dx, dx, dy);
      LandsAt(dx, dy, Rise(2 * dy - dx, dx, dx, dy));
      WalkLastMajor(x, y, 2 * dy - dx, dx, dx, dy, m);
      assert r[dx] == w[dx - 1];
    }
  }

  /** With integer endpoints, A <= B componentwise and dy < dx, the setup
      picks the shallow loop from A with unit steps. */
  lemma ShallowSetup(a: Pixel, b: Pixel)
    requires a.x <= b.x && a.y <= b.y
    requires b.y - a.y < b.x - a.x
    ensures var dx, dy := b.x - a.x, b.y - a.y;
      Setup(ToPoint(a), ToPoint(b)) == WalkStart(a.x, a.y, 2 * dy - dx, dx, 1, 1, dx, dy, AlongX)
  {
    var A, B := ToPoint(a), ToPoint(b);
    var dx, dy := b.x - a.x, b.y - a.y;
    assert Ordered(A, B) == (A, B);
    assert B.x - A.x == dx as real && B.y - A.y == dy as real;
    TruncInt(dx);
    TruncInt(dy);
    TruncInt(a.x);
    TruncInt(a.y);
    assert RAbs(B.y - A.y) < RAbs(B.x - A.x);
  }

  /** With integer endpoints, A <= B componentwise and dx <= dy, the
      product of the deltas is non-negative and the setup picks the steep
      loop in the transposed frame, from (A.Y, A.X). */
  lemma SteepSetupForward(a: Pixel, b: Pixel)
    requires a.x <= b.x && a.y <= b.y
    requires b.x - a.x <= b.y - a.y
    ensures var dx, dy := b.x - a.x, b.y - a.y;
      Setup(ToPoint(a), ToPoint(b)) == WalkStart(a.y, a.x, 2 * dx - dy, dy, 1, 1, dy, dx, AlongY)
  {
    var A, B := ToPoint(a), ToPoint(b);
    var dx, dy := b.x - a.x, b.y - a.y;
    assert Ordered(A, B) == (A, B);
    assert B.x - A.x == dx as real && B.y - A.y == dy as real;
    TruncInt(dx);
    TruncInt(dy);
    TruncInt(a.x);
    TruncInt(a.y);
    TruncInt(b.x);
    TruncInt(b.y);
    assert !(RAbs(B.y - A.y) < RAbs(B.x - A.x));
    KtForward(a, b);
    assert Steep(A.x, A.y, B.x, B.y) == SteepFrame(a.y, a.x, dy, dx, AlongY);
  }

  /** Between integer endpoints with A <= B the product of the deltas is
      non-negative. */
  lemma KtForward(a: Pixel, b: Pixel)
    requires a.x <= b.x && a.y <= b.y
    ensures Kt(a.x as real, a.y as real, b.x as real, b.y as real) >= 0
  {
    var dx, dy := b.x - a.x, b.y - a.y;
    assert b.x as real - a.x as real == dx as real && b.y as real - a.y as real == dy as real;
    assert (dx as real) * (dy as real) == (dx * dy) as real;
    assert dx * dy >= 0;
    TruncInt(dx * dy);
  }

  /** The points of the shallow case, from the setup. */
  lemma ShallowPoints(a: Pixel, b: Pixel)
    requires a.x <= b.x && a.y <= b.y
    requires b.y - a.y < b.x - a.x
    ensures var dx, dy := b.x - a.x, b.y - a.y;
      BresenhamPoints(ToPoint(a), ToPoint(b))
        == [Place(AlongX, a.x, a.y)] + Walk(a.x, a.y, 2 * dy - dx, dx, 1, 1, dx, dy, AlongX)
  {
    ShallowSetup(a, b);
    TruncInt(a.x);
    TruncInt(a.y);
  }

  /** The points of the steep case, from the setup. */
  lemma SteepPoints(a: Pixel, b: Pixel)
    requires a.x <= b.x && a.y <= b.y
    requires b.x - a.x <= b.y - a.y
    ensures var dx, dy := b.x - a.x, b.y - a.y;
      BresenhamPoints(ToPoint(a), ToPoint(b))
        == [Place(AlongY, a.y, a.x)] + Walk(a.y, a.x, 2 * dx - dy, dy, 1, 1, dy, dx, AlongY)
  {
    SteepSetupForward(a, b);
    TruncInt(a.x);
    TruncInt(a.y);
  }

  /** Between integer endpoints with A <= B componentwise (no swap),
      `Bresenham` returns max(dx, dy) + 1 pixels, from A to B, and each
      step moves by one along the major axis (x when dy < dx, else y) and
      by zero or one along the other. */
  lemma BresenhamForward(a: Pixel, b: Pixel)
    requires a.x <= b.x && a.y <= b.y
    ensures var r := BresenhamPoints(ToPoint(a), ToPoint(b));
      && |r| == Max(b.x - a.x, b.y - a.y) + 1
      && r[0] == a
      && r[|r| - 1] == b
      && UnitSteps(if b.y - a.y < b.x - a.x then AlongX else AlongY, r)
  {
    if b.y - a.y < b.x - a.x {
      ShallowPoints(a, b);
      ForwardShallow(a, b);
    } else {
      SteepPoints(a, b);
      ForwardSteep(a, b);
    }
  }

  /** The shallow half of BresenhamForward: the walk from A runs along X
      and lands on B. */
  lemma ForwardShallow(a: Pixel, b: Pixel)
    requires a.x <= b.x && a.y <= b.y && b.y - a.y < b.x - a.x
    ensures var dx, dy := b.x - a.x, b.y - a.y;
      var r := [Place(AlongX, a.x, a.y)] + Walk(a.x, a.y, 2 * dy - dx, dx, 1, 1, dx, dy, AlongX);
      |r| == dx + 1 && r[0] == a && r[|r| - 1] == b && UnitSteps(AlongX, r)
  {
    WalkLands(a.x, a.y, b.x - a.x, b.y - a.y, AlongX);
  }

  /** The steep half of BresenhamForward: the walk from A runs along Y in
      the transposed frame and lands on B. */
  lemma ForwardSteep(a: Pixel, b: Pixel)
    requires a.x <= b.x && a.y <= b.y && b.x - a.x <= b.y - a.y
    ensures var dx, dy := b.x - a.x, b.y - a.y;
      var r := [Place(AlongY, a.y, a.x)] + Walk(a.y, a.x, 2 * dx - dy, dy, 1, 1, dy, dx, AlongY);
      |r| == dy + 1 && r[0] == a && r[|r| - 1] == b && UnitSteps(AlongY, r)
  {
    WalkLands(a.y, a.x, b.y - a.y, b.x - a.x, AlongY);
  }

  /** A zero-length segment gives one pixel. */
  lemma BresenhamSinglePoint(a: Point)
    ensures BresenhamPoints(a, a) == [TruncPoint(a)]
  {
    var r := BresenhamPoints(a, a);
    assert Ordered(a, a) == (a, a);
    assert a.x - a.x == 0.0 && a.y - a.y == 0.0;
    TruncInt(0);
    assert Kt(a.x, a.y, a.x, a.y) == 0;
  }

  /** When B <= A componentwise the endpoints are swapped but the original
      A is still emitted first: the output is A followed by the walk from B
      to A without B's own pixel. */
  lemma BresenhamSwapped(a: Point, b: Point)
    requires b.x <= a.x && b.y <= a.y
    ensures BresenhamPoints(a, b) == [TruncPoint(a)] + BresenhamPoints(b, a)[1..]
  {
    assert Ordered(a, b) == Ordered(b, a);
  }

  /** (0,0) to (5,3) rasterises as (0,0),(1,1),(2,1),(3,2),(4,2),(5,3). */
  lemma BresenhamExample()
    ensures BresenhamPoints(Point(0.0, 0.0), Point(5.0, 3.0))
      == [Pixel(0, 0), Pixel(1, 1), Pixel(2, 1), Pixel(3, 2), Pixel(4, 2), Pixel(5, 3)]
  {
    var a, b := Pixel(0, 0), Pixel(5, 3);
    ShallowPoints(a, b);
    assert ToPoint(a) == Point(0.0, 0.0) && ToPoint(b) == Point(5.0, 3.0);
    ExampleWalk();
  }

  /** The walk of the example: five shallow steps with p = 1, -3, 3, -1, 5. */
  lemma ExampleWalk()
    ensures [Place(AlongX, 0, 0)] + Walk(0, 0, 1, 5, 1, 1, 5, 3, AlongX)
      == [Pixel(0, 0), Pixel(1, 1), Pixel(2, 1), Pixel(3, 2), Pixel(4, 2), Pixel(5, 3)]
  {
    assert Walk(4, 2, 5, 1, 1, 1, 5, 3, AlongX) == [Pixel(5, 3)];
    assert Walk(3, 2, -1, 2, 1, 1, 5, 3, AlongX) == [Pixel(4, 2), Pixel(5, 3)];
    assert Walk(2, 1, 3, 3, 1, 1, 5, 3, AlongX) == [Pixel(3, 2), Pixel(4, 2), Pixel(5, 3)];
    assert Walk(1, 1, -3, 4, 1, 1, 5, 3, AlongX) == [Pixel(2, 1), Pixel(3, 2), Pixel(4, 2), Pixel(5, 3)];
  }

  /** Along unit steps the major coordinate grows by exactly one per
      pixel. */
  lemma {:induction false} UnitStepsMajor(m: Axis, r: seq<Pixel>, i: nat)
    requires UnitSteps(m, r)
    requires i < |r|
    ensures Major(m, r[i]) == Major(m, r[0]) + i
    decreases i
  {
    if i > 0 {
      UnitStepsMajor(m, r, i - 1);
    }
  }

  /** Drawn from integer A back to B <= A (A != B), the segment starts and
      ends at A and never emits B: the swap drops B's pixel while the
      original A is still emitted first. */
  lemma BresenhamReversed(a: Pixel, b: Pixel)
    requires b.x <= a.x && b.y <= a.y && a != b
    ensures var r := BresenhamPoints(ToPoint(a), ToPoint(b));
      && |r| == Max(a.x - b.x, a.y - b.y) + 1
      && r[0] == a
      && r[|r| - 1] == a
      && b !in r
  {
    var A, B := ToPoint(a), ToPoint(b);
    BresenhamSwapped(A, B);
    BresenhamForward(b, a);
    TruncInt(a.x);
    TruncInt(a.y);
    RestartedWalk(BresenhamPoints(B, A), a, b, if a.y - b.y < a.x - b.x then AlongX else AlongY);
  }

  /** A segment whose x rises while its y falls is swapped, and the walk
      then starts from B with the two units of opposite sign: from (0,0) to
      (5,-3) the list overshoots to (0,1) and never reaches B. */
  lemma BresenhamMixedMissesEnd()
    ensures var r := BresenhamPoints(Point(0.0, 0.0), Point(5.0, -3.0));
      && r == [Pixel(0, 0), Pixel(4, -2), Pixel(3, -1), Pixel(2, 0), Pixel(1, 0), Pixel(0, 1)]
      && Pixel(5, -3) !in r
  {
    var a, b := Point(0.0, 0.0), Point(5.0, -3.0);
    assert Ordered(a, b) == (b, a);
    assert Trunc(-5.0) == -5 && Trunc(3.0) == 3 && Trunc(5.0) == 5 && Trunc(-3.0) == -3 && Trunc(0.0) == 0;
    assert Setup(a, b) == WalkStart(5, -3, 11, 5, -1, 1, 5, 3, AlongX);
    assert Walk(1, 0, 5, 1, -1, 1, 5, 3, AlongX) == [Pixel(0, 1)];
    assert Walk(2, 0, -1, 2, -1, 1, 5, 3, AlongX) == [Pixel(1, 0), Pixel(0, 1)];
    assert Walk(3, -1, 3, 3, -1, 1, 5, 3, AlongX) == [Pixel(2, 0), Pixel(1, 0), Pixel(0, 1)];
    assert Walk(4, -2, 7, 4, -1, 1, 5, 3, AlongX) == [Pixel(3, -1), Pixel(2, 0), Pixel(1, 0), Pixel(0, 1)];
  }

  /** Replacing the first pixel b of a unit-step walk f from b to a by a
      gives a list that starts and ends at a and misses b. */
  lemma RestartedWalk(f: seq<Pixel>, a: Pixel, b: Pixel, m: Axis)
    requires |f| >= 1 && f[0] == b && f[|f| - 1] == a && a != b
    requires UnitSteps(m, f)
    ensures var r := [a] + f[1..];
      |r| == |f| && r[0] == a && r[|r| - 1] == a && b !in r
  {
    var r := [a] + f[1..];
    forall k | 0 < k < |f|
      ensures f[k] != b
    {
      UnitStepsMajor(m, f, k);
    }
    assert forall k :: 0 < k < |r| ==> r[k] == f[k];
  }

  /** A rasteriser that, like `Bresenham`, emits its first endpoint's
      truncation first. */
  ghost predicate StartsAtFirst(line: (Point, Point) -> seq<Pixel>)
  {
    forall a, b :: |line(a, b)| >= 1 && line(a, b)[0] == TruncPoint(a)
  }

  lemma BresenhamStartsAtFirst()
    ensures StartsAtFirst(BresenhamPoints)
  {
  }

  /** The first k edges (i, i + 1) of an edge chain drawn with `line`,
      concatenated. */
  function OpenChain(line: (Point, Point) -> seq<Pixel>, cps: seq<Point>, k: nat): seq<Pixel>
    requires k < |cps|
  {
    if k == 0 then []
    else OpenChain(line, cps, k - 1) + line(cps[k - 1], cps[k])
  }

  /** The outline of a polygon-like shape: the edges (i, i + 1) in order,
      then the closing edge from the last control point to the first. */
  function Chain(line: (Point, Point) -> seq<Pixel>, cps: seq<Point>): seq<Pixel>
    requires |cps| >= 1
  {
    OpenChain(line, cps, |cps| - 1) + line(cps[|cps| - 1], cps[0])
  }

  /** The point-list part of the polygon-like `Draw`s: one `Bresenham` call
      per edge, the closing edge last. */
  method ClosedChain(cps: seq<Point>) returns (points: seq<Pixel>)
    requires |cps| >= 1
    ensures points == Chain(BresenhamPoints, cps)
  {
    points := [];
    var i := 0;
    while i < |cps| - 1
      invariant 0 <= i <= |cps| - 1
      invariant points == OpenChain(BresenhamPoints, cps, i)
    {
      var edge := Bresenham(cps[i], cps[i + 1]);
      points := points + edge;
      i := i + 1;
    }
    var closing := Bresenham(cps[|cps| - 1], cps[0]);
    points := points + closing;
  }

  /** The first k edges start at the truncated control points 0 .. k - 1. */
  lemma {:induction false} OpenChainHitsVertices(line: (Point, Point) -> seq<Pixel>, cps: seq<Point>, k: nat)
    requires StartsAtFirst(line)
    requires k < |cps|
    ensures forall i :: 0 <= i < k ==> TruncPoint(cps[i]) in OpenChain(line, cps, k)
  {
    if k > 0 {
      OpenChainHitsVertices(line, cps, k - 1);
      var prev := OpenChain(line, cps, k - 1);
      var e := line(cps[k - 1], cps[k]);
      assert OpenChain(line, cps, k) == prev + e;
      forall i | 0 <= i < k
        ensures TruncPoint(cps[i]) in prev + e
      {
        if i < k - 1 {
          InLeft(prev, e, TruncPoint(cps[i]));
        } else {
          InRight(prev, e, TruncPoint(cps[i]));
        }
      }
    }
  }

  lemma InLeft(s: seq<Pixel>, e: seq<Pixel>, q: Pixel)
    requires q in s
    ensures q in s + e
  {
  }

  lemma InRight(s: seq<Pixel>, e: seq<Pixel>, q: Pixel)
    requires |e| > 0 && e[0] == q
    ensures q in s + e
  {
    assert (s + e)[|s|] == q;
  }

  /** Every truncated control point lies on the outline drawn with a
      rasteriser that starts at its first endpoint (as `Bresenham` does):
      control point i starts edge i, the last one the closing edge. */
  lemma ChainHitsVertices(line: (Point, Point) -> seq<Pixel>, cps: seq<Point>)
    requires StartsAtFirst(line)
    requires |cps| >= 1
    ensures forall i :: 0 <= i < |cps| ==> TruncPoint(cps[i]) in Chain(line, cps)
  {
    var n := |cps|;
    var prev := OpenChain(line, cps, n - 1);
    var e := line(cps[n - 1], cps[0]);
    OpenChainHitsVertices(line, cps, n - 1);
    forall i | 0 <= i < n
      ensures TruncPoint(cps[i]) in prev + e
    {
      if i < n - 1 {
        InLeft(prev, e, TruncPoint(cps[i]));
      } else {
        InRight(prev, e, TruncPoint(cps[i]));
      }
    }
  }
}
