/** `polyline_distance` and `drift` of demo/draw.py, on squared distances, and how far what the
    host draws can be from the strokes. */
module Drift {
  import opened Squares
  import opened Polyline
  import opened Mouse

  type Line = s: seq<Point> | |s| > 1 witness [Point(0, 0), Point(0, 0)]

  function Place(p: Point): Vertex {
    Vertex(p.x as real, p.y as real)
  }

  /** The square of the distance from p to segment j of the line. */
  function To2(p: Point, line: Line, j: nat): real
    requires j < |line| - 1
  {
    SegmentDistance2(Place(p), Place(line[j]), Place(line[j + 1]))
  }

  /** The square of the distance from p to the nearest of the line's first k segments. */
  function Nearest2(p: Point, line: Line, k: nat): (d: real)
    requires 0 < k < |line|
    ensures forall j :: 0 <= j < k ==> d <= To2(p, line, j)
  {
    var d := To2(p, line, k - 1);
    if k == 1 then d else Lesser(Nearest2(p, line, k - 1), d)
  }

  function Distance2To(p: Point, line: Line): real {
    Nearest2(p, line, |line| - 1)
  }

  /** How far the first k points stray from the line at worst. */
  function Stray2(points: seq<Point>, line: Line, k: nat): (d: real)
    requires k <= |points|
    ensures d >= 0.0
    ensures forall j :: 0 <= j < k ==> Distance2To(points[j], line) <= d
  {
    if k == 0 then 0.0 else Greater(Stray2(points, line, k - 1), Distance2To(points[k - 1], line))
  }

  /** A polyline of one point counts as going nowhere. */
  function AsLine(points: Stroke): Line {
    if |points| > 1 then points else points + points
  }

  /** The worst of one stroke and its polyline. */
  function StrokeDrift2(stroke: Line, points: Stroke): (d: real)
    ensures d >= 0.0
  {
    var line := AsLine(points);
    Greater(Stray2(line, stroke, |line|), Stray2(stroke, line, |stroke|))
  }

  function Drifts(strokes: seq<Line>, drawn: seq<Stroke>): (ds: seq<real>)
    requires |strokes| == |drawn|
    ensures |ds| == |strokes|
  {
    seq(|strokes|, j requires 0 <= j < |strokes| => StrokeDrift2(strokes[j], drawn[j]))
  }

  /** The worst of the first k and what there was before. */
  function Worst(ds: seq<real>, before: real, k: nat): (d: real)
    requires k <= |ds|
    ensures d >= before && forall j :: 0 <= j < k ==> ds[j] <= d
    ensures d == before || d in ds
  {
    if k == 0 then before else Greater(Worst(ds, before, k - 1), ds[k - 1])
  }

  /** The square of what `drift` returns for as many polylines as strokes. */
  function Drift2(strokes: seq<Line>, drawn: seq<Stroke>, end: Point): real
    requires |strokes| == |drawn|
  {
    Worst(Drifts(strokes, drawn), End2(end), |strokes|)
  }

  /** How far the pointer ends from where it began. */
  function End2(end: Point): real {
    Distance2(Place(end), Vertex(0.0, 0.0))
  }

  // what these distances mean

  /** p lies within the root of r2 of the point at t of segment j of the line. */
  ghost predicate IsWithin(p: Point, line: seq<Point>, r2: real, j: nat, t: real) {
    j + 1 < |line| && 0.0 <= t <= 1.0 && Distance2(Place(p), PointAt(Place(line[j]), Place(line[j + 1]), t)) <= r2
  }

  ghost predicate OnLine(p: Point, line: seq<Point>, r2: real) {
    exists j: nat, t: real :: IsWithin(p, line, r2, j, t)
  }

  lemma {:induction false} NearestThere(p: Point, line: Line, k: nat) returns (j: nat)
    requires 0 < k < |line|
    ensures j < k && Nearest2(p, line, k) == To2(p, line, j)
  {
    j := k - 1;
    if k > 1 && Nearest2(p, line, k - 1) <= To2(p, line, k - 1) {
      j := NearestThere(p, line, k - 1);
    }
  }

  /** The distance to a line is that of a point of it, and no other point is nearer. */
  lemma DistanceIs(p: Point, line: Line, r2: real)
    ensures Distance2To(p, line) <= r2 <==> OnLine(p, line, r2)
  {
    if Distance2To(p, line) <= r2 {
      var j := NearestThere(p, line, |line| - 1);
      assert IsWithin(p, line, r2, j, Along(Place(p), Place(line[j]), Place(line[j + 1])));
    }
    if j: nat, t: real :| IsWithin(p, line, r2, j, t) {
      SegmentNearest(Place(p), Place(line[j]), Place(line[j + 1]), t);
      assert Distance2To(p, line) <= To2(p, line, j);
    }
  }

  ghost predicate AllOnLine(points: seq<Point>, line: seq<Point>, r2: real) {
    forall k :: 0 <= k < |points| ==> OnLine(points[k], line, r2)
  }

  lemma {:induction false} StrayIs(points: seq<Point>, line: Line, k: nat, r2: real)
    requires k <= |points|
    ensures Stray2(points, line, k) <= r2 <==> r2 >= 0.0 && AllOnLine(points[..k], line, r2)
  {
    if k > 0 {
      StrayIs(points, line, k - 1, r2);
      DistanceIs(points[k - 1], line, r2);
      OneMoreOn(points, line, k, r2);
      BothBelow(Stray2(points, line, k - 1), Distance2To(points[k - 1], line), r2,
                r2 >= 0.0 && AllOnLine(points[..k - 1], line, r2), OnLine(points[k - 1], line, r2));
    }
  }

  lemma OneMoreOn(points: seq<Point>, line: Line, k: nat, r2: real)
    requires 0 < k <= |points|
    ensures AllOnLine(points[..k], line, r2)
            <==> AllOnLine(points[..k - 1], line, r2) && OnLine(points[k - 1], line, r2)
  {
    assert points[..k] == points[..k - 1] + [points[k - 1]];
  }

  /** What was drawn of a stroke is a line, or one point, which counts as a line that goes nowhere. */
  ghost predicate OnDrawn(p: Point, points: seq<Point>, r2: real) {
    if |points| == 1 then Distance2(Place(p), Place(points[0])) <= r2 else OnLine(p, points, r2)
  }

  /** Every point drawn is within the root of r2 of the stroke, and every corner of what was drawn. */
  ghost predicate StrokeNear(stroke: Line, points: Stroke, r2: real) {
    AllOnLine(points, stroke, r2) && AllOnDrawn(stroke, points, r2)
  }

  ghost predicate AllOnDrawn(corners: seq<Point>, points: seq<Point>, r2: real) {
    forall k :: 0 <= k < |corners| ==> OnDrawn(corners[k], points, r2)
  }

  lemma OnePointLine(p: Point, q: Point, r2: real)
    ensures OnLine(p, [q] + [q], r2) <==> Distance2(Place(p), Place(q)) <= r2
  {
    var line := [q] + [q];
    forall t: real ensures PointAt(Place(q), Place(q), t) == Place(q) {
      TimesZero(t);
    }
    if Distance2(Place(p), Place(q)) <= r2 { assert IsWithin(p, line, r2, 0, 0.0); }
  }

  lemma DrawnOnStroke(stroke: Line, points: Stroke, r2: real)
    ensures AllOnLine(AsLine(points), stroke, r2) <==> AllOnLine(points, stroke, r2)
  {
    var line := AsLine(points);
    assert forall k :: 0 <= k < |points| ==> line[k] == points[k];
    assert |points| == 1 ==> line[1] == points[0];
  }

  lemma StrokeOnDrawn(stroke: Line, points: Stroke, r2: real)
    ensures AllOnLine(stroke, AsLine(points), r2) <==> AllOnDrawn(stroke, points, r2)
  {
    var line := AsLine(points);
    forall k | 0 <= k < |stroke| ensures OnLine(stroke[k], line, r2) <==> OnDrawn(stroke[k], points, r2) {
      if |points| == 1 {
        assert line == [points[0]] + [points[0]];
        OnePointLine(stroke[k], points[0], r2);
      }
    }
  }

  lemma WholeStray(points: seq<Point>, line: Line, r2: real)
    ensures Stray2(points, line, |points|) <= r2 <==> r2 >= 0.0 && AllOnLine(points, line, r2)
  {
    StrayIs(points, line, |points|, r2);
    assert points[..|points|] == points;
  }

  lemma StrokeDriftIs(stroke: Line, points: Stroke, r2: real)
    ensures StrokeDrift2(stroke, points) <= r2 <==> r2 >= 0.0 && StrokeNear(stroke, points, r2)
  {
    WholeStray(AsLine(points), stroke, r2);
    WholeStray(stroke, AsLine(points), r2);
    DrawnOnStroke(stroke, points, r2);
    StrokeOnDrawn(stroke, points, r2);
    var there, back := Stray2(AsLine(points), stroke, |AsLine(points)|), Stray2(stroke, AsLine(points), |stroke|);
    BothBelow(there, back, r2, r2 >= 0.0 && AllOnLine(points, stroke, r2), r2 >= 0.0 && AllOnDrawn(stroke, points, r2));
  }

  lemma BothBelow(a: real, b: real, r: real, first: bool, second: bool)
    requires (a <= r <==> first) && (b <= r <==> second)
    ensures Greater(a, b) <= r <==> first && second
  {
  }

  /** Nothing is off by more than the root of r2: not the pointer's end from where it began, no point
      drawn from its stroke and no corner from what was drawn of its stroke. */
  ghost predicate AllNear(strokes: seq<Line>, drawn: seq<Stroke>, end: Point, r2: real) {
    && |strokes| == |drawn|
    && (end.x * end.x + end.y * end.y) as real <= r2
    && forall k :: 0 <= k < |strokes| ==> StrokeNear(strokes[k], drawn[k], r2)
  }

  lemma EndIs(end: Point)
    ensures End2(end) == (end.x * end.x + end.y * end.y) as real >= 0.0
  {
    assert Sq(end.x as real - 0.0) == (end.x * end.x) as real;
    assert Sq(end.y as real - 0.0) == (end.y * end.y) as real;
  }

  lemma {:induction false} WorstIs(ds: seq<real>, before: real, k: nat, r2: real)
    requires k <= |ds|
    ensures Worst(ds, before, k) <= r2 <==> before <= r2 && forall j :: 0 <= j < k ==> ds[j] <= r2
  {
    if k > 0 { WorstIs(ds, before, k - 1, r2); }
  }

  /** The drift is the least bound on all of these distances. */
  lemma DriftIs(strokes: seq<Line>, drawn: seq<Stroke>, end: Point, r2: real)
    requires |strokes| == |drawn|
    ensures Drift2(strokes, drawn, end) <= r2 <==> AllNear(strokes, drawn, end, r2)
  {
    EndIs(end);
    WorstIs(Drifts(strokes, drawn), End2(end), |strokes|, r2);
    forall k | 0 <= k < |strokes|
      ensures Drifts(strokes, drawn)[k] <= r2 <==> r2 >= 0.0 && StrokeNear(strokes[k], drawn[k], r2)
    {
      StrokeDriftIs(strokes[k], drawn[k], r2);
    }
  }

  lemma {:induction false} StrayReached(points: seq<Point>, line: Line, k: nat) returns (i: nat)
    requires 0 < k <= |points|
    ensures i < k && Stray2(points, line, k) == Distance2To(points[i], line)
  {
    i := k - 1;
    var j := NearestThere(points[i], line, |line| - 1);
    if k > 1 && Stray2(points, line, k - 1) > Distance2To(points[i], line) {
      i := StrayReached(points, line, k - 1);
    }
  }

  /** d is the distance of a point drawn from its stroke, or of a corner from what was drawn of its stroke. */
  ghost predicate IsDistance(strokes: seq<Line>, drawn: seq<Stroke>, k: nat, i: nat, d: real) {
    && k < |strokes| == |drawn|
    && ((i < |AsLine(drawn[k])| && d == Distance2To(AsLine(drawn[k])[i], strokes[k]))
        || (i < |strokes[k]| && d == Distance2To(strokes[k][i], AsLine(drawn[k]))))
  }

  /** The drift is one of these distances, or the end's. */
  lemma DriftReached(strokes: seq<Line>, drawn: seq<Stroke>, end: Point)
    requires |strokes| == |drawn|
    ensures var d := Drift2(strokes, drawn, end);
      d == (end.x * end.x + end.y * end.y) as real || exists k: nat, i: nat :: IsDistance(strokes, drawn, k, i, d)
  {
    var d, ds := Drift2(strokes, drawn, end), Drifts(strokes, drawn);
    EndIs(end);
    if d != End2(end) {
      var k :| 0 <= k < |ds| && ds[k] == d;
      var line := AsLine(drawn[k]);
      var i := StrayReached(line, strokes[k], |line|);
      var j := StrayReached(strokes[k], line, |strokes[k]|);
      assert IsDistance(strokes, drawn, k, if d == Distance2To(line[i], strokes[k]) then i else j, d);
    }
  }

  datatype Error2 = Infinite | Squared(d: real)

  method PolylineDistance2(p: Point, line: Line) returns (d: real)
    ensures d == Distance2To(p, line)
  {
    d := To2(p, line, 0);
    var k := 1;
    while k < |line| - 1
      invariant 1 <= k < |line| && d == Nearest2(p, line, k)
    {
      d := Lesser(d, To2(p, line, k));
      k := k + 1;
    }
  }

  method MaxStray2(points: seq<Point>, line: Line) returns (d: real)
    ensures d == Stray2(points, line, |points|)
  {
    d := 0.0;
    var k := 0;
    while k < |points|
      invariant 0 <= k <= |points| && d == Stray2(points, line, k)
    {
      var far := PolylineDistance2(points[k], line);
      d := Greater(d, far);
      k := k + 1;
    }
  }

  /** The square of the worst error. Strokes have two corners or more, as `pen_path` makes them:
      on a single corner the source has no segment to measure from and stops. */
  method DriftOf(strokes: seq<Line>, drawn: seq<Stroke>, end: Point) returns (e: Error2)
    ensures e == if |drawn| != |strokes| then Infinite else Squared(Drift2(strokes, drawn, end))
    ensures e.Infinite? <==> |drawn| != |strokes|
    ensures e.Squared? ==> forall r2: real :: e.d <= r2 <==> AllNear(strokes, drawn, end, r2)
  {
    if |drawn| != |strokes| { return Infinite; }
    var worst := End2(end);
    var k := 0;
    while k < |strokes|
      invariant 0 <= k <= |strokes| && worst == Worst(Drifts(strokes, drawn), End2(end), k)
    {
      var one := DriftOfOne(strokes[k], drawn[k]);
      worst := Greater(worst, one);
      k := k + 1;
    }
    forall r2: real ensures worst <= r2 <==> AllNear(strokes, drawn, end, r2) { DriftIs(strokes, drawn, end, r2); }
    return Squared(worst);
  }

  method DriftOfOne(stroke: Line, points: Stroke) returns (d: real)
    ensures d == StrokeDrift2(stroke, points)
  {
    var line := AsLine(points);
    var there := MaxStray2(line, stroke);
    var back := MaxStray2(stroke, line);
    d := Greater(there, back);
  }

  // what the host draws is near

  lemma HalfAxis(d: int, i: nat, n: nat, a: int)
    requires 0 < n && i <= n
    ensures var t := i as real / n as real;
      Sq((a + Rounded(d, i, n)) as real - (a as real + Times(t, d as real))) <= 0.25
  {
    RoundedBounds(d, i, n);
    var t, r := i as real / n as real, Rounded(d, i, n);
    var e := r as real - Times(t, d as real);
    assert Times(n as real, Times(t, d as real)) == (d * i) as real by {
      Swap(n as real, t, d as real);
      assert t * n as real == i as real;
    }
    Spread(n as real, r as real, Times(t, d as real));
    assert Times(n as real, r as real) == (n * r) as real;
    HalfOf(n, d * i, n * r, e);
    SmallSquare(e);
    assert (a + r) as real - (a as real + Times(t, d as real)) == e;
  }

  /** e is n-th of a number within n / 2. */
  lemma HalfOf(n: nat, x: int, y: int, e: real)
    requires n > 0 && Times(n as real, e) == (y - x) as real
    requires 0 <= 2 * x - 2 * y + n < 2 * n
    ensures -0.5 <= e <= 0.5
  {
    if e > 0.5 {
      BothPositive(n as real, e - 0.5);
      Spread(n as real, e, 0.5);
    }
    if e < -0.5 {
      BothPositive(n as real, -0.5 - e);
      Spread(n as real, -0.5, e);
    }
    assert Times(n as real, 0.5) == 0.5 * n as real && Times(n as real, -0.5) == -0.5 * n as real;
  }

  lemma SmallSquare(e: real)
    requires -0.5 <= e <= 0.5
    ensures Sq(e) <= 0.25
  {
    var a := if e >= 0.0 then e else -e;
    Flip(e);
    SqAtLeast(0.5, a);
    assert Sq(0.5) == 0.25;
  }

  /** Each point a report leaves the pointer at is within half a pixel, each way, of where it
      should be on the segment. */
  lemma StepNear(a: Point, b: Point, i: nat)
    requires i <= StepCount(b.x - a.x, b.y - a.y)
    ensures var p := PointOn(b.x - a.x, b.y - a.y, i);
      SegmentDistance2(Place(Point(a.x + p.x, a.y + p.y)), Place(a), Place(b)) <= 0.5
  {
    var dx, dy := b.x - a.x, b.y - a.y;
    var n := StepCount(dx, dy);
    var t := i as real / n as real;
    var p := PointOn(dx, dy, i);
    HalfAxis(dx, i, n, a.x);
    HalfAxis(dy, i, n, a.y);
    Fraction(i, n);
    HalfBoth(Place(Point(a.x + p.x, a.y + p.y)), Place(a), Place(b), dx as real, dy as real, t);
  }

  lemma Fraction(i: nat, n: nat)
    requires 0 < n && i <= n
    ensures 0.0 <= i as real / n as real <= 1.0
  {
  }

  lemma HalfBoth(q: Vertex, a: Vertex, b: Vertex, dx: real, dy: real, t: real)
    requires dx == b.x - a.x && dy == b.y - a.y && 0.0 <= t <= 1.0
    requires Sq(q.x - (a.x + Times(t, dx))) <= 0.25 && Sq(q.y - (a.y + Times(t, dy))) <= 0.25
    ensures SegmentDistance2(q, a, b) <= 0.5
  {
    SegmentNearest(q, a, b, t);
  }

  lemma {:induction false} ThroughAt(a: Point, dx: int, dy: int, k: nat, j: nat)
    requires j < k
    ensures var p := PointOn(dx, dy, j + 1); Through(a, dx, dy, k)[j] == Point(a.x + p.x, a.y + p.y)
  {
    if j < k - 1 {
      ThroughAt(a, dx, dy, k - 1, j);
    }
  }

  lemma LastDrawn(stroke: Line, k: nat, j: nat, n: nat)
    requires 0 < k < |stroke| && j == |DrawnSegments(stroke, k - 1)| + n < |DrawnSegments(stroke, k)|
    ensures var a, b := stroke[k - 1], stroke[k];
      n < StepCount(b.x - a.x, b.y - a.y)
      && (var p := PointOn(b.x - a.x, b.y - a.y, n + 1); DrawnSegments(stroke, k)[j] == Point(a.x + p.x, a.y + p.y))
  {
    var a, b := stroke[k - 1], stroke[k];
    var through := ThroughAll(a, b);
    assert DrawnSegments(stroke, k) == DrawnSegments(stroke, k - 1) + through;
    assert n < |through| && DrawnSegments(stroke, k)[j] == through[n];
    ThroughAt(a, b.x - a.x, b.y - a.y, StepCount(b.x - a.x, b.y - a.y), n);
  }

  lemma LastDrawnNear(stroke: Line, k: nat, j: nat)
    requires 0 < k < |stroke| && |DrawnSegments(stroke, k - 1)| <= j < |DrawnSegments(stroke, k)|
    ensures SegmentDistance2(Place(DrawnSegments(stroke, k)[j]), Place(stroke[k - 1]), Place(stroke[k])) <= 0.5
  {
    var n := j - |DrawnSegments(stroke, k - 1)|;
    LastDrawn(stroke, k, j, n);
    StepNear(stroke[k - 1], stroke[k], n + 1);
  }

  /** Point j of the polyline drawn for k segments lies near one of them. */
  lemma {:induction false} DrawnNear(stroke: Line, k: nat, j: nat) returns (s: nat)
    requires 0 < k < |stroke| && j < |DrawnSegments(stroke, k)|
    ensures s < k
    ensures SegmentDistance2(Place(DrawnSegments(stroke, k)[j]), Place(stroke[s]), Place(stroke[s + 1])) <= 0.5
  {
    var before := DrawnSegments(stroke, k - 1);
    var a, b := stroke[k - 1], stroke[k];
    if j >= |before| {
      s := k - 1;
      LastDrawnNear(stroke, k, j);
    } else if k > 1 {
      s := DrawnNear(stroke, k - 1, j);
    } else {
      s := 0;
      SegmentEnds(Place(a), Place(a), Place(b));
      SelfDistance(Place(a));
    }
  }

  lemma SelfDistance(p: Vertex)
    ensures Distance2(p, p) == 0.0
  {
    TimesZero(0.0);
  }

  /** Where the polyline has the stroke's corner k. */
  function CornerAt(stroke: Stroke, k: nat): (j: nat)
    requires k < |stroke|
  {
    |DrawnSegments(stroke, k)| - 1
  }

  /** The host draws through every corner of the stroke exactly, in order. */
  lemma {:induction false} CornersDrawn(stroke: Stroke, k: nat)
    requires k < |stroke|
    ensures CornerAt(stroke, k) < |Drawn(stroke)| && Drawn(stroke)[CornerAt(stroke, k)] == stroke[k]
    ensures k > 0 ==> CornerAt(stroke, k - 1) < CornerAt(stroke, k)
    ensures CornerAt(stroke, 0) == 0 && CornerAt(stroke, |stroke| - 1) == |Drawn(stroke)| - 1
  {
    SegmentsPrefix(stroke, k, |stroke| - 1);
    if k > 0 {
      var a, b := stroke[k - 1], stroke[k];
      var n := StepCount(b.x - a.x, b.y - a.y);
      ThroughAt(a, b.x - a.x, b.y - a.y, n, n - 1);
      EndPoint(a, b);
    }
  }

  lemma {:induction false} SegmentsPrefix(stroke: Stroke, k: nat, n: nat)
    requires k <= n < |stroke|
    ensures DrawnSegments(stroke, k) <= DrawnSegments(stroke, n)
  {
    if k < n {
      SegmentsPrefix(stroke, k, n - 1);
    }
  }

  /** Nothing drawn strays farther than the square root of a half from its stroke, and no corner
      strays from the drawing at all. */
  lemma StrokeDriftBound(stroke: Line)
    ensures StrokeDrift2(stroke, Drawn(stroke)) <= 0.5
    ensures forall k :: 0 <= k < |stroke| ==> Distance2To(stroke[k], AsLine(Drawn(stroke))) <= 0.0
  {
    var line := Drawn(stroke);
    CornersDrawn(stroke, 1);
    assert |line| > 1;
    forall j | 0 <= j < |line| ensures Distance2To(line[j], stroke) <= 0.5 {
      var s := DrawnNear(stroke, |stroke| - 1, j);
      assert To2(line[j], stroke, s) <= 0.5;
    }
    forall k | 0 <= k < |stroke| ensures Distance2To(stroke[k], line) <= 0.0 {
      CornersDrawn(stroke, k);
      CornerOnLine(stroke[k], line, CornerAt(stroke, k));
    }
    StrayBound(line, stroke, |line|, 0.5);
    StrayBound(stroke, line, |stroke|, 0.0);
  }

  lemma CornerOnLine(p: Point, line: Line, j: nat)
    requires j < |line| && line[j] == p
    ensures Distance2To(p, line) <= 0.0
  {
    var s := if j > 0 then j - 1 else 0;
    SegmentEnds(Place(p), Place(line[s]), Place(line[s + 1]));
    SelfDistance(Place(p));
    assert To2(p, line, s) <= 0.0;
  }

  lemma {:induction false} StrayBound(points: seq<Point>, line: Line, k: nat, bound: real)
    requires k <= |points| && bound >= 0.0
    requires forall j :: 0 <= j < |points| ==> Distance2To(points[j], line) <= bound
    ensures Stray2(points, line, k) <= bound
  {
    if k > 0 {
      StrayBound(points, line, k - 1, bound);
    }
  }

  lemma EachDrift(strokes: seq<Line>, drawn: seq<Stroke>)
    requires drawn == AllDrawn(strokes)
    ensures forall j :: 0 <= j < |strokes| ==> Drifts(strokes, drawn)[j] <= 0.5
  {
    forall j | 0 <= j < |strokes| ensures Drifts(strokes, drawn)[j] <= 0.5 {
      StrokeDriftBound(strokes[j]);
    }
  }

  lemma WorstWithin(ds: seq<real>, before: real, bound: real)
    requires before <= bound && forall j :: 0 <= j < |ds| ==> ds[j] <= bound
    ensures Worst(ds, before, |ds|) <= bound
  {
  }

  lemma EndsAtStart(end: Point)
    requires end == Point(0, 0)
    ensures End2(end) == 0.0
  {
    SelfDistance(Vertex(0.0, 0.0));
  }

  lemma DriftWithin(strokes: seq<Line>, drawn: seq<Stroke>, end: Point)
    requires drawn == AllDrawn(strokes) && End2(end) == 0.0
    ensures Drift2(strokes, drawn, end) <= 0.5
  {
    EachDrift(strokes, drawn);
    WorstWithin(Drifts(strokes, drawn), End2(end), 0.5);
  }

  /** What the host makes of the encoded strokes drifts by no more than the square root of a
      half in all. */
  lemma EncodedDrift(strokes: seq<Line>, screen: Screen)
    requires screen.drawn == AllDrawn(strokes) && screen.at == Point(0, 0)
    ensures Drift2(strokes, screen.drawn, screen.at) <= 0.5
  {
    EndsAtStart(screen.at);
    DriftWithin(strokes, screen.drawn, screen.at);
  }

  /** So nothing it draws is farther from its stroke, no corner farther from what is drawn, and it ends
      no farther from where it began. */
  lemma EncodedNear(strokes: seq<Line>, screen: Screen)
    requires screen.drawn == AllDrawn(strokes) && screen.at == Point(0, 0)
    ensures AllNear(strokes, screen.drawn, screen.at, 0.5)
  {
    EncodedDrift(strokes, screen);
    DriftIs(strokes, screen.drawn, screen.at, 0.5);
  }
}
