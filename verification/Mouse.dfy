/** `line` and `encode` of python/demo_draw.py and `replay` of demo/draw.py: pen strokes as
    three-byte mouse reports, and the host that adds them up. */
module Mouse {
  import opened Wrappers
  import opened Numbers
  import opened Squares

  type Byte = b: int | 0 <= b < 256

  datatype Report = Report(buttons: Byte, dx: Byte, dy: Byte)

  type Stroke = s: seq<Point> | |s| > 0 witness [Point(0, 0)]

  const LIMIT: int := 127

  /** How many reports a move takes. */
  function StepCount(dx: int, dy: int): (n: nat)
    ensures n >= 1
  {
    Max(1, (Max(Abs(dx), Abs(dy)) + LIMIT - 1) / LIMIT)
  }

  /** i n-ths of d, rounded to nearest, halves up. */
  function Rounded(d: int, i: nat, n: nat): int
    requires n > 0
  {
    (2 * d * i + n) / (2 * n)
  }

  function PointOn(dx: int, dy: int, i: nat): Point {
    var n := StepCount(dx, dy);
    Point(Rounded(dx, i, n), Rounded(dy, i, n))
  }

  function ToByte(d: int): Byte {
    d % 256
  }

  function Signed(b: Byte): int {
    if b > 127 then b - 256 else b
  }

  /** The first k reports of a move. */
  function LineReports(dx: int, dy: int, buttons: Byte, k: nat): seq<Report> {
    if k == 0 then []
    else
      var p, q := PointOn(dx, dy, k - 1), PointOn(dx, dy, k);
      LineReports(dx, dy, buttons, k - 1) + [Report(buttons, ToByte(q.x - p.x), ToByte(q.y - p.y))]
  }

  // rounding

  lemma Floors(a: int, b: int, q: int)
    requires b > 0 && b * q <= a < b * q + b
    ensures a / b == q
  {
    var r := a / b;
    if r < q { Below(b, r + 1, q); }
    if r > q { Below(b, q + 1, r); }
  }

  lemma Below(b: int, p: int, q: int)
    requires b > 0 && p <= q
    ensures b * p <= b * q
  {
  }

  /** Twice the n-fold of the rounded value is within n of twice d i. */
  lemma RoundedBounds(d: int, i: nat, n: nat)
    requires n > 0
    ensures 0 <= 2 * (d * i) - 2 * (n * Rounded(d, i, n)) + n < 2 * n
  {
    var a := 2 * d * i + n;
    assert 2 * d * i == 2 * (d * i);
    assert a == 2 * n * (a / (2 * n)) + a % (2 * n);
    assert 2 * n * (a / (2 * n)) == 2 * (n * Rounded(d, i, n));
  }

  lemma RoundedEnds(d: int, n: nat)
    requires n > 0
    ensures Rounded(d, 0, n) == 0 && Rounded(d, n, n) == d
  {
    Floors(2 * d * 0 + n, 2 * n, 0);
    assert 2 * d * n == 2 * n * d;
    Floors(2 * d * n + n, 2 * n, d);
  }

  /** No whole number is nearer to i n-ths of d. */
  lemma RoundedNearest(d: int, i: nat, n: nat, m: int)
    requires n > 0
    ensures Abs(d * i - n * Rounded(d, i, n)) <= Abs(d * i - n * m)
  {
    var r := Rounded(d, i, n);
    RoundedBounds(d, i, n);
    if m > r {
      Below(n, r + 1, m);
      assert n * (r + 1) == n * r + n;
    } else if m < r {
      Below(n, m + 1, r);
      assert n * (m + 1) == n * m + n;
    }
  }

  /** A step of a move of at most LIMIT a report stays within LIMIT. */
  lemma RoundedStep(d: int, i: nat, n: nat)
    requires n > 0 && i > 0 && Abs(d) <= LIMIT * n
    ensures -LIMIT <= Rounded(d, i, n) - Rounded(d, i - 1, n) <= LIMIT
  {
    var r, s := Rounded(d, i, n), Rounded(d, i - 1, n);
    RoundedBounds(d, i, n);
    RoundedBounds(d, i - 1, n);
    assert d * i == d * (i - 1) + d;
    assert n * (s + LIMIT + 1) == n * s + n * LIMIT + n;
    assert n * (r + LIMIT + 1) == n * r + n * LIMIT + n;
    if r - s > LIMIT {
      Below(n, s + LIMIT + 1, r);
    } else if s - r > LIMIT {
      Below(n, r + LIMIT + 1, s);
    }
  }

  lemma StepCountEnough(dx: int, dy: int)
    ensures Abs(dx) <= LIMIT * StepCount(dx, dy) && Abs(dy) <= LIMIT * StepCount(dx, dy)
  {
  }

  /** Every report of a move carries its step exactly, and none carries -128. */
  lemma LineStep(dx: int, dy: int, i: nat)
    requires i > 0
    ensures var p, q := PointOn(dx, dy, i - 1), PointOn(dx, dy, i);
      && Signed(ToByte(q.x - p.x)) == q.x - p.x && Signed(ToByte(q.y - p.y)) == q.y - p.y
      && ToByte(q.x - p.x) != 0x80 && ToByte(q.y - p.y) != 0x80
  {
    StepCountEnough(dx, dy);
    RoundedStep(dx, i, StepCount(dx, dy));
    RoundedStep(dy, i, StepCount(dx, dy));
  }

  /** A move takes one report at least, and no more than its longer side takes 127 at a time. */
  lemma FewestSteps(dx: int, dy: int)
    ensures var n := StepCount(dx, dy);
      && |LineAll(dx, dy, 0)| == n >= 1
      && -127 * n <= dx <= 127 * n && -127 * n <= dy <= 127 * n
      && (n > 1 ==> dx > 127 * (n - 1) || -dx > 127 * (n - 1) || dy > 127 * (n - 1) || -dy > 127 * (n - 1))
  {
    LineLength(dx, dy, 0, StepCount(dx, dy));
  }

  lemma {:induction false} LineLength(dx: int, dy: int, buttons: Byte, k: nat)
    ensures |LineReports(dx, dy, buttons, k)| == k
  {
    if k > 0 { LineLength(dx, dy, buttons, k - 1); }
  }

  // encoding

  function LineAll(dx: int, dy: int, buttons: Byte): seq<Report> {
    LineReports(dx, dy, buttons, StepCount(dx, dy))
  }

  /** The button held along the stroke's first k segments. */
  function SegmentReports(stroke: Stroke, k: nat): seq<Report>
    requires k < |stroke|
  {
    if k == 0 then []
    else
      var a, b := stroke[k - 1], stroke[k];
      SegmentReports(stroke, k - 1) + LineAll(b.x - a.x, b.y - a.y, 1)
  }

  const ORIGIN: Point := Point(0, 0)

  const PRESS: Report := Report(1, 0, 0)
  const RELEASE: Report := Report(0, 0, 0)

  function MoveReports(from: Point, to: Point): seq<Report> {
    if to != from then LineAll(to.x - from.x, to.y - from.y, 0) else []
  }

  /** A move with the button up, a press, the segments with it held, and a release. */
  function StrokeReports(pen: Point, stroke: Stroke): seq<Report> {
    MoveReports(pen, stroke[0]) + [PRESS] + SegmentReports(stroke, |stroke| - 1) + [RELEASE]
  }

  function Pen(strokes: seq<Stroke>): Point {
    if strokes == [] then ORIGIN else var s := strokes[|strokes| - 1]; s[|s| - 1]
  }

  function StrokesReports(strokes: seq<Stroke>): seq<Report> {
    if strokes == [] then []
    else
      var k := |strokes| - 1;
      StrokesReports(strokes[..k]) + StrokeReports(Pen(strokes[..k]), strokes[k])
  }

  function AllReports(strokes: seq<Stroke>): seq<Report> {
    StrokesReports(strokes) + MoveReports(Pen(strokes), ORIGIN)
  }

  function Flat(reports: seq<Report>): (data: seq<Byte>)
    ensures |data| == 3 * |reports|
  {
    if reports == [] then []
    else var r := reports[|reports| - 1]; Flat(reports[..|reports| - 1]) + [r.buttons, r.dx, r.dy]
  }

  method Line(dx: int, dy: int, buttons: Byte) returns (steps: seq<Report>)
    ensures steps == LineAll(dx, dy, buttons)
  {
    var n := Max(1, (Max(Abs(dx), Abs(dy)) + LIMIT - 1) / LIMIT);
    var x, y := 0, 0;
    steps := [];
    var i := 1;
    RoundedEnds(dx, n);
    RoundedEnds(dy, n);
    while i <= n
      invariant 1 <= i <= n + 1 && n == StepCount(dx, dy)
      invariant steps == LineReports(dx, dy, buttons, i - 1) && Point(x, y) == PointOn(dx, dy, i - 1)
    {
      var nx, ny := Rounded(dx, i, n), Rounded(dy, i, n);
      steps := steps + [Report(buttons, ToByte(nx - x), ToByte(ny - y))];
      x, y := nx, ny;
      i := i + 1;
    }
  }

  method EncodeStroke(pen: Point, stroke: Stroke) returns (steps: seq<Report>)
    ensures steps == StrokeReports(pen, stroke)
  {
    steps := [];
    if stroke[0] != pen {
      steps := Line(stroke[0].x - pen.x, stroke[0].y - pen.y, 0);
    }
    steps := steps + [Report(1, 0, 0)];
    var held := EncodeSegments(stroke);
    steps := steps + held + [Report(0, 0, 0)];
  }

  method EncodeSegments(stroke: Stroke) returns (steps: seq<Report>)
    ensures steps == SegmentReports(stroke, |stroke| - 1)
  {
    steps := [];
    var j := 1;
    while j < |stroke|
      invariant 1 <= j <= |stroke| && steps == SegmentReports(stroke, j - 1)
    {
      var a, b := stroke[j - 1], stroke[j];
      var segment := Line(b.x - a.x, b.y - a.y, 1);
      steps := steps + segment;
      j := j + 1;
    }
  }

  method Flatten(steps: seq<Report>, wait: Byte) returns (data: seq<Byte>)
    ensures data == [wait] + Flat(steps)
  {
    data := [wait];
    var n := 0;
    while n < |steps|
      invariant 0 <= n <= |steps| && data == [wait] + Flat(steps[..n])
    {
      assert steps[..n + 1][..n] == steps[..n];
      data := data + [steps[n].buttons, steps[n].dx, steps[n].dy];
      n := n + 1;
    }
    assert steps[..n] == steps;
  }

  lemma StrokesMore(strokes: seq<Stroke>, k: nat)
    requires k < |strokes|
    ensures StrokesReports(strokes[..k + 1])
            == StrokesReports(strokes[..k]) + StrokeReports(Pen(strokes[..k]), strokes[k])
    ensures Pen(strokes[..k + 1]) == strokes[k][|strokes[k]| - 1]
  {
    assert strokes[..k + 1][..k] == strokes[..k];
  }

  /** draw.bin for the strokes. */
  method Encode(strokes: seq<Stroke>, wait: Byte) returns (data: seq<Byte>)
    ensures data == [wait] + Flat(AllReports(strokes))
  {
    var steps: seq<Report>, pen := [], ORIGIN;
    var k := 0;
    while k < |strokes|
      invariant 0 <= k <= |strokes|
      invariant steps == StrokesReports(strokes[..k]) && pen == Pen(strokes[..k])
    {
      var stroke := strokes[k];
      var more := EncodeStroke(pen, stroke);
      StrokesMore(strokes, k);
      steps := steps + more;
      pen := stroke[|stroke| - 1];
      k := k + 1;
    }
    assert strokes[..k] == strokes;
    var home: seq<Report> := [];
    if pen != ORIGIN {
      home := Line(-pen.x, -pen.y, 0);
    }
    data := Flatten(steps + home, wait);
  }

  // replaying

  /** What the host knows: where the pointer is, whether the button was held, the polylines
      drawn with it held, and the moves made with it up. */
  datatype Screen = Screen(at: Point, held: bool, drawn: seq<Stroke>, lifted: seq<(Point, Point)>)

  const BLANK: Screen := Screen(ORIGIN, false, [], [])

  /** The host takes one report; the descriptor's deltas go no lower than -127. */
  function Play(s: Screen, r: Report): (t: Option<Screen>)
    ensures t.Some? && t.value.held ==> t.value.drawn != []
  {
    if r.dx == 0x80 || r.dy == 0x80 then None
    else
      var to := Point(s.at.x + Signed(r.dx), s.at.y + Signed(r.dy));
      var held := r.buttons % 2 == 1;
      var k := |s.drawn| - 1;
      if held && (!s.held || s.drawn == []) then Some(Screen(to, held, s.drawn + [[to]], s.lifted))
      else if held then Some(Screen(to, held, s.drawn[..k] + [s.drawn[k] + [to]], s.lifted))
      else if to != s.at then Some(Screen(to, held, s.drawn, s.lifted + [(s.at, to)]))
      else Some(Screen(to, held, s.drawn, s.lifted))
  }

  function PlayAll(s: Screen, reports: seq<Report>): Option<Screen> {
    if reports == [] then Some(s)
    else match PlayAll(s, reports[..|reports| - 1])
      case None => None
      case Some(t) => Play(t, reports[|reports| - 1])
  }

  lemma {:induction false} PlayThen(s: Screen, a: seq<Report>, b: seq<Report>)
    ensures PlayAll(s, a + b) == match PlayAll(s, a) case None => None case Some(t) => PlayAll(t, b)
  {
    if b == [] {
      assert a + b == a;
    } else {
      assert (a + b)[..|a + b| - 1] == a + b[..|b| - 1];
      PlayThen(s, a, b[..|b| - 1]);
    }
  }

  /** From screen s the reports lead to screen t. */
  predicate Plays(s: Screen, reports: seq<Report>, t: Screen) {
    PlayAll(s, reports) == Some(t)
  }

  lemma PlaysThen(s: Screen, a: seq<Report>, t: Screen, b: seq<Report>, u: Screen)
    requires Plays(s, a, t) && Plays(t, b, u)
    ensures Plays(s, a + b, u)
  {
    PlayThen(s, a, b);
  }

  lemma PlayOne(s: Screen, r: Report)
    ensures PlayAll(s, [r]) == Play(s, r)
  {
    assert [r][..0] == [];
    assert PlayAll(s, []) == Some(s);
  }

  // replay undoes encode

  /** The points a move from a takes the pointer through, the first k of them. */
  function Through(a: Point, dx: int, dy: int, k: nat): (points: seq<Point>)
    ensures |points| == k
  {
    if k == 0 then []
    else var p := PointOn(dx, dy, k); Through(a, dx, dy, k - 1) + [Point(a.x + p.x, a.y + p.y)]
  }

  function ThroughAll(a: Point, b: Point): seq<Point> {
    Through(a, b.x - a.x, b.y - a.y, StepCount(b.x - a.x, b.y - a.y))
  }

  /** The polyline the host draws for the stroke's first k segments. */
  function DrawnSegments(stroke: Stroke, k: nat): Stroke
    requires k < |stroke|
  {
    if k == 0 then [stroke[0]] else DrawnSegments(stroke, k - 1) + ThroughAll(stroke[k - 1], stroke[k])
  }

  function Drawn(stroke: Stroke): Stroke {
    DrawnSegments(stroke, |stroke| - 1)
  }

  function AllDrawn(strokes: seq<Stroke>): (lines: seq<Stroke>)
    ensures |lines| == |strokes| && forall k :: 0 <= k < |lines| ==> lines[k] == Drawn(strokes[k])
  {
    if strokes == [] then [] else AllDrawn(strokes[..|strokes| - 1]) + [Drawn(strokes[|strokes| - 1])]
  }

  /** The screen after k reports of a move with the button held, or up. */
  function HeldAfter(s: Screen, dx: int, dy: int, k: nat): Screen
    requires s.drawn != []
  {
    var p, n := PointOn(dx, dy, k), |s.drawn| - 1;
    Screen(Point(s.at.x + p.x, s.at.y + p.y), true, s.drawn[..n] + [s.drawn[n] + Through(s.at, dx, dy, k)], s.lifted)
  }

  lemma HeldStep(s: Screen, dx: int, dy: int, k: nat)
    requires s.drawn != [] && k > 0
    ensures var p, q := PointOn(dx, dy, k - 1), PointOn(dx, dy, k);
      Play(HeldAfter(s, dx, dy, k - 1), Report(1, ToByte(q.x - p.x), ToByte(q.y - p.y)))
        == Some(HeldAfter(s, dx, dy, k))
  {
    LineStep(dx, dy, k);
    var n := |s.drawn| - 1;
    var before, after := HeldAfter(s, dx, dy, k - 1), HeldAfter(s, dx, dy, k);
    assert before.drawn[..n] == s.drawn[..n];
    assert before.drawn[n] + [after.at] == after.drawn[n];
  }

  lemma LineReportsMore(dx: int, dy: int, buttons: Byte, k: nat)
    requires k > 0
    ensures var p, q, all := PointOn(dx, dy, k - 1), PointOn(dx, dy, k), LineReports(dx, dy, buttons, k);
      all != [] && all[..|all| - 1] == LineReports(dx, dy, buttons, k - 1)
      && all[|all| - 1] == Report(buttons, ToByte(q.x - p.x), ToByte(q.y - p.y))
  {
  }

  lemma {:induction false} PlayHeldLine(s: Screen, dx: int, dy: int, k: nat)
    requires s.held && s.drawn != []
    ensures PlayAll(s, LineReports(dx, dy, 1, k)) == Some(HeldAfter(s, dx, dy, k))
  {
    if k == 0 {
      RoundedEnds(dx, StepCount(dx, dy));
      RoundedEnds(dy, StepCount(dx, dy));
      var n := |s.drawn| - 1;
      assert s.drawn[n] + [] == s.drawn[n];
      assert s.drawn[..n] + [s.drawn[n]] == s.drawn;
    } else {
      PlayHeldLine(s, dx, dy, k - 1);
      LineReportsMore(dx, dy, 1, k);
      HeldStep(s, dx, dy, k);
    }
  }

  /** The moves made with the button up that change the pointer's place, among the first k. */
  function Lifts(a: Point, dx: int, dy: int, k: nat): seq<(Point, Point)> {
    if k == 0 then []
    else
      var p, q := PointOn(dx, dy, k - 1), PointOn(dx, dy, k);
      Lifts(a, dx, dy, k - 1)
      + if q != p then [(Point(a.x + p.x, a.y + p.y), Point(a.x + q.x, a.y + q.y))] else []
  }

  function UpAfter(s: Screen, dx: int, dy: int, k: nat): Screen {
    var p := PointOn(dx, dy, k);
    Screen(Point(s.at.x + p.x, s.at.y + p.y), false, s.drawn, s.lifted + Lifts(s.at, dx, dy, k))
  }

  lemma UpStep(s: Screen, dx: int, dy: int, k: nat)
    requires k > 0
    ensures var p, q := PointOn(dx, dy, k - 1), PointOn(dx, dy, k);
      Play(UpAfter(s, dx, dy, k - 1), Report(0, ToByte(q.x - p.x), ToByte(q.y - p.y))) == Some(UpAfter(s, dx, dy, k))
  {
    LineStep(dx, dy, k);
    LiftStep(s, dx, dy, k);
  }

  lemma LiftStep(s: Screen, dx: int, dy: int, k: nat)
    requires k > 0
    ensures var before, after := UpAfter(s, dx, dy, k - 1), UpAfter(s, dx, dy, k);
      after.lifted == if after.at != before.at then before.lifted + [(before.at, after.at)] else before.lifted
  {
    var p, q := PointOn(dx, dy, k - 1), PointOn(dx, dy, k);
    if p == q {
      assert Lifts(s.at, dx, dy, k) == Lifts(s.at, dx, dy, k - 1);
    } else {
      assert p.x != q.x || p.y != q.y by { assert p == Point(p.x, p.y) && q == Point(q.x, q.y); }
    }
  }

  lemma {:induction false} PlayUpLine(s: Screen, dx: int, dy: int, k: nat)
    requires !s.held
    ensures PlayAll(s, LineReports(dx, dy, 0, k)) == Some(UpAfter(s, dx, dy, k))
  {
    if k == 0 {
      RoundedEnds(dx, StepCount(dx, dy));
      RoundedEnds(dy, StepCount(dx, dy));
      assert s.lifted + [] == s.lifted;
      assert UpAfter(s, dx, dy, 0) == s;
    } else {
      PlayUpLine(s, dx, dy, k - 1);
      LineReportsMore(dx, dy, 0, k);
      UpStep(s, dx, dy, k);
    }
  }

  function LiftsAll(a: Point, b: Point): seq<(Point, Point)> {
    if a == b then [] else Lifts(a, b.x - a.x, b.y - a.y, StepCount(b.x - a.x, b.y - a.y))
  }

  lemma UpAtEnd(s: Screen, to: Point)
    requires !s.held && to != s.at
    ensures var dx, dy := to.x - s.at.x, to.y - s.at.y;
      UpAfter(s, dx, dy, StepCount(dx, dy)) == Screen(to, false, s.drawn, s.lifted + LiftsAll(s.at, to))
  {
    EndPoint(s.at, to);
  }

  /** A move with the button up takes the pointer exactly from one point to the other. */
  lemma PlayMove(s: Screen, to: Point)
    requires !s.held
    ensures Plays(s, MoveReports(s.at, to), Screen(to, false, s.drawn, s.lifted + LiftsAll(s.at, to)))
  {
    if to != s.at {
      var dx, dy := to.x - s.at.x, to.y - s.at.y;
      PlayUpLine(s, dx, dy, StepCount(dx, dy));
      UpAtEnd(s, to);
    } else {
      assert s.lifted + [] == s.lifted;
      assert PlayAll(s, []) == Some(s);
    }
  }

  /** A segment with the button held draws on exactly to its end. */
  lemma PlaySegment(s: Screen, a: Point, b: Point)
    requires s.held && s.drawn != [] && s.at == a
    ensures var n := |s.drawn| - 1;
      Plays(s, LineAll(b.x - a.x, b.y - a.y, 1),
            Screen(b, true, s.drawn[..n] + [s.drawn[n] + ThroughAll(a, b)], s.lifted))
  {
    var dx, dy := b.x - a.x, b.y - a.y;
    PlayHeldLine(s, dx, dy, StepCount(dx, dy));
    EndPoint(a, b);
  }

  lemma EndPoint(a: Point, b: Point)
    ensures var dx, dy := b.x - a.x, b.y - a.y;
      var p := PointOn(dx, dy, StepCount(dx, dy)); Point(a.x + p.x, a.y + p.y) == b
  {
    var dx, dy := b.x - a.x, b.y - a.y;
    RoundedEnds(dx, StepCount(dx, dy));
    RoundedEnds(dy, StepCount(dx, dy));
  }

  /** The screen once k segments of the stroke are drawn. */
  function Drawing(s: Screen, stroke: Stroke, k: nat): Screen
    requires k < |stroke|
  {
    Screen(stroke[k], true, s.drawn + [DrawnSegments(stroke, k)], s.lifted)
  }

  lemma {:induction false} PlaySegments(s: Screen, stroke: Stroke, k: nat)
    requires k < |stroke|
    ensures Plays(Drawing(s, stroke, 0), SegmentReports(stroke, k), Drawing(s, stroke, k))
  {
    if k > 0 {
      var before := Drawing(s, stroke, k - 1);
      PlaySegments(s, stroke, k - 1);
      PlaySegment(before, stroke[k - 1], stroke[k]);
      assert before.drawn[..|before.drawn| - 1] == s.drawn;
      PlaysThen(Drawing(s, stroke, 0), SegmentReports(stroke, k - 1), before,
                LineAll(stroke[k].x - stroke[k - 1].x, stroke[k].y - stroke[k - 1].y, 1), Drawing(s, stroke, k));
    }
  }

  /** The screen after a stroke. */
  function AfterStroke(s: Screen, stroke: Stroke): Screen {
    Screen(stroke[|stroke| - 1], false, s.drawn + [Drawn(stroke)], s.lifted + LiftsAll(s.at, stroke[0]))
  }

  /** A stroke's reports draw one polyline, and leave the button up at its last corner. */
  lemma PlayStroke(s: Screen, stroke: Stroke)
    requires !s.held
    ensures Plays(s, StrokeReports(s.at, stroke), AfterStroke(s, stroke))
  {
    var move, rest := MoveReports(s.at, stroke[0]), SegmentReports(stroke, |stroke| - 1);
    var up := Screen(stroke[0], false, s.drawn, s.lifted + LiftsAll(s.at, stroke[0]));
    var down, done := Drawing(up, stroke, 0), Drawing(up, stroke, |stroke| - 1);
    PlayMove(s, stroke[0]);
    PlayPress(up, stroke);
    PlaysThen(s, move, up, [PRESS], down);
    PlaySegments(up, stroke, |stroke| - 1);
    PlaysThen(s, move + [PRESS], down, rest, done);
    PlayRelease(done);
    PlaysThen(s, move + [PRESS] + rest, done, [RELEASE], AfterStroke(s, stroke));
  }

  lemma PlayPress(up: Screen, stroke: Stroke)
    requires !up.held && up.at == stroke[0]
    ensures Plays(up, [PRESS], Drawing(up, stroke, 0))
  {
    PlayOne(up, PRESS);
  }

  lemma PlayRelease(s: Screen)
    ensures Plays(s, [RELEASE], s.(held := false))
  {
    PlayOne(s, RELEASE);
    assert Point(s.at.x, s.at.y) == s.at;
  }

  function AllLifts(strokes: seq<Stroke>): seq<(Point, Point)> {
    if strokes == [] then []
    else
      var k := |strokes| - 1;
      AllLifts(strokes[..k]) + LiftsAll(Pen(strokes[..k]), strokes[k][0])
  }

  function AfterStrokes(strokes: seq<Stroke>): Screen {
    Screen(Pen(strokes), false, AllDrawn(strokes), AllLifts(strokes))
  }

  lemma AfterOneMore(strokes: seq<Stroke>)
    requires strokes != []
    ensures var k := |strokes| - 1; AfterStroke(AfterStrokes(strokes[..k]), strokes[k]) == AfterStrokes(strokes)
  {
  }

  lemma {:induction false} PlayStrokes(strokes: seq<Stroke>)
    ensures Plays(BLANK, StrokesReports(strokes), AfterStrokes(strokes))
  {
    if strokes != [] {
      var k := |strokes| - 1;
      PlayStrokes(strokes[..k]);
      PlayStroke(AfterStrokes(strokes[..k]), strokes[k]);
      AfterOneMore(strokes);
      PlaysThen(BLANK, StrokesReports(strokes[..k]), AfterStrokes(strokes[..k]),
                StrokeReports(Pen(strokes[..k]), strokes[k]), AfterStrokes(strokes));
    }
  }

  /** The host draws one polyline per stroke, in order, moves only between them, and ends where
      it began with the button up. */
  lemma ReplayUndoesEncode(strokes: seq<Stroke>)
    ensures PlayAll(BLANK, AllReports(strokes)) ==
      Some(Screen(ORIGIN, false, AllDrawn(strokes), AllLifts(strokes) + LiftsAll(Pen(strokes), ORIGIN)))
  {
    var home := Screen(ORIGIN, false, AllDrawn(strokes), AllLifts(strokes) + LiftsAll(Pen(strokes), ORIGIN));
    PlayStrokes(strokes);
    PlayMove(AfterStrokes(strokes), ORIGIN);
    PlaysThen(BLANK, StrokesReports(strokes), AfterStrokes(strokes), MoveReports(Pen(strokes), ORIGIN), home);
  }

  // the loop of replay

  datatype ReplayError = MinusOneTwentyEight(report: nat) | Incomplete

  /** The first k reports of draw.bin, after its first byte. */
  function ReportsIn(data: seq<Byte>, k: nat): seq<Report>
    requires k == 0 || 1 + 3 * k <= |data|
  {
    if k == 0 then []
    else ReportsIn(data, k - 1) + [Report(data[3 * k - 2], data[3 * k - 1], data[3 * k])]
  }

  lemma {:induction false} ReportsInPrefix(data: seq<Byte>, more: seq<Byte>, k: nat)
    requires 1 + 3 * k <= |data| && data <= more
    ensures ReportsIn(more, k) == ReportsIn(data, k)
  {
    if k > 0 {
      ReportsInPrefix(data, more, k - 1);
    }
  }

  /** Reading the bytes back gives the reports. */
  lemma {:induction false} ReportsOfFlat(wait: Byte, reports: seq<Report>)
    ensures ReportsIn([wait] + Flat(reports), |reports|) == reports
  {
    if reports != [] {
      var k := |reports| - 1;
      var less, all := [wait] + Flat(reports[..k]), [wait] + Flat(reports);
      ReportsOfFlat(wait, reports[..k]);
      assert less <= all;
      ReportsInPrefix(less, all, k);
      assert reports == reports[..k] + [reports[k]];
    }
  }

  /** How many reports draw.bin starts, whole or not. */
  function Whole(data: seq<Byte>): nat {
    if data == [] then 0 else (|data| - 1) / 3
  }

  /** What the host makes of draw.bin: nothing if a report is cut short or moves -128. */
  function Replayed(data: seq<Byte>): Option<Screen> {
    if data == [] || (|data| - 1) % 3 == 0 then PlayAll(BLANK, ReportsIn(data, Whole(data))) else None
  }

  method PlayNext(data: seq<Byte>, at: nat, ghost k: nat, screen: Screen) returns (next: Option<Screen>)
    requires at == 1 + 3 * k && at + 3 <= |data| && PlayAll(BLANK, ReportsIn(data, k)) == Some(screen)
    ensures next == PlayAll(BLANK, ReportsIn(data, k + 1))
  {
    next := Play(screen, Report(data[at], data[at + 1], data[at + 2]));
    PlayMore(BLANK, ReportsIn(data, k), Report(data[at], data[at + 1], data[at + 2]));
  }

  method Replay(data: seq<Byte>) returns (r: Result<Screen, ReplayError>)
    ensures r.Success? <==> Replayed(data).Some?
    ensures r.Success? ==> Replayed(data) == Some(r.value)
  {
    var screen := BLANK;
    var at := 1;
    ghost var k := 0;
    while at < |data|
      invariant at == 1 + 3 * k && (k == 0 || at <= |data|)
      invariant PlayAll(BLANK, ReportsIn(data, k)) == Some(screen)
    {
      if at + 3 > |data| { return Failure(Incomplete); }
      var next := PlayNext(data, at, k, screen);
      if next == None {
        NeverReplayed(data, k + 1);
        return Failure(MinusOneTwentyEight(at / 3));
      }
      screen := next.value;
      at, k := at + 3, k + 1;
    }
    return Success(screen);
  }

  lemma NeverReplayed(data: seq<Byte>, k: nat)
    requires 0 < k && 1 + 3 * k <= |data| && PlayAll(BLANK, ReportsIn(data, k)).None?
    ensures Replayed(data).None?
  {
    NoneStays(data, k, Whole(data));
  }

  lemma PlayMore(s: Screen, a: seq<Report>, r: Report)
    ensures PlayAll(s, a).None? ==> PlayAll(s, a + [r]).None?
    ensures PlayAll(s, a).Some? ==> PlayAll(s, a + [r]) == Play(PlayAll(s, a).value, r)
  {
    assert (a + [r])[..|a|] == a;
  }

  lemma {:induction false} NoneStays(data: seq<Byte>, k: nat, n: nat)
    requires k <= n && (n == 0 || 1 + 3 * n <= |data|) && PlayAll(BLANK, ReportsIn(data, k)).None?
    ensures PlayAll(BLANK, ReportsIn(data, n)).None?
  {
    if k < n {
      NoneStays(data, k, n - 1);
      PlayMore(BLANK, ReportsIn(data, n - 1), Report(data[3 * n - 2], data[3 * n - 1], data[3 * n]));
    }
  }

  /** Replaying what encode writes never fails: it draws each stroke once, in order, and ends
      where it began with the button up. */
  lemma EncodedReplays(strokes: seq<Stroke>, wait: Byte)
    ensures Replayed([wait] + Flat(AllReports(strokes))) ==
      Some(Screen(ORIGIN, false, AllDrawn(strokes), AllLifts(strokes) + LiftsAll(Pen(strokes), ORIGIN)))
  {
    var reports := AllReports(strokes);
    var data := [wait] + Flat(reports);
    ReportsOfFlat(wait, reports);
    ReplayUndoesEncode(strokes);
    assert Whole(data) == |reports|;
  }
}
