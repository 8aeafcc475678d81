/** A ring in screen pixels as `pen_path` of demo/outline.py takes it: which corners are left, and that
    the stroke round them is one round of all the ring's corners. */
module Circuits {
  import opened Rounding
  import opened Squares
  import opened Polyline

  type Loop = s: seq<Point> | |s| >= 2 witness [Point(0, 0), Point(1, 0)]

  /** A corner in pixels, x right and y down from the tile's top left corner. */
  function Screen(p: Vertex, height: real, scale: real): Point {
    Point(Round(Times(p.x, scale)), Round(Times(height - p.y, scale)))
  }

  /** The first k corners in pixels, without those that round onto the previous one. */
  function Apart(ring: seq<Vertex>, height: real, scale: real, k: nat): (points: seq<Point>)
    requires k <= |ring|
    ensures k > 0 ==> points != [] && points[0] == Screen(ring[0], height, scale)
    ensures k > 0 ==> points[|points| - 1] == Screen(ring[k - 1], height, scale)
    ensures forall i :: 0 < i < |points| ==> points[i] != points[i - 1]
  {
    if k == 0 then []
    else
      var before, p := Apart(ring, height, scale, k - 1), Screen(ring[k - 1], height, scale);
      if before == [] || p != before[|before| - 1] then before + [p] else before
  }

  /** Without the last corners that round onto the first. */
  function Open(points: seq<Point>): (open: seq<Point>)
    ensures open <= points && (points != [] ==> open != [])
    ensures |open| > 1 ==> open[|open| - 1] != open[0]
  {
    if |points| > 1 && points[|points| - 1] == points[0] then Open(points[..|points| - 1]) else points
  }

  function Pixels(ring: seq<Vertex>, height: real, scale: real): seq<Point> {
    Open(Apart(ring, height, scale, |ring|))
  }

  method BuildPixels(ring: seq<Vertex>, height: real, scale: real) returns (points: seq<Point>)
    ensures points == Pixels(ring, height, scale)
  {
    points := [];
    var k := 0;
    while k < |ring|
      invariant 0 <= k <= |ring| && points == Apart(ring, height, scale, k)
    {
      var p := Screen(ring[k], height, scale);
      if points == [] || p != points[|points| - 1] { points := points + [p]; }
      k := k + 1;
    }
    ghost var whole := points;
    while |points| > 1 && points[|points| - 1] == points[0]
      invariant Open(points) == Open(whole)
    {
      points := points[..|points| - 1];
    }
  }

  /** A ring drawn from its corner k round to it again. */
  function Closed(ring: Loop, k: nat): (stroke: seq<Point>)
    requires k < |ring|
    ensures |stroke| == |ring| + 1 >= 3 && stroke[0] == stroke[|ring|] == ring[k]
    ensures forall i :: 0 <= i < |ring| ==> stroke[i] == ring[if k + i < |ring| then k + i else k + i - |ring|]
  {
    ring[k..] + ring[..k] + [ring[k]]
  }

  // one round of the ring

  /** The pixel nearest to a corner, x right and y down from the top left corner. */
  ghost predicate AtPixel(v: Vertex, height: real, scale: real, p: Point) {
    IsRounded(p.x, v.x * scale) && IsRounded(p.y, (height - v.y) * scale)
  }

  lemma AtPixelIsScreen(v: Vertex, height: real, scale: real, p: Point)
    ensures AtPixel(v, height, scale, p) <==> p == Screen(v, height, scale)
  {
    RoundIs(v.x * scale, p.x);
    RoundIs((height - v.y) * scale, p.y);
  }

  /** The corner i corners on from corner c, round the ring. */
  function On(count: nat, c: nat, i: nat): (n: nat)
    requires c < count && i <= count
    ensures n < count && (n == c + i || n == c + i - count)
  {
    if c + i < count then c + i else c + i - count
  }

  /** The stroke passes the pixels of the ring's corners, one after the other from corner c round to
      it again: at[i] is where it passes the i-th. It has no other points, and no point twice in a row. */
  ghost predicate GoesRound(stroke: seq<Point>, ring: seq<Vertex>, height: real, scale: real, c: nat, at: seq<nat>) {
    && c < |ring| && |at| == |ring| + 1 && |stroke| > 0
    && at[0] == 0 && at[|ring|] == |stroke| - 1
    && (forall i :: 0 <= i < |ring| ==> at[i] <= at[i + 1] <= at[i] + 1)
    && (forall i: nat :: i <= |ring| ==>
          at[i] < |stroke| && AtPixel(ring[On(|ring|, c, i)], height, scale, stroke[at[i]]))
    && forall j :: 0 < j < |stroke| ==> stroke[j] != stroke[j - 1]
  }

  /** Two of the ring's corners lie in different pixels. */
  ghost predicate IsWide(ring: seq<Vertex>, height: real, scale: real) {
    exists i: nat, j: nat :: AreApart(ring, height, scale, i, j)
  }

  ghost predicate AreApart(ring: seq<Vertex>, height: real, scale: real, i: nat, j: nat) {
    i < |ring| && j < |ring| && Screen(ring[i], height, scale) != Screen(ring[j], height, scale)
  }

  /** Which of the pixels that do not repeat the one before the i-th corner is at. */
  function PlaceOf(ring: seq<Vertex>, height: real, scale: real, i: nat): nat
    requires i < |ring|
  {
    |Apart(ring, height, scale, i + 1)| - 1
  }

  lemma {:induction false} PlaceThere(ring: seq<Vertex>, height: real, scale: real, i: nat, k: nat)
    requires i < k <= |ring|
    ensures var place, points := PlaceOf(ring, height, scale, i), Apart(ring, height, scale, k);
      place < |points| && points[place] == Screen(ring[i], height, scale)
  {
    if i < k - 1 { PlaceThere(ring, height, scale, i, k - 1); }
  }

  lemma PlaceNext(ring: seq<Vertex>, height: real, scale: real, i: nat)
    requires i + 1 < |ring|
    ensures PlaceOf(ring, height, scale, i) <= PlaceOf(ring, height, scale, i + 1)
            <= PlaceOf(ring, height, scale, i) + 1
  {
  }

  lemma {:induction false} PlaceGrows(ring: seq<Vertex>, height: real, scale: real, i: nat, j: nat)
    requires i <= j < |ring|
    ensures PlaceOf(ring, height, scale, i) <= PlaceOf(ring, height, scale, j)
  {
    if i < j {
      PlaceGrows(ring, height, scale, i, j - 1);
      PlaceNext(ring, height, scale, j - 1);
    }
  }

  /** At most one pixel is dropped at the end. */
  lemma OpenDropsOne(points: seq<Point>)
    requires forall i :: 0 < i < |points| ==> points[i] != points[i - 1]
    ensures var n := |Open(points)|; |points| == n || (|points| == n + 1 && points[n] == points[0])
  {
    if |points| > 1 && points[|points| - 1] == points[0] {
      var less := points[..|points| - 1];
      assert less[|less| - 1] != points[|points| - 1];
    }
  }

  /** What is known of the pixels left: where every corner is among them. */
  lemma CornerIn(ring: seq<Vertex>, height: real, scale: real, i: nat)
    requires i < |ring|
    ensures var place, points := PlaceOf(ring, height, scale, i), Pixels(ring, height, scale);
      && place <= |points| && points != []
      && points[if place == |points| then 0 else place] == Screen(ring[i], height, scale)
  {
    var whole, points := Apart(ring, height, scale, |ring|), Pixels(ring, height, scale);
    PlaceThere(ring, height, scale, i, |ring|);
    OpenDropsOne(whole);
    var place := PlaceOf(ring, height, scale, i);
    assert points == whole[..|points|] && points != [];
    if place < |points| { assert points[place] == whole[place]; } else { assert points[0] == whole[0] == whole[place]; }
  }

  /** The first corner at a pixel. */
  lemma {:induction false} FirstAt(ring: seq<Vertex>, height: real, scale: real, k: nat, i: nat) returns (c: nat)
    requires i < |ring| && k <= PlaceOf(ring, height, scale, i)
    ensures c <= i && PlaceOf(ring, height, scale, c) == k
    ensures forall j: nat :: j < c ==> PlaceOf(ring, height, scale, j) < k
  {
    if i > 0 && k <= PlaceOf(ring, height, scale, i - 1) {
      c := FirstAt(ring, height, scale, k, i - 1);
    } else {
      c := i;
      PlaceFirst(ring, height, scale);
      if i > 0 {
        PlaceNext(ring, height, scale, i - 1);
        forall j: nat | j < i ensures PlaceOf(ring, height, scale, j) < k {
          PlaceGrows(ring, height, scale, j, i - 1);
        }
      }
    }
  }

  lemma LastPlace(ring: seq<Vertex>, height: real, scale: real)
    requires |ring| > 0
    ensures |Pixels(ring, height, scale)| - 1 <= PlaceOf(ring, height, scale, |ring| - 1)
            <= |Pixels(ring, height, scale)|
  {
    OpenDropsOne(Apart(ring, height, scale, |ring|));
  }

  /** Where the stroke from pixel k of so many, and corner c, passes the i-th corner on. */
  function PassedAt(ring: seq<Vertex>, height: real, scale: real, count: nat, k: nat, c: nat, i: nat): int
    requires c < |ring| && i <= |ring|
  {
    if c + i < |ring| then PlaceOf(ring, height, scale, c + i) - k
    else PlaceOf(ring, height, scale, c + i - |ring|) + count - k
  }

  /** Corner c is the first at pixel k; the last corner is at the last pixel or the first again. */
  ghost predicate StartsAt(ring: seq<Vertex>, height: real, scale: real, count: nat, k: nat, c: nat) {
    && c < |ring| && k < count && PlaceOf(ring, height, scale, c) == k
    && count - 1 <= PlaceOf(ring, height, scale, |ring| - 1) <= count
    && forall j: nat :: j < c ==> PlaceOf(ring, height, scale, j) < k
  }

  lemma PassedNext(ring: seq<Vertex>, height: real, scale: real, count: nat, k: nat, c: nat, i: nat)
    requires StartsAt(ring, height, scale, count, k, c) && i < |ring|
    ensures var here := PassedAt(ring, height, scale, count, k, c, i);
      here <= PassedAt(ring, height, scale, count, k, c, i + 1) <= here + 1
  {
    if c + i + 1 < |ring| {
      PlaceNext(ring, height, scale, c + i);
    } else if c + i + 1 == |ring| {
      PlaceFirst(ring, height, scale);
    } else {
      PlaceNext(ring, height, scale, c + i - |ring|);
    }
  }

  lemma PlaceFirst(ring: seq<Vertex>, height: real, scale: real)
    requires |ring| > 0
    ensures PlaceOf(ring, height, scale, 0) == 0
  {
    assert Apart(ring, height, scale, 0) == [];
  }

  /** The i-th corner on lies between pixel k and pixel k again. */
  lemma PassedWithin(ring: seq<Vertex>, height: real, scale: real, count: nat, k: nat, c: nat, i: nat)
    requires StartsAt(ring, height, scale, count, k, c) && i <= |ring|
    ensures var corner, at := On(|ring|, c, i), PassedAt(ring, height, scale, count, k, c, i);
      var place := PlaceOf(ring, height, scale, corner);
      0 <= at <= count && place == if at + k <= count && c + i < |ring| then k + at else k + at - count
  {
    if c + i < |ring| {
      PlaceGrows(ring, height, scale, c, c + i);
      PlaceGrows(ring, height, scale, c + i, |ring| - 1);
    } else if c + i - |ring| < c {
      assert PlaceOf(ring, height, scale, c + i - |ring|) < k;
    }
  }

  lemma PassedThere(ring: seq<Vertex>, height: real, scale: real, points: Loop, k: nat, c: nat, i: nat)
    requires points == Pixels(ring, height, scale) && StartsAt(ring, height, scale, |points|, k, c) && i <= |ring|
    ensures var at := PassedAt(ring, height, scale, |points|, k, c, i);
      0 <= at < |Closed(points, k)| && Closed(points, k)[at] == Screen(ring[On(|ring|, c, i)], height, scale)
  {
    PassedWithin(ring, height, scale, |points|, k, c, i);
    CornerIn(ring, height, scale, On(|ring|, c, i));
  }

  lemma ClosedMoves(points: Loop, k: nat)
    requires k < |points| && points[|points| - 1] != points[0]
             && forall i :: 0 < i < |points| ==> points[i] != points[i - 1]
    ensures forall j :: 0 < j < |Closed(points, k)| ==> Closed(points, k)[j] != Closed(points, k)[j - 1]
  {
  }

  /** The stroke from pixel k goes round the ring, from the first corner there. */
  lemma ClosedGoesRound(ring: seq<Vertex>, height: real, scale: real, points: Loop, k: nat)
    returns (c: nat, at: seq<nat>)
    requires points == Pixels(ring, height, scale) && k < |points|
    ensures StartsAt(ring, height, scale, |points|, k, c)
    ensures GoesRound(Closed(points, k), ring, height, scale, c, at)
  {
    LastPlace(ring, height, scale);
    c := FirstAt(ring, height, scale, k, |ring| - 1);
    forall i: nat | i <= |ring| ensures PassedAt(ring, height, scale, |points|, k, c, i) >= 0 {
      PassedThere(ring, height, scale, points, k, c, i);
    }
    at := seq(|ring| + 1, i requires 0 <= i <= |ring| => PassedAt(ring, height, scale, |points|, k, c, i));
    PassesRound(ring, height, scale, points, k, c, at);
  }

  lemma PassesRound(ring: seq<Vertex>, height: real, scale: real, points: Loop, k: nat, c: nat, at: seq<nat>)
    requires points == Pixels(ring, height, scale) && StartsAt(ring, height, scale, |points|, k, c)
    requires |at| == |ring| + 1
    requires forall i: nat :: i <= |ring| ==> at[i] == PassedAt(ring, height, scale, |points|, k, c, i)
    ensures GoesRound(Closed(points, k), ring, height, scale, c, at)
  {
    forall i: nat | i < |ring| ensures at[i] <= at[i + 1] <= at[i] + 1 {
      PassedNext(ring, height, scale, |points|, k, c, i);
    }
    forall i: nat | i <= |ring|
      ensures at[i] < |Closed(points, k)| && AtPixel(ring[On(|ring|, c, i)], height, scale, Closed(points, k)[at[i]])
    {
      PassedThere(ring, height, scale, points, k, c, i);
      AtPixelIsScreen(ring[On(|ring|, c, i)], height, scale, Closed(points, k)[at[i]]);
    }
    ClosedMoves(points, k);
  }

  /** Two pixels are left exactly of a wide ring. */
  lemma WideHasTwo(ring: seq<Vertex>, height: real, scale: real)
    ensures |Pixels(ring, height, scale)| >= 2 <==> IsWide(ring, height, scale)
  {
    var points := Pixels(ring, height, scale);
    if IsWide(ring, height, scale) {
      var i: nat, j: nat :| AreApart(ring, height, scale, i, j);
      CornerIn(ring, height, scale, i);
      CornerIn(ring, height, scale, j);
    }
    if |points| >= 2 {
      LastPlace(ring, height, scale);
      var i := FirstAt(ring, height, scale, 0, |ring| - 1);
      var j := FirstAt(ring, height, scale, 1, |ring| - 1);
      CornerIn(ring, height, scale, i);
      CornerIn(ring, height, scale, j);
      assert points[1] != points[0];
      assert AreApart(ring, height, scale, i, j);
    }
  }

  // all rings, the nearest next

  /** Where the pen is before stroke i. */
  function PenAt(pen: Point, strokes: seq<seq<Point>>, i: nat): Point
    requires i <= |strokes| && forall k :: 0 <= k < |strokes| ==> |strokes[k]| > 0
  {
    if i == 0 then pen else strokes[i - 1][0]
  }

  /** q, at corner c of ring n, is nearer to the pen than p, at corner j of ring m, or as near and listed first. */
  predicate ComesFirst(pen: Point, q: Point, n: nat, c: nat, p: Point, m: nat, j: nat) {
    var dq := (q.x - pen.x) * (q.x - pen.x) + (q.y - pen.y) * (q.y - pen.y);
    var dp := (p.x - pen.x) * (p.x - pen.x) + (p.y - pen.y) * (p.y - pen.y);
    dq < dp || (dq == dp && (n < m || (n == m && c <= j)))
  }

  /** The i-th stroke goes round ring of[i] from its corner from[i], which of all corners of the rings
      that are still to come is nearest to the pen. */
  ghost predicate DrawsOne(rings: seq<seq<Vertex>>, height: real, scale: real, pen: Point, strokes: seq<seq<Point>>,
                           of: seq<nat>, from: seq<nat>, i: nat)
    requires |of| == |from| == |strokes| && i < |strokes|
  {
    && of[i] < |rings| && (forall k :: 0 <= k < |strokes| ==> |strokes[k]| > 0)
    && (exists at :: GoesRound(strokes[i], rings[of[i]], height, scale, from[i], at))
    && forall m: nat, j: nat :: m in of[i..] && m < |rings| && j < |rings[m]| ==>
         ComesFirst(PenAt(pen, strokes, i), strokes[i][0], of[i], from[i], Screen(rings[m][j], height, scale), m, j)
  }

  /** Each wide ring is drawn by one stroke, the nearest next, and no other. */
  ghost predicate DrawsRings(rings: seq<seq<Vertex>>, height: real, scale: real, pen: Point, strokes: seq<seq<Point>>,
                             of: seq<nat>, from: seq<nat>)
  {
    && |of| == |from| == |strokes|
    && (forall i, j :: 0 <= i < j < |of| ==> of[i] != of[j])
    && (forall k: nat :: k in of <==> k < |rings| && IsWide(rings[k], height, scale))
    && forall i: nat :: i < |strokes| ==> DrawsOne(rings, height, scale, pen, strokes, of, from, i)
  }

  ghost predicate DrawsWideRings(rings: seq<seq<Vertex>>, height: real, scale: real, pen: Point,
                                 strokes: seq<seq<Point>>) {
    exists of, from :: DrawsRings(rings, height, scale, pen, strokes, of, from)
  }
}
