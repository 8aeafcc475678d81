/** `pen_path` of demo/outline.py: rings in screen pixels, the nearest one drawn next. */
module PenPath {
  import opened Rounding
  import opened Squares
  import opened Polyline
  import opened Circuits

  /** The rings left to draw: those of two pixels or more. */
  function Rings(rings: seq<seq<Vertex>>, height: real, scale: real): seq<Loop> {
    if rings == [] then []
    else
      var before := Rings(rings[..|rings| - 1], height, scale);
      var points := Pixels(rings[|rings| - 1], height, scale);
      if |points| >= 2 then before + [points] else before
  }

  function Between2(p: Point, q: Point): nat {
    SquareNat(p.x - q.x);
    SquareNat(p.y - q.y);
    (p.x - q.x) * (p.x - q.x) + (p.y - q.y) * (p.y - q.y)
  }

  lemma SquareNat(a: int)
    ensures a * a >= 0
  {
  }

  predicate IsCorner(todo: seq<Loop>, n: nat, k: nat) {
    n < |todo| && k < |todo[n]|
  }

  /** Corner (n, k) comes before corner (m, j): nearer to the pen, or as near and listed first. */
  predicate Sooner(todo: seq<Loop>, pen: Point, n: nat, k: nat, m: nat, j: nat)
    requires IsCorner(todo, n, k) && IsCorner(todo, m, j)
  {
    var d, e := Between2(pen, todo[n][k]), Between2(pen, todo[m][j]);
    d < e || (d == e && (n < m || (n == m && k <= j)))
  }

  ghost predicate IsNearest(todo: seq<Loop>, pen: Point, n: nat, k: nat) {
    IsCorner(todo, n, k) && forall m: nat, j: nat :: IsCorner(todo, m, j) ==> Sooner(todo, pen, n, k, m, j)
  }

  method FindNearest(todo: seq<Loop>, pen: Point) returns (n: nat, k: nat)
    requires todo != []
    ensures IsNearest(todo, pen, n, k)
  {
    n, k := 0, 0;
    var m := 0;
    while m < |todo|
      invariant 0 <= m <= |todo| && IsCorner(todo, n, k)
      invariant forall u: nat, v: nat :: IsCorner(todo, u, v) && u < m ==> Sooner(todo, pen, n, k, u, v)
      invariant n < m || (n == 0 && k == 0)
    {
      var j := 0;
      while j < |todo[m]|
        invariant 0 <= j <= |todo[m]| && IsCorner(todo, n, k)
        invariant forall u: nat, v: nat :: IsCorner(todo, u, v) && (u < m || (u == m && v < j)) ==>
                  Sooner(todo, pen, n, k, u, v)
        invariant n < m || (n == m && k < j) || (n == 0 && k == 0)
      {
        if Between2(pen, todo[m][j]) < Between2(pen, todo[n][k]) {
          n, k := m, j;
        }
        j := j + 1;
      }
      m := m + 1;
    }
  }

  lemma NearestUnique(todo: seq<Loop>, pen: Point, n: nat, k: nat, m: nat, j: nat)
    requires IsNearest(todo, pen, n, k) && IsNearest(todo, pen, m, j)
    ensures n == m && k == j
  {
    assert Sooner(todo, pen, n, k, m, j) && Sooner(todo, pen, m, j, n, k);
  }

  datatype Pick = Pick(ring: Loop, k: nat)

  ghost predicate Picked(pick: Pick, stroke: seq<Point>) {
    pick.k < |pick.ring| && stroke == Closed(pick.ring, pick.k)
  }

  function Without(todo: seq<Loop>, n: nat): seq<Loop>
    requires n < |todo|
  {
    todo[..n] + todo[n + 1..]
  }

  /** The strokes draw the rings one after the other, always the one with the corner nearest to
      the pen, from that corner. */
  ghost predicate DrawsNearest(todo: seq<Loop>, pen: Point, strokes: seq<seq<Point>>)
    decreases |todo|, 1
  {
    if todo == [] then strokes == []
    else
      strokes != [] && (exists n: nat, k: nat :: DrawsThen(todo, pen, strokes, n, k))
  }

  ghost predicate DrawsThen(todo: seq<Loop>, pen: Point, strokes: seq<seq<Point>>, n: nat, k: nat)
    requires strokes != []
    decreases |todo|, 0
  {
    && IsNearest(todo, pen, n, k) && strokes[0] == Closed(todo[n], k)
    && DrawsNearest(Without(todo, n), todo[n][k], strokes[1..])
  }

  /** Every ring is drawn exactly once. */
  lemma {:induction false} DrawsEachOnce(todo: seq<Loop>, pen: Point, strokes: seq<seq<Point>>)
    returns (picks: seq<Pick>)
    requires DrawsNearest(todo, pen, strokes)
    ensures |picks| == |strokes| == |todo| && multiset(RingsOf(picks)) == multiset(todo)
    ensures forall i :: 0 <= i < |picks| ==> Picked(picks[i], strokes[i])
    decreases |todo|
  {
    if todo == [] {
      picks := [];
    } else {
      var n: nat, k: nat :| DrawsThen(todo, pen, strokes, n, k);
      var rest := DrawsEachOnce(Without(todo, n), todo[n][k], strokes[1..]);
      picks := [Pick(todo[n], k)] + rest;
      assert todo == todo[..n] + [todo[n]] + todo[n + 1..];
      assert RingsOf(picks) == [todo[n]] + RingsOf(rest);
    }
  }

  function RingsOf(picks: seq<Pick>): (rings: seq<Loop>)
    ensures |rings| == |picks|
  {
    seq(|picks|, i requires 0 <= i < |picks| => picks[i].ring)
  }

  method BuildRings(rings: seq<seq<Vertex>>, height: real, scale: real) returns (todo: seq<Loop>)
    ensures todo == Rings(rings, height, scale)
  {
    todo := [];
    var n := 0;
    while n < |rings|
      invariant 0 <= n <= |rings| && todo == Rings(rings[..n], height, scale)
    {
      assert rings[..n + 1][..n] == rings[..n];
      var points := BuildPixels(rings[n], height, scale);
      if |points| >= 2 { todo := todo + [points]; }
      n := n + 1;
    }
    assert rings[..n] == rings;
  }

  // which rings are drawn

  /** Which of the rings these loops are, in order. */
  ghost predicate TodoOf(rings: seq<seq<Vertex>>, height: real, scale: real, todo: seq<Loop>, which: seq<nat>) {
    && |which| == |todo| && (forall i, j :: 0 <= i < j < |which| ==> which[i] < which[j])
    && forall i :: 0 <= i < |which| ==> which[i] < |rings| && todo[i] == Pixels(rings[which[i]], height, scale)
  }

  /** They are the wide ones, and no others. */
  ghost predicate AreWide(rings: seq<seq<Vertex>>, height: real, scale: real, which: seq<nat>) {
    forall k: nat :: k in which <==> k < |rings| && IsWide(rings[k], height, scale)
  }

  /** The loops to draw are those of the wide rings, each once. */
  lemma {:induction false} RingsAreWide(rings: seq<seq<Vertex>>, height: real, scale: real) returns (which: seq<nat>)
    ensures TodoOf(rings, height, scale, Rings(rings, height, scale), which) && AreWide(rings, height, scale, which)
  {
    if rings == [] {
      which := [];
    } else {
      var front, ring := rings[..|rings| - 1], rings[|rings| - 1];
      which := RingsAreWide(front, height, scale);
      WideHasTwo(ring, height, scale);
      assert rings == front + [ring];
      if |Pixels(ring, height, scale)| >= 2 {
        WideMore(front, height, scale, Rings(front, height, scale), which, ring);
        which := which + [|front|];
      } else {
        WideStill(front, height, scale, Rings(front, height, scale), which, ring);
      }
    }
  }

  lemma WideMore(rings: seq<seq<Vertex>>, height: real, scale: real, todo: seq<Loop>, which: seq<nat>,
                 ring: seq<Vertex>)
    requires TodoOf(rings, height, scale, todo, which) && AreWide(rings, height, scale, which)
    requires |Pixels(ring, height, scale)| >= 2 && IsWide(ring, height, scale)
    ensures TodoOf(rings + [ring], height, scale, todo + [Pixels(ring, height, scale)], which + [|rings|])
    ensures AreWide(rings + [ring], height, scale, which + [|rings|])
  {
    forall i | 0 <= i < |which| ensures which[i] < |rings| {
      assert which[i] in which;
    }
  }

  lemma WideStill(rings: seq<seq<Vertex>>, height: real, scale: real, todo: seq<Loop>, which: seq<nat>,
                  ring: seq<Vertex>)
    requires TodoOf(rings, height, scale, todo, which) && AreWide(rings, height, scale, which)
    requires !IsWide(ring, height, scale)
    ensures TodoOf(rings + [ring], height, scale, todo, which) && AreWide(rings + [ring], height, scale, which)
  {
  }

  lemma TodoWithout(rings: seq<seq<Vertex>>, height: real, scale: real, todo: seq<Loop>, which: seq<nat>, n: nat)
    requires TodoOf(rings, height, scale, todo, which) && n < |todo|
    ensures TodoOf(rings, height, scale, Without(todo, n), which[..n] + which[n + 1..])
    ensures forall m: nat :: m in which[..n] + which[n + 1..] <==> m in which && m != which[n]
  {
  }

  /** Where a ring's corner is among its pixels; if the stroke starts there or before, it does so no
      later on the ring. */
  lemma CornerOfLoop(ring: seq<Vertex>, height: real, scale: real, points: Loop, j: nat) returns (v: nat)
    requires points == Pixels(ring, height, scale) && j < |ring|
    ensures v < |points| && points[v] == Screen(ring[j], height, scale)
    ensures forall k: nat, c: nat :: StartsAt(ring, height, scale, |points|, k, c) && k <= v ==> c <= j
  {
    CornerIn(ring, height, scale, j);
    PlaceFirst(ring, height, scale);
    var place := PlaceOf(ring, height, scale, j);
    v := if place == |points| then 0 else place;
  }

  /** The nearest corner of the loops is the nearest of the rings'. */
  lemma NearestOfRings(rings: seq<seq<Vertex>>, height: real, scale: real, todo: seq<Loop>, which: seq<nat>, pen: Point,
                       n: nat, k: nat, c: nat, m: nat, j: nat)
    requires TodoOf(rings, height, scale, todo, which) && IsNearest(todo, pen, n, k)
    requires StartsAt(rings[which[n]], height, scale, |todo[n]|, k, c) && m in which && j < |rings[m]|
    ensures ComesFirst(pen, todo[n][k], which[n], c, Screen(rings[m][j], height, scale), m, j)
  {
    var u: nat :| u < |which| && which[u] == m;
    var v := CornerOfLoop(rings[m], height, scale, todo[u], j);
    assert IsCorner(todo, u, v) && Sooner(todo, pen, n, k, u, v);
    SameOrder(which, n, u);
    SoonerComesFirst(todo, pen, n, k, u, v, which[n], c, m, j);
  }

  lemma SameOrder(which: seq<nat>, n: nat, u: nat)
    requires n < |which| && u < |which| && forall i, j :: 0 <= i < j < |which| ==> which[i] < which[j]
    ensures n < u ==> which[n] < which[u]
  {
  }

  lemma SoonerComesFirst(todo: seq<Loop>, pen: Point, n: nat, k: nat, u: nat, v: nat, ring: nat, c: nat, m: nat, j: nat)
    requires IsCorner(todo, n, k) && IsCorner(todo, u, v) && Sooner(todo, pen, n, k, u, v)
    requires n < u ==> ring < m
    requires n == u && k <= v ==> ring == m && c <= j
    ensures ComesFirst(pen, todo[n][k], ring, c, todo[u][v], m, j)
  {
    SameBetween(pen, todo[n][k]);
    SameBetween(pen, todo[u][v]);
  }

  lemma SameBetween(pen: Point, q: Point)
    ensures Between2(pen, q) == (q.x - pen.x) * (q.x - pen.x) + (q.y - pen.y) * (q.y - pen.y)
  {
    assert (q.x - pen.x) * (q.x - pen.x) == (pen.x - q.x) * (pen.x - q.x);
    assert (q.y - pen.y) * (q.y - pen.y) == (pen.y - q.y) * (pen.y - q.y);
  }

  /** Each of these rings is drawn once, the nearest next. */
  ghost predicate DrawsThese(rings: seq<seq<Vertex>>, height: real, scale: real, pen: Point, strokes: seq<seq<Point>>,
                             which: seq<nat>, of: seq<nat>, from: seq<nat>)
  {
    && |of| == |from| == |strokes|
    && (forall i, j :: 0 <= i < j < |of| ==> of[i] != of[j])
    && (forall m: nat :: m in of <==> m in which)
    && forall i: nat :: i < |strokes| ==> DrawsOne(rings, height, scale, pen, strokes, of, from, i)
  }

  lemma {:induction false} StrokesGoRound(rings: seq<seq<Vertex>>, height: real, scale: real, todo: seq<Loop>,
                                          which: seq<nat>, pen: Point, strokes: seq<seq<Point>>)
    returns (of: seq<nat>, from: seq<nat>)
    requires TodoOf(rings, height, scale, todo, which) && DrawsNearest(todo, pen, strokes)
    ensures DrawsThese(rings, height, scale, pen, strokes, which, of, from)
    decreases |todo|
  {
    if todo == [] {
      of, from := [], [];
    } else {
      var n: nat, k: nat :| DrawsThen(todo, pen, strokes, n, k);
      var less := which[..n] + which[n + 1..];
      TodoWithout(rings, height, scale, todo, which, n);
      var laterOf, laterFrom := StrokesGoRound(rings, height, scale, Without(todo, n), less, todo[n][k], strokes[1..]);
      of, from := StrokeFirst(rings, height, scale, todo, which, pen, strokes, n, k, less, laterOf, laterFrom);
    }
  }

  /** The nearest loop is drawn, then the rest. */
  lemma StrokeFirst(rings: seq<seq<Vertex>>, height: real, scale: real, todo: seq<Loop>, which: seq<nat>, pen: Point,
                    strokes: seq<seq<Point>>, n: nat, k: nat, less: seq<nat>, laterOf: seq<nat>, laterFrom: seq<nat>)
    returns (of: seq<nat>, from: seq<nat>)
    requires TodoOf(rings, height, scale, todo, which) && IsNearest(todo, pen, n, k)
    requires strokes != [] && strokes[0] == Closed(todo[n], k)
    requires forall m: nat :: m in less <==> m in which && m != which[n]
    requires DrawsThese(rings, height, scale, todo[n][k], strokes[1..], less, laterOf, laterFrom)
    ensures DrawsThese(rings, height, scale, pen, strokes, which, of, from)
  {
    var c, at := ClosedGoesRound(rings[which[n]], height, scale, todo[n], k);
    of, from := [which[n]] + laterOf, [c] + laterFrom;
    assert forall m: nat :: m in [which[n]] + less <==> m in which;
    NearestIsFirst(rings, height, scale, todo, which, pen, n, k, c, of);
    SomeStrokes(rings, height, scale, less, todo[n][k], strokes[1..], laterOf, laterFrom);
    StrokeThenRest(rings, height, scale, pen, strokes, less, which[n], c, at, laterOf, laterFrom);
  }

  lemma SomeStrokes(rings: seq<seq<Vertex>>, height: real, scale: real, less: seq<nat>, pen: Point,
                    strokes: seq<seq<Point>>, of: seq<nat>, from: seq<nat>)
    requires DrawsThese(rings, height, scale, pen, strokes, less, of, from)
    ensures forall k :: 0 <= k < |strokes| ==> |strokes[k]| > 0
  {
    if strokes != [] { assert DrawsOne(rings, height, scale, pen, strokes, of, from, 0); }
  }

  lemma NearestIsFirst(rings: seq<seq<Vertex>>, height: real, scale: real, todo: seq<Loop>, which: seq<nat>, pen: Point,
                       n: nat, k: nat, c: nat, of: seq<nat>)
    requires TodoOf(rings, height, scale, todo, which) && IsNearest(todo, pen, n, k)
    requires StartsAt(rings[which[n]], height, scale, |todo[n]|, k, c) && forall m: nat :: m in of ==> m in which
    ensures IsFirstOf(rings, height, scale, pen, todo[n][k], which[n], c, of)
  {
    forall m: nat, j: nat | m in of && m < |rings| && j < |rings[m]|
      ensures ComesFirst(pen, todo[n][k], which[n], c, Screen(rings[m][j], height, scale), m, j)
    {
      NearestOfRings(rings, height, scale, todo, which, pen, n, k, c, m, j);
    }
  }

  /** Of all corners of these rings this is the nearest to the pen. */
  ghost predicate IsFirstOf(rings: seq<seq<Vertex>>, height: real, scale: real, pen: Point, q: Point, n: nat, c: nat,
                            of: seq<nat>) {
    forall m: nat, j: nat :: m in of && m < |rings| && j < |rings[m]| ==>
      ComesFirst(pen, q, n, c, Screen(rings[m][j], height, scale), m, j)
  }

  lemma StrokeThenRest(rings: seq<seq<Vertex>>, height: real, scale: real, pen: Point, strokes: seq<seq<Point>>,
                       less: seq<nat>, n: nat, c: nat, at: seq<nat>, of: seq<nat>, from: seq<nat>)
    requires strokes != [] && |strokes[0]| > 0 && n < |rings| && n !in less
    requires DrawsThese(rings, height, scale, strokes[0][0], strokes[1..], less, of, from)
    requires GoesRound(strokes[0], rings[n], height, scale, c, at)
    requires IsFirstOf(rings, height, scale, pen, strokes[0][0], n, c, [n] + of)
    requires forall k :: 0 < k < |strokes| ==> |strokes[k]| > 0
    ensures DrawsThese(rings, height, scale, pen, strokes, [n] + less, [n] + of, [c] + from)
  {
    DistinctMore(n, less, of);
    forall i: nat | i < |strokes| ensures DrawsOne(rings, height, scale, pen, strokes, [n] + of, [c] + from, i) {
      if i > 0 {
        assert ([n] + of)[1..] == of && ([c] + from)[1..] == from;
        assert DrawsOne(rings, height, scale, strokes[0][0], strokes[1..], of, from, i - 1);
        OneLater(rings, height, scale, pen, strokes, [n] + of, [c] + from, i);
      } else {
        OneFirst(rings, height, scale, pen, strokes, [n] + of, [c] + from, at);
      }
    }
  }

  lemma OneFirst(rings: seq<seq<Vertex>>, height: real, scale: real, pen: Point, strokes: seq<seq<Point>>,
                 of: seq<nat>, from: seq<nat>, at: seq<nat>)
    requires |of| == |from| == |strokes| > 0 && of[0] < |rings| && forall k :: 0 <= k < |strokes| ==> |strokes[k]| > 0
    requires GoesRound(strokes[0], rings[of[0]], height, scale, from[0], at)
    requires IsFirstOf(rings, height, scale, pen, strokes[0][0], of[0], from[0], of)
    ensures DrawsOne(rings, height, scale, pen, strokes, of, from, 0)
  {
    assert of[0..] == of;
  }

  lemma DistinctMore(n: nat, less: seq<nat>, of: seq<nat>)
    requires n !in less && (forall i, j :: 0 <= i < j < |of| ==> of[i] != of[j])
    requires forall m: nat :: m in of <==> m in less
    ensures forall i, j :: 0 <= i < j < |[n] + of| ==> ([n] + of)[i] != ([n] + of)[j]
    ensures forall m: nat :: m in [n] + of <==> m in [n] + less
  {
    assert forall j :: 0 <= j < |of| ==> of[j] in of;
  }

  /** A stroke of the rest is a stroke of all. */
  lemma OneLater(rings: seq<seq<Vertex>>, height: real, scale: real, pen: Point, strokes: seq<seq<Point>>,
                 of: seq<nat>, from: seq<nat>, i: nat)
    requires |of| == |from| == |strokes| && 0 < i < |strokes| && |strokes[0]| > 0
    requires DrawsOne(rings, height, scale, strokes[0][0], strokes[1..], of[1..], from[1..], i - 1)
    ensures DrawsOne(rings, height, scale, pen, strokes, of, from, i)
  {
    assert of[1..][i - 1..] == of[i..];
    assert forall k :: 0 < k < |strokes| ==> strokes[k] == strokes[1..][k - 1];
    assert PenAt(pen, strokes, i) == PenAt(strokes[0][0], strokes[1..], i - 1);
  }

  /** Every wide ring is drawn by a stroke that goes round it, always the nearest next, and nothing else. */
  lemma DrawsAllWide(rings: seq<seq<Vertex>>, height: real, scale: real, pen: Point, strokes: seq<seq<Point>>)
    requires DrawsNearest(Rings(rings, height, scale), pen, strokes)
    ensures DrawsWideRings(rings, height, scale, pen, strokes)
  {
    var which := RingsAreWide(rings, height, scale);
    var of, from := StrokesGoRound(rings, height, scale, Rings(rings, height, scale), which, pen, strokes);
    assert DrawsRings(rings, height, scale, pen, strokes, of, from);
  }

  /** Returns closed polylines in pixels. */
  method DrawPath(rings: seq<seq<Vertex>>, dieWidth: real, dieHeight: real, width: nat)
    returns (strokes: seq<seq<Point>>)
    requires dieWidth > 0.0
    ensures DrawsNearest(Rings(rings, dieHeight, width as real / dieWidth), Point(0, 0), strokes)
    ensures DrawsWideRings(rings, dieHeight, width as real / dieWidth, Point(0, 0), strokes)
  {
    var todo := BuildRings(rings, dieHeight, width as real / dieWidth);
    strokes := DrawAll(todo, Point(0, 0));
    DrawsAllWide(rings, dieHeight, width as real / dieWidth, Point(0, 0), strokes);
  }

  /** Whatever goes on from here to draw the rest has drawn everything. */
  ghost predicate Continues(rings: seq<Loop>, start: Point, strokes: seq<seq<Point>>, todo: seq<Loop>, pen: Point) {
    forall rest :: DrawsNearest(todo, pen, rest) ==> DrawsNearest(rings, start, strokes + rest)
  }

  lemma ContinuesMore(rings: seq<Loop>, start: Point, strokes: seq<seq<Point>>, todo: seq<Loop>, pen: Point, n: nat,
                      k: nat)
    requires Continues(rings, start, strokes, todo, pen) && IsNearest(todo, pen, n, k)
    ensures Continues(rings, start, strokes + [Closed(todo[n], k)], Without(todo, n), todo[n][k])
  {
    forall rest | DrawsNearest(Without(todo, n), todo[n][k], rest)
      ensures DrawsNearest(rings, start, strokes + [Closed(todo[n], k)] + rest)
    {
      DrawFirst(todo, pen, n, k, rest);
      assert strokes + [Closed(todo[n], k)] + rest == strokes + ([Closed(todo[n], k)] + rest);
    }
  }

  lemma ContinuesStart(rings: seq<Loop>, start: Point)
    ensures Continues(rings, start, [], rings, start)
  {
    forall rest: seq<seq<Point>> ensures [] + rest == rest {}
  }

  method DrawAll(rings: seq<Loop>, start: Point) returns (strokes: seq<seq<Point>>)
    ensures DrawsNearest(rings, start, strokes)
  {
    var todo, pen := rings, start;
    strokes := [];
    ContinuesStart(rings, start);
    while todo != []
      invariant Continues(rings, start, strokes, todo, pen)
      decreases |todo|
    {
      var n, k := FindNearest(todo, pen);
      ContinuesMore(rings, start, strokes, todo, pen, n, k);
      var ring := todo[n];
      strokes := strokes + [ring[k..] + ring[..k] + [ring[k]]];
      todo := todo[..n] + todo[n + 1..];
      pen := ring[k];
    }
    assert DrawsNearest(todo, pen, []);
    assert strokes + [] == strokes;
  }

  lemma DrawFirst(todo: seq<Loop>, pen: Point, n: nat, k: nat, rest: seq<seq<Point>>)
    requires IsNearest(todo, pen, n, k) && DrawsNearest(Without(todo, n), todo[n][k], rest)
    ensures DrawsNearest(todo, pen, [Closed(todo[n], k)] + rest)
  {
    var strokes := [Closed(todo[n], k)] + rest;
    assert strokes[1..] == rest;
    assert DrawsThen(todo, pen, strokes, n, k);
  }

  /** There is only one such drawing. */
  lemma {:induction false} DrawnIsOne(todo: seq<Loop>, pen: Point, a: seq<seq<Point>>, b: seq<seq<Point>>)
    requires DrawsNearest(todo, pen, a) && DrawsNearest(todo, pen, b)
    ensures a == b
    decreases |todo|
  {
    if todo != [] {
      var n: nat, k: nat :| DrawsThen(todo, pen, a, n, k);
      var m: nat, j: nat :| DrawsThen(todo, pen, b, m, j);
      NearestUnique(todo, pen, n, k, m, j);
      DrawnIsOne(Without(todo, n), todo[n][k], a[1..], b[1..]);
      assert a == [a[0]] + a[1..] && b == [b[0]] + b[1..];
    }
  }

  // how many segments are drawn

  function Segments(strokes: seq<seq<Point>>): int {
    if strokes == [] then 0 else |strokes[0]| - 1 + Segments(strokes[1..])
  }

  function Corners(todo: seq<Loop>): nat {
    if todo == [] then 0 else Corners(todo[..|todo| - 1]) + |todo[|todo| - 1]|
  }

  lemma CornersThen(todo: seq<Loop>, ring: Loop)
    ensures Corners(todo + [ring]) == Corners(todo) + |ring|
  {
    assert (todo + [ring])[..|todo|] == todo;
  }

  lemma {:induction false} CornersWithout(todo: seq<Loop>, n: nat)
    requires n < |todo|
    ensures Corners(todo) == Corners(Without(todo, n)) + |todo[n]|
  {
    var last := |todo| - 1;
    if n == last {
      assert Without(todo, n) == todo[..last];
    } else {
      CornersWithout(todo[..last], n);
      assert Without(todo, n) == Without(todo[..last], n) + [todo[last]];
      CornersThen(Without(todo[..last], n), todo[last]);
    }
  }

  /** A segment for every corner. */
  lemma {:induction false} SegmentsAreCorners(todo: seq<Loop>, pen: Point, strokes: seq<seq<Point>>)
    requires DrawsNearest(todo, pen, strokes)
    ensures Segments(strokes) == Corners(todo)
    decreases |todo|
  {
    if todo != [] {
      var n: nat, k: nat :| DrawsThen(todo, pen, strokes, n, k);
      SegmentsAreCorners(Without(todo, n), todo[n][k], strokes[1..]);
      CornersWithout(todo, n);
    }
  }

  lemma {:induction false} PixelsAtMost(ring: seq<Vertex>, height: real, scale: real, k: nat)
    requires k <= |ring|
    ensures |Apart(ring, height, scale, k)| <= k
  {
    if k > 0 { PixelsAtMost(ring, height, scale, k - 1); }
  }

  function CornersOf(rings: seq<seq<Vertex>>): nat {
    if rings == [] then 0 else CornersOf(rings[..|rings| - 1]) + |rings[|rings| - 1]|
  }

  /** Rounding to pixels adds no corner. */
  lemma {:induction false} CornersAtMost(rings: seq<seq<Vertex>>, height: real, scale: real)
    ensures Corners(Rings(rings, height, scale)) <= CornersOf(rings)
  {
    if rings != [] {
      var ring := rings[|rings| - 1];
      CornersAtMost(rings[..|rings| - 1], height, scale);
      PixelsAtMost(ring, height, scale, |ring|);
      var points := Pixels(ring, height, scale);
      if |points| >= 2 { CornersThen(Rings(rings[..|rings| - 1], height, scale), points); }
    }
  }

  /** If the first ring left to draw has a corner where the pen starts, it is drawn first, from
      there. */
  lemma FirstAtPen(todo: seq<Loop>, pen: Point, strokes: seq<seq<Point>>, k: nat)
    requires DrawsNearest(todo, pen, strokes) && IsCorner(todo, 0, k) && todo[0][k] == pen
    ensures strokes != [] && |strokes[0]| > 0 && strokes[0][0] == pen
    ensures exists pick: Pick :: pick.ring == todo[0] && Picked(pick, strokes[0])
  {
    var n: nat, j: nat :| DrawsThen(todo, pen, strokes, n, j);
    assert Sooner(todo, pen, n, j, 0, k);
    Between2Zero(pen, todo[0][k]);
    Between2Zero(pen, todo[n][j]);
    assert Picked(Pick(todo[0], j), strokes[0]);
  }

  lemma Between2Zero(p: Point, q: Point)
    ensures Between2(p, q) == 0 <==> p == q
  {
    SquareOnlyZero(p.x - q.x, p.y - q.y);
  }

  lemma SquareOnlyZero(a: int, b: int)
    ensures a * a + b * b == 0 <==> a == 0 && b == 0
  {
    SquareNat(a);
    SquareNat(b);
    if a != 0 { NotZero(a); }
    if b != 0 { NotZero(b); }
  }

  lemma NotZero(a: int)
    requires a != 0
    ensures a * a > 0
  {
  }

  function Rectangle(x: real, y: real, w: real, h: real): seq<Vertex> {
    [Vertex(x, y), Vertex(x + w, y), Vertex(x + w, y + h), Vertex(x, y + h)]
  }

  /** The tile comes first, from its top left corner, on any canvas at least one pixel wide. */
  lemma TileFirst(rings: seq<seq<Vertex>>, dieWidth: real, dieHeight: real, width: nat, strokes: seq<seq<Point>>)
    requires dieWidth > 0.0 && dieHeight > 0.0 && width > 0
    requires rings != [] && rings[0] == Rectangle(0.0, 0.0, dieWidth, dieHeight)
    requires DrawsNearest(Rings(rings, dieHeight, width as real / dieWidth), Point(0, 0), strokes)
    ensures strokes != [] && |strokes[0]| > 0 && strokes[0][0] == Point(0, 0)
    ensures exists pick: Pick ::
            pick.ring == Pixels(rings[0], dieHeight, width as real / dieWidth) && Picked(pick, strokes[0])
  {
    var scale := width as real / dieWidth;
    var k := TileCorner(rings[0], dieWidth, dieHeight, width);
    FirstRing(rings, dieHeight, scale);
    FirstAtPen(Rings(rings, dieHeight, scale), Point(0, 0), strokes, k);
  }

  lemma {:induction false} FirstRing(rings: seq<seq<Vertex>>, height: real, scale: real)
    requires rings != [] && |Pixels(rings[0], height, scale)| >= 2
    ensures var todo := Rings(rings, height, scale); todo != [] && todo[0] == Pixels(rings[0], height, scale)
  {
    if |rings| > 1 {
      FirstRing(rings[..|rings| - 1], height, scale);
    }
  }

  lemma TileCorner(ring: seq<Vertex>, dieWidth: real, dieHeight: real, width: nat) returns (k: nat)
    requires dieWidth > 0.0 && dieHeight > 0.0 && width > 0 && ring == Rectangle(0.0, 0.0, dieWidth, dieHeight)
    ensures var points := Pixels(ring, dieHeight, width as real / dieWidth);
      |points| >= 2 && k < |points| && points[k] == Point(0, 0)
  {
    var scale := width as real / dieWidth;
    var bottom := Round(dieHeight * scale);
    TileScreen(ring, dieWidth, dieHeight, width, scale);
    k := if bottom == 0 then 0 else 3;
    TilePixels(ring, dieHeight, scale, width, bottom);
  }

  lemma TileScreen(ring: seq<Vertex>, dieWidth: real, dieHeight: real, width: nat, scale: real)
    requires dieWidth > 0.0 && scale == width as real / dieWidth && ring == Rectangle(0.0, 0.0, dieWidth, dieHeight)
    ensures var bottom := Round(dieHeight * scale);
      && Screen(ring[0], dieHeight, scale) == Point(0, bottom)
      && Screen(ring[1], dieHeight, scale) == Point(width, bottom)
      && Screen(ring[2], dieHeight, scale) == Point(width, 0)
      && Screen(ring[3], dieHeight, scale) == Point(0, 0)
  {
    RoundWhole(width);
    RoundWhole(0);
    ScaledTile(dieWidth, dieHeight, width, scale);
    ScreenOf(ring[0], dieHeight, scale, 0.0, dieHeight * scale);
    ScreenOf(ring[1], dieHeight, scale, width as real, dieHeight * scale);
    ScreenOf(ring[2], dieHeight, scale, width as real, 0.0);
    ScreenOf(ring[3], dieHeight, scale, 0.0, 0.0);
  }

  lemma ScaledTile(dieWidth: real, dieHeight: real, width: nat, scale: real)
    requires dieWidth > 0.0 && scale == width as real / dieWidth
    ensures Times(0.0, scale) == 0.0 && Times(0.0 + dieWidth, scale) == width as real
    ensures Times(dieHeight - 0.0, scale) == dieHeight * scale && Times(dieHeight - (0.0 + dieHeight), scale) == 0.0
  {
  }

  lemma ScreenOf(p: Vertex, height: real, scale: real, u: real, v: real)
    requires Times(p.x, scale) == u && Times(height - p.y, scale) == v
    ensures Screen(p, height, scale) == Point(Round(u), Round(v))
  {
  }

  lemma TilePixels(ring: seq<Vertex>, height: real, scale: real, width: nat, bottom: int)
    requires |ring| == 4 && width > 0
    requires Screen(ring[0], height, scale) == Point(0, bottom)
             && Screen(ring[1], height, scale) == Point(width, bottom)
    requires Screen(ring[2], height, scale) == Point(width, 0) && Screen(ring[3], height, scale) == Point(0, 0)
    ensures var points := Pixels(ring, height, scale);
      if bottom == 0 then |points| >= 2 && points[0] == Point(0, 0) else |points| == 4 && points[3] == Point(0, 0)
  {
    var a, b, c, d := Point(0, bottom), Point(width, bottom), Point(width, 0), Point(0, 0);
    FourApart(ring, height, scale, a, b, c, d);
    if bottom == 0 {
      assert Open([d, c, d]) == [d, c];
    }
  }

  lemma FourApart(ring: seq<Vertex>, height: real, scale: real, a: Point, b: Point, c: Point, d: Point)
    requires |ring| == 4 && a != b && c != d
    requires Screen(ring[0], height, scale) == a && Screen(ring[1], height, scale) == b
    requires Screen(ring[2], height, scale) == c && Screen(ring[3], height, scale) == d
    ensures Apart(ring, height, scale, 4) == if b == c then [a, b, d] else [a, b, c, d]
  {
    TwoApart(ring, height, scale, a, b);
    assert Apart(ring, height, scale, 3) == if b == c then [a, b] else [a, b, c];
  }

  lemma TwoApart(ring: seq<Vertex>, height: real, scale: real, a: Point, b: Point)
    requires |ring| >= 2 && a != b && Screen(ring[0], height, scale) == a && Screen(ring[1], height, scale) == b
    ensures Apart(ring, height, scale, 2) == [a, b]
  {
    assert Apart(ring, height, scale, 1) == [a];
  }
}
