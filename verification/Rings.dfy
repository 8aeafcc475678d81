/** The ring of corners that `trace` in demo/outline.py leaves of its walk around a piece. */
module Rings {
  import opened Squares
  import opened Boundary
  import opened Winding
  import opened Area

  predicate Collinear(a: Point, b: Point, c: Point) {
    (b.x - a.x) * (c.y - a.y) == (b.y - a.y) * (c.x - a.x)
  }

  function Previous(ring: seq<Point>, n: nat): Point
    requires n < |ring|
  {
    ring[if n == 0 then |ring| - 1 else n - 1]
  }

  function Following(ring: seq<Point>, n: nat): Point
    requires n < |ring|
  {
    ring[if n + 1 < |ring| then n + 1 else 0]
  }

  predicate Straight(path: seq<Point>, n: nat)
    requires n < |path|
  {
    Collinear(Previous(path, n), path[n], Following(path, n))
  }

  /** The corners among the first k points of a closed path. */
  function Turns(path: seq<Point>, k: nat): seq<Point>
    requires k <= |path|
  {
    if k == 0 then []
    else if Straight(path, k - 1) then Turns(path, k - 1)
    else Turns(path, k - 1) + [path[k - 1]]
  }

  function PathOf(walk: seq<Edge>): seq<Point> {
    seq(|walk|, i requires 0 <= i < |walk| => walk[i].at)
  }

  /** The ring that `trace` returns for part. */
  ghost function Ring(part: set<Point>): seq<Point>
    requires part != {}
  {
    var path := PathOf(Walk(part));
    Turns(path, |path|)
  }

  // what dropping the straight corners keeps

  predicate Level(p: Point, q: Point) {
    p.y == q.y && p.x != q.x
  }

  predicate Plumb(p: Point, q: Point) {
    p.x == q.x && p.y != q.y
  }

  /** q lies straight ahead of p. */
  predicate IsAhead(p: Point, d: Heading, q: Point) {
    match d
    case East => q.y == p.y && q.x > p.x
    case North => q.x == p.x && q.y > p.y
    case West => q.y == p.y && q.x < p.x
    case South => q.x == p.x && q.y < p.y
  }

  /** A closed walk that leaves its start east and comes back to it south, never turning back. */
  ghost predicate Loop(walk: seq<Edge>) {
    && |walk| > 0 && walk[0].heading == East && walk[|walk| - 1].heading == South
    && Head(walk[|walk| - 1]) == walk[0].at
    && forall i :: 0 < i < |walk| ==> Goes(walk[i - 1], walk[i])
  }

  predicate Goes(e: Edge, f: Edge) {
    f.at == Head(e) && f.heading != LeftTurn(LeftTurn(e.heading))
  }

  lemma WalkLoops(part: set<Point>)
    requires part != {}
    ensures Loop(Walk(part))
  {
    var walk := Walk(part);
    StartHeadsEast(part, LeastOf(part), walk[|walk| - 1]);
    forall i | 0 < i < |walk| ensures Goes(walk[i - 1], walk[i]) {
      assert walk[i] == Next(part, walk[i - 1]);
      NextBounds(part, walk[i - 1]);
    }
  }

  lemma UnitTurn(a: Edge, b: Edge)
    requires Head(a) == b.at
    ensures Collinear(a.at, b.at, Head(b)) <==> b.heading == a.heading || b.heading == LeftTurn(LeftTurn(a.heading))
  {
  }

  /** A corner of the walk is straight exactly where the heading does not change. */
  lemma StraightIsSameHeading(walk: seq<Edge>, n: nat)
    requires Loop(walk) && n < |walk|
    ensures Straight(PathOf(walk), n) <==> n > 0 && walk[n - 1].heading == walk[n].heading
  {
    var a := walk[if n == 0 then |walk| - 1 else n - 1];
    assert n > 0 ==> Goes(walk[n - 1], walk[n]);
    assert n + 1 < |walk| ==> Goes(walk[n], walk[n + 1]);
    UnitTurn(a, walk[n]);
  }

  function OpenSum(f: Measure, points: seq<Point>): int {
    if |points| < 2 then 0
    else OpenSum(f, points[..|points| - 1]) + f(points[|points| - 2], points[|points| - 1])
  }

  /** The sum over the sides of a closed ring of points. */
  function SideSum(f: Measure, ring: seq<Point>): int {
    if ring == [] then 0 else OpenSum(f, ring) + f(ring[|ring| - 1], ring[0])
  }

  /** The cross-product sum of a closed ring of points, twice the area it encloses. */
  function RingSum(ring: seq<Point>): int {
    SideSum(Cross, ring)
  }

  /** Going on straight adds up. */
  ghost predicate Additive(f: Measure) {
    forall l: Point, e: Edge :: AddsAt(f, l, e)
  }

  ghost predicate AddsAt(f: Measure, l: Point, e: Edge) {
    IsAhead(l, e.heading, e.at) || l == e.at ==> f(l, Head(e)) == f(l, e.at) + f(e.at, Head(e))
  }

  lemma AheadStays(l: Point, e: Edge)
    requires IsAhead(l, e.heading, e.at) || l == e.at
    ensures IsAhead(l, e.heading, Head(e))
  {
  }

  lemma CrossAdds()
    ensures Additive(Cross)
  {
    forall l: Point, e: Edge ensures AddsAt(Cross, l, e) {
      if IsAhead(l, e.heading, e.at) || l == e.at {
        assert Cross(l, Head(e)) - Cross(l, e.at) - EdgeCross(e)
            == (l.x - e.at.x) * (Head(e).y - e.at.y) - (Head(e).x - e.at.x) * (l.y - e.at.y);
      }
    }
  }

  /** Corners that turn between level and plumb sides, the first one level. */
  predicate Alternates(corners: seq<Point>) {
    forall i :: 0 <= i < |corners| - 1 ==> TurnsRight(i, corners[i], corners[i + 1])
  }

  /** A closed ring of level and plumb sides in turn. */
  predicate RightAngled(ring: seq<Point>) {
    |ring| >= 4 && |ring| % 2 == 0 && Alternates(ring) && Plumb(ring[|ring| - 1], ring[0])
  }

  predicate TurnsRight(i: nat, p: Point, q: Point) {
    if i % 2 == 0 then Level(p, q) else Plumb(p, q)
  }

  /** The corners so far alternate, the walk's last edge e runs straight from the last of them. */
  predicate RunsTo(corners: seq<Point>, e: Edge) {
    && |corners| > 0 && Alternates(corners)
    && (|corners| % 2 == 1 <==> e.heading == East || e.heading == West)
    && IsAhead(corners[|corners| - 1], e.heading, Head(e))
  }

  lemma TurnRuns(corners: seq<Point>, e: Edge, f: Edge)
    requires RunsTo(corners, e) && Goes(e, f) && e.heading != f.heading
    ensures RunsTo(corners + [f.at], f)
  {
    var longer, n := corners + [f.at], |corners|;
    forall i | 0 <= i < n ensures TurnsRight(i, longer[i], longer[i + 1]) {
      if i < n - 1 {
        assert TurnsRight(i, corners[i], corners[i + 1]);
      }
    }
  }

  /** k edges into the walk the corners add up to what the walked edges do. */
  lemma {:induction false} TurnsSoFar(f: Measure, walk: seq<Edge>, k: nat)
    requires Additive(f) && Loop(walk) && 0 < k <= |walk|
    ensures
      var turns := Turns(PathOf(walk), k);
      && RunsTo(turns, walk[k - 1]) && turns[0] == walk[0].at
      && SeqSum(f, walk[..k]) == OpenSum(f, turns) + f(turns[|turns| - 1], Head(walk[k - 1]))
  {
    var path, e := PathOf(walk), walk[k - 1];
    StraightIsSameHeading(walk, k - 1);
    assert walk[..k][..k - 1] == walk[..k - 1];
    if k == 1 {
      assert Turns(path, 1) == [e.at];
      assert SeqSum(f, walk[..1]) == SeqSum(f, walk[..0]) + f(e.at, Head(e));
    } else {
      TurnsSoFar(f, walk, k - 1);
      var before := Turns(path, k - 1);
      assert Goes(walk[k - 2], e);
      if Straight(path, k - 1) {
        AheadStays(before[|before| - 1], e);
        assert AddsAt(f, before[|before| - 1], e);
      } else {
        var turns := Turns(path, k);
        assert turns == before + [e.at] && turns[..|turns| - 1] == before;
        TurnRuns(before, walk[k - 2], e);
      }
    }
  }

  /** Whatever adds up along straight lines, the corners' sides add up to what the walk does. */
  lemma RingSums(f: Measure, part: set<Point>)
    requires part != {} && Additive(f)
    ensures SideSum(f, Ring(part)) == SeqSum(f, Walk(part))
  {
    var walk := Walk(part);
    WalkLoops(part);
    TurnsSoFar(f, walk, |walk|);
    assert walk[..|walk|] == walk;
  }

  /** The ring has no straight corner and the area of the walk. */
  lemma RingCorners(part: set<Point>)
    requires part != {}
    ensures RightAngled(Ring(part))
    ensures forall n :: 0 <= n < |Ring(part)| ==> !Straight(Ring(part), n)
    ensures RingSum(Ring(part)) == SeqSum(Cross, Walk(part))
  {
    CrossAdds();
    RingSums(Cross, part);
    WalkLoops(part);
    LoopCorners(Walk(part));
  }

  lemma LoopCorners(walk: seq<Edge>)
    requires Loop(walk)
    ensures var ring := Turns(PathOf(walk), |walk|);
      && RightAngled(ring)
      && (forall n :: 0 <= n < |ring| ==> !Straight(ring, n))
  {
    var ring := Turns(PathOf(walk), |walk|);
    CrossAdds();
    TurnsSoFar(Cross, walk, |walk|);
    assert Plumb(ring[|ring| - 1], ring[0]);
    forall n | 0 <= n < |ring| ensures !Straight(ring, n) {
      AlternatesNotStraight(ring, n);
    }
    assert TurnsRight(0, ring[0], ring[1]);
  }

  predicate Turned(a: Point, b: Point, c: Point) {
    (Level(a, b) && Plumb(b, c)) || (Plumb(a, b) && Level(b, c))
  }

  lemma AlternatesTurned(ring: seq<Point>, n: nat)
    requires n < |ring| && |ring| % 2 == 0
    requires Alternates(ring) && Plumb(ring[|ring| - 1], ring[0])
    ensures Turned(Previous(ring, n), ring[n], Following(ring, n))
  {
    assert n > 0 ==> TurnsRight(n - 1, ring[n - 1], ring[n]);
    assert n + 1 < |ring| ==> TurnsRight(n, ring[n], ring[n + 1]);
  }

  lemma AlternatesNotStraight(ring: seq<Point>, n: nat)
    requires n < |ring| && |ring| % 2 == 0
    requires Alternates(ring) && Plumb(ring[|ring| - 1], ring[0])
    ensures !Straight(ring, n)
  {
    AlternatesTurned(ring, n);
    RightAngle(Previous(ring, n), ring[n], Following(ring, n));
  }

  lemma RightAngle(a: Point, b: Point, c: Point)
    requires Turned(a, b, c)
    ensures !Collinear(a, b, c)
  {
    if Level(a, b) {
      NonZero(b.x - a.x, c.y - a.y);
    } else {
      NonZero(b.y - a.y, c.x - a.x);
    }
  }

  lemma NonZero(a: int, b: int)
    requires a != 0 && b != 0
    ensures a * b != 0
  {
  }

  /** The ring of any set of squares has its area less what the boundary edges that were not
      walked have. */
  lemma RingArea(part: set<Point>)
    requires part != {}
    ensures RingSum(Ring(part)) + SetSum(Edges(part) - Walked(part)) == 2 * |part|
  {
    RingCorners(part);
    WalkArea(part);
  }

  /** A connected piece without holes is traced completely: its ring has exactly its area,
      counterclockwise as the sum is positive. */
  lemma PieceArea(part: set<Point>, box: Box)
    requires part != {} && Connected4(part) && HoleFree(part, box)
    ensures RingSum(Ring(part)) == 2 * |part| > 0
  {
    WalkIsWholeBoundary(part, box);
    LeftOver(part);
  }

  lemma LeftOver(part: set<Point>)
    requires part != {} && Walked(part) == Edges(part)
    ensures RingSum(Ring(part)) == 2 * |part| > 0
  {
    RingArea(part);
    assert Edges(part) - Walked(part) == {};
  }
}
