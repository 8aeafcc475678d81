/** What a ring of corners encloses: its own winding number on every square, and the unit edges
    along its sides. Around a connected piece without holes, `trace` of demo/outline.py leaves a
    ring that winds once round the piece's squares and round no other. */
module Enclosure {
  import opened Squares
  import opened Boundary
  import opened Winding
  import opened Area
  import opened Rings

  /** What a side from a to b adds to the winding number on square (x, y): one if it crosses the
      ray from the square to the right upwards, minus one if downwards. */
  function RayHit(a: Point, b: Point, x: int, y: int): int {
    if a.x != b.x || a.x <= x then 0
    else if a.y <= y < b.y then 1
    else if b.y <= y < a.y then -1
    else 0
  }

  function Ray(x: int, y: int): Measure {
    (a, b) => RayHit(a, b, x, y)
  }

  /** How often a closed ring of points goes round square (x, y), counterclockwise. */
  function RingWinding(ring: seq<Point>, x: int, y: int): int {
    SideSum(Ray(x, y), ring)
  }

  /** The unit edge lies on the straight side from a to b and heads along it. */
  predicate OnSide(a: Point, b: Point, e: Edge) {
    match e.heading
    case East => a.y == b.y == e.at.y && a.x <= e.at.x < b.x
    case North => a.x == b.x == e.at.x && a.y <= e.at.y < b.y
    case West => a.y == b.y == e.at.y && b.x < e.at.x <= a.x
    case South => a.x == b.x == e.at.x && b.y < e.at.y <= a.y
  }

  function Along(e: Edge): Measure {
    (a, b) => if OnSide(a, b, e) then 1 else 0
  }

  /** On how many of the ring's sides the unit edge lies. */
  function SidesWith(ring: seq<Point>, e: Edge): int {
    SideSum(Along(e), ring)
  }

  lemma RayAdds(x: int, y: int)
    ensures Additive(Ray(x, y))
  {
    forall l: Point, e: Edge ensures AddsAt(Ray(x, y), l, e) {}
  }

  lemma AlongAdds(f: Edge)
    ensures Additive(Along(f))
  {
    forall l: Point, e: Edge ensures AddsAt(Along(f), l, e) {}
  }

  /** A unit edge lies on itself and on no other. */
  lemma {:induction false} AlongCounts(walk: seq<Edge>, e: Edge)
    requires EachOnce(walk)
    ensures SeqSum(Along(e), walk) == if e in walk then 1 else 0
  {
    if walk != [] {
      var rest, last := walk[..|walk| - 1], walk[|walk| - 1];
      AlongCounts(rest, e);
      assert OnSide(last.at, Head(last), e) <==> last == e;
      assert walk == rest + [last];
    }
  }

  /** One square to the left, the ray meets the two edges between besides. */
  lemma {:induction false} RayLonger(walk: seq<Edge>, x: int, y: int)
    ensures SeqSum(Ray(x, y), walk)
            == SeqSum(Ray(x + 1, y), walk) + SeqSum(Along(Edge(Point(x + 1, y), North)), walk)
               - SeqSum(Along(Edge(Point(x + 1, y + 1), South)), walk)
  {
    if walk != [] {
      RayLonger(walk[..|walk| - 1], x, y);
      HitLonger(walk[|walk| - 1], x, y);
    }
  }

  lemma HitLonger(e: Edge, x: int, y: int)
    ensures Ray(x, y)(e.at, Head(e))
            == Ray(x + 1, y)(e.at, Head(e)) + Along(Edge(Point(x + 1, y), North))(e.at, Head(e))
               - Along(Edge(Point(x + 1, y + 1), South))(e.at, Head(e))
  {
  }

  lemma {:induction false} RayPast(walk: seq<Edge>, x: int, y: int)
    requires forall e :: e in walk ==> e.at.x <= x
    ensures SeqSum(Ray(x, y), walk) == 0
  {
    if walk != [] {
      assert walk[|walk| - 1] in walk;
      RayPast(walk[..|walk| - 1], x, y);
    }
  }

  function Indicator(part: set<Point>, x: int, y: int): int {
    if Point(x, y) in part then 1 else 0
  }

  /** A walk that takes every boundary edge once winds once round the squares of the set and round
      no others. */
  lemma {:induction false} WholeWalkWinds(part: set<Point>, walk: seq<Edge>, limit: int, x: int, y: int)
    requires EachOnce(walk) && forall e :: e in walk <==> Bounds(part, e)
    requires forall e :: e in walk ==> e.at.x <= limit
    requires forall s :: s in part ==> s.x < limit
    ensures SeqSum(Ray(x, y), walk) == Indicator(part, x, y)
    decreases limit - x
  {
    if x >= limit {
      RayPast(walk, x, y);
    } else {
      WholeWalkWinds(part, walk, limit, x + 1, y);
      RayLonger(walk, x, y);
      AlongCounts(walk, Edge(Point(x + 1, y), North));
      AlongCounts(walk, Edge(Point(x + 1, y + 1), South));
    }
  }

  /** The ray's count in the sum of the whole boundary is the same. */
  lemma {:induction false} BoundaryWinds(part: set<Point>, limit: int, x: int, y: int)
    requires forall s :: s in part ==> s.x < limit
    ensures WindingOf(Edges(part), limit, x, y) == Indicator(part, x, y)
    decreases limit - x
  {
    if x < limit {
      BoundaryWinds(part, limit, x + 1, y);
      assert Bounds(part, Edge(Point(x + 1, y), North)) <==> Point(x, y) in part && Point(x + 1, y) !in part;
      assert Bounds(part, Edge(Point(x + 1, y + 1), South)) <==> Point(x + 1, y) in part && Point(x, y) !in part;
    }
  }

  /** The ring of a piece, its corners and nothing but its corners: its sides are level and plumb
      in turn, it winds once round each of the piece's squares and round no other square, and its
      sides are made up of the piece's boundary edges, each on exactly one side, and of nothing
      else. */
  ghost predicate Encloses(ring: seq<Point>, piece: set<Point>) {
    && piece != {} && ring == Ring(piece)
    && RightAngled(ring) && (forall n :: 0 <= n < |ring| ==> !Straight(ring, n))
    && (forall x: int, y: int :: RingWinding(ring, x, y) == Indicator(piece, x, y))
    && (forall e: Edge :: SidesWith(ring, e) == if Bounds(piece, e) then 1 else 0)
    && RingSum(ring) == 2 * |piece|
  }

  /** The walk takes every boundary edge once, and stays within the box. */
  lemma WalkTakesAll(piece: set<Point>, box: Box)
    requires piece != {} && Connected4(piece) && HoleFree(piece, box)
    ensures EachOnce(Walk(piece)) && forall e :: e in Walk(piece) <==> Bounds(piece, e)
    ensures (forall e :: e in Walk(piece) ==> e.at.x <= box.x1) && forall s :: s in piece ==> s.x < box.x1
  {
    WalkIsWholeBoundary(piece, box);
    assert forall e :: e in Walk(piece) <==> e in Walked(piece);
    forall e | Bounds(piece, e) ensures e.at.x <= box.x1 {
      assert LeftOf(e) in piece;
    }
  }

  /** The ring's own winding number tells the piece's squares from all others. */
  lemma RingWinds(piece: set<Point>, box: Box, x: int, y: int)
    requires piece != {} && Connected4(piece) && HoleFree(piece, box)
    ensures RingWinding(Ring(piece), x, y) == Indicator(piece, x, y)
  {
    RayAdds(x, y);
    RingSums(Ray(x, y), piece);
    WalkTakesAll(piece, box);
    WholeWalkWinds(piece, Walk(piece), box.x1, x, y);
  }

  /** The ring's sides are the piece's boundary edges, each once. */
  lemma RingSides(piece: set<Point>, box: Box, e: Edge)
    requires piece != {} && Connected4(piece) && HoleFree(piece, box)
    ensures SidesWith(Ring(piece), e) == if Bounds(piece, e) then 1 else 0
  {
    AlongAdds(e);
    RingSums(Along(e), piece);
    WalkTakesAll(piece, box);
    AlongCounts(Walk(piece), e);
  }

  lemma PieceEnclosed(piece: set<Point>, box: Box)
    requires piece != {} && Connected4(piece) && HoleFree(piece, box)
    ensures Encloses(Ring(piece), piece)
  {
    forall x: int, y: int ensures RingWinding(Ring(piece), x, y) == Indicator(piece, x, y) {
      RingWinds(piece, box, x, y);
    }
    forall e: Edge ensures SidesWith(Ring(piece), e) == if Bounds(piece, e) then 1 else 0 {
      RingSides(piece, box, e);
    }
    RingCorners(piece);
    PieceArea(piece, box);
  }
}
