/** A piece whose ring `simplify` of demo/outline.py leaves with a dropped corner beyond the
    tolerance: eight squares, traced as `pieces` and `trace` trace them. */
module StrayRing {
  import opened Squares
  import opened Reach
  import opened Boundary
  import opened Filling
  import opened Pieces
  import opened Rings
  import opened Trace
  import opened Polyline
  import opened DouglasPeucker
  import opened Outlines

  /** Three squares, one under the last of them, two to the right and two below. */
  const HOOK: set<Point> :=
    {Point(0, 2), Point(1, 2), Point(2, 2), Point(2, 1), Point(3, 1), Point(4, 1), Point(1, 0), Point(2, 0)}

  const ROUND: seq<Edge> := [
    Edge(Point(0, 2), East), Edge(Point(1, 2), East), Edge(Point(2, 2), South), Edge(Point(2, 1), West),
    Edge(Point(1, 1), South), Edge(Point(1, 0), East), Edge(Point(2, 0), East), Edge(Point(3, 0), North),
    Edge(Point(3, 1), East), Edge(Point(4, 1), East), Edge(Point(5, 1), North), Edge(Point(5, 2), West),
    Edge(Point(4, 2), West), Edge(Point(3, 2), North), Edge(Point(3, 3), West), Edge(Point(2, 3), West),
    Edge(Point(1, 3), West), Edge(Point(0, 3), South)]

  const CORNERS: seq<Point> := [
    Point(0, 2), Point(2, 2), Point(2, 1), Point(1, 1), Point(1, 0), Point(3, 0),
    Point(3, 1), Point(5, 1), Point(5, 2), Point(3, 2), Point(3, 3), Point(0, 3)]

  /** The rows of squares that hold it, the lowest first. */
  const LABELS: Labels<bool> := [
    [false, true, true, false, false],
    [false, false, true, true, true],
    [true, true, true, false, false]]

  lemma HookIsRegion()
    ensures Region(LABELS, true) == HOOK
  {
    forall p ensures Labelled(LABELS, true, p) <==> p in HOOK {
      HookIs(p);
    }
  }

  // the walk round it

  predicate InHook(x: int, y: int) {
    (y == 2 && 0 <= x <= 2) || (y == 1 && 2 <= x <= 4) || (y == 0 && 1 <= x <= 2)
  }

  lemma HookIs(p: Point)
    ensures p in HOOK <==> InHook(p.x, p.y)
  {
    assert p == Point(p.x, p.y);
  }

  lemma BoundsIs(e: Edge)
    ensures Bounds(HOOK, e) <==> InHook(LeftOf(e).x, LeftOf(e).y) && !InHook(RightOf(e).x, RightOf(e).y)
  {
    HookIs(LeftOf(e));
    HookIs(RightOf(e));
  }

  /** The edge is a boundary edge of the hook and the walk goes on from it with this one. */
  ghost predicate Onward(e: Edge, f: Edge) {
    Bounds(HOOK, e) && Next(HOOK, e) == f
  }

  lemma OnwardIs(e: Edge, f: Edge)
    requires InHook(LeftOf(e).x, LeftOf(e).y) && !InHook(RightOf(e).x, RightOf(e).y) && f.at == Head(e)
    requires InHook(LeftOf(f).x, LeftOf(f).y) && !InHook(RightOf(f).x, RightOf(f).y)
    requires f.heading != LeftTurn(e.heading) ==>
               var l := Edge(Head(e), LeftTurn(e.heading));
                 !InHook(LeftOf(l).x, LeftOf(l).y) || InHook(RightOf(l).x, RightOf(l).y)
    requires f.heading != LeftTurn(e.heading) && f.heading != e.heading ==>
               var s := Edge(Head(e), e.heading);
                 !InHook(LeftOf(s).x, LeftOf(s).y) || InHook(RightOf(s).x, RightOf(s).y)
    requires f.heading != LeftTurn(LeftTurn(e.heading))
    ensures Onward(e, f)
  {
    BoundsIs(e);
    BoundsIs(f);
    BoundsIs(Edge(Head(e), LeftTurn(e.heading)));
    BoundsIs(Edge(Head(e), e.heading));
  }

  lemma RoundGoesOn(i: nat)
    requires i < 17
    ensures Onward(ROUND[i], ROUND[i + 1])
  {
    if i < 6 {
      OnwardIs(ROUND[i], ROUND[i + 1]);
    } else if i < 12 {
      OnwardIs(ROUND[i], ROUND[i + 1]);
    } else {
      OnwardIs(ROUND[i], ROUND[i + 1]);
    }
  }

  lemma HookLeast()
    ensures LeastOf(HOOK) == Point(0, 2)
  {
    var p := LeastOf(HOOK);
    BoundsIs(Edge(Point(0, 2), East));
    assert Bounds(HOOK, Edge(Point(0, 2), East));
    var d :| Bounds(HOOK, Edge(p, d));
    BoundsIs(Edge(p, d));
  }

  lemma RoundIsApart(i: nat, j: nat)
    requires i < j < 18
    ensures ROUND[i].at != ROUND[j].at
  {
  }

  lemma RoundOnward()
    ensures forall i :: 0 <= i < 18 ==> Bounds(HOOK, ROUND[i])
    ensures forall i :: 0 < i < 18 ==> ROUND[i] == Next(HOOK, ROUND[i - 1])
  {
    forall i | 0 <= i < 18 ensures Bounds(HOOK, ROUND[i]) {
      if i < 17 { RoundGoesOn(i); } else { BoundsIs(ROUND[17]); }
    }
    forall i | 0 < i < 18 ensures ROUND[i] == Next(HOOK, ROUND[i - 1]) {
      RoundGoesOn(i - 1);
    }
  }

  lemma RoundDistinct()
    ensures forall i, j :: 0 <= i < j < 18 ==> ROUND[i] != ROUND[j]
    ensures forall i :: 0 < i < 18 ==> ROUND[i].at != Point(0, 2)
  {
    forall i, j | 0 <= i < j < 18 ensures ROUND[i] != ROUND[j] {
      RoundIsApart(i, j);
    }
    forall i | 0 < i < 18 ensures ROUND[i].at != Point(0, 2) {
      RoundIsApart(0, i);
    }
  }

  lemma RoundEnds()
    ensures |ROUND| == 18 && ROUND[0].at == Point(0, 2) == Head(ROUND[17])
  {
  }

  /** The walk takes the hook's eighteen boundary edges, from its least corner on. */
  lemma HookRound()
    ensures Walk(HOOK) == ROUND
  {
    HookLeast();
    RoundOnward();
    RoundDistinct();
    RoundEnds();
    WholeWalk(HOOK, ROUND);
  }

  /** How many corners there are among the first so many points of the walk. */
  const COUNTS: seq<nat> := [0, 1, 1, 2, 3, 4, 5, 5, 6, 7, 7, 8, 9, 9, 10, 11, 11, 11, 12]

  predicate TurnsAt(k: nat)
    requires k < 18
  {
    k == 0 || ROUND[k].heading != ROUND[k - 1].heading
  }

  lemma CountsStep(k: nat)
    requires k < 18
    ensures TurnsAt(k) ==> COUNTS[k + 1] == COUNTS[k] + 1 <= 12 && CORNERS[COUNTS[k]] == ROUND[k].at
    ensures !TurnsAt(k) ==> COUNTS[k + 1] == COUNTS[k] <= 12
  {
    if k < 6 {} else if k < 12 {} else {}
  }

  lemma TurnsStep(walk: seq<Edge>, k: nat)
    requires Loop(walk) && k < |walk|
    ensures Turns(PathOf(walk), k + 1)
            == if k == 0 || walk[k].heading != walk[k - 1].heading then Turns(PathOf(walk), k) + [walk[k].at]
              else Turns(PathOf(walk), k)
  {
    StraightIsSameHeading(walk, k);
  }

  lemma CornersGrow(turned: seq<Point>, next: seq<Point>, corners: seq<Point>, c: nat, p: Point, turns: bool)
    requires c <= |corners| && turned == corners[..c] && next == if turns then turned + [p] else turned
    requires turns ==> c < |corners| && corners[c] == p
    ensures next == corners[..if turns then c + 1 else c]
  {
  }

  /** The corners among the first k points. */
  ghost predicate TurnedTo(turned: seq<Point>, k: nat)
    requires k <= 18
  {
    COUNTS[k] <= 12 && turned == CORNERS[..COUNTS[k]]
  }

  lemma TurnedNext(turned: seq<Point>, next: seq<Point>, k: nat)
    requires k < 18 && TurnedTo(turned, k) && next == if TurnsAt(k) then turned + [ROUND[k].at] else turned
    ensures TurnedTo(next, k + 1)
  {
    CountsStep(k);
    CornersGrow(turned, next, CORNERS, COUNTS[k], ROUND[k].at, TurnsAt(k));
  }

  lemma {:induction false} HookTurns(walk: seq<Edge>, k: nat)
    requires k <= 18 && Loop(walk) && |walk| == 18 && forall i :: 0 <= i < 18 ==> walk[i] == ROUND[i]
    ensures TurnedTo(Turns(PathOf(walk), k), k)
  {
    if k > 0 {
      HookTurns(walk, k - 1);
      TurnsStep(walk, k - 1);
      TurnedNext(Turns(PathOf(walk), k - 1), Turns(PathOf(walk), k), k - 1);
    } else {
      assert CORNERS[..COUNTS[0]] == [];
    }
  }

  /** `trace` leaves twelve corners. */
  lemma HookRing()
    ensures Rings.Ring(HOOK) == CORNERS
  {
    HookRound();
    WalkLoops(HOOK);
    HookTurns(Walk(HOOK), 18);
    assert CORNERS[..COUNTS[18]] == CORNERS;
  }

  // it is a piece, and filled

  const FRAME: Box := Box(-1, 5, -1, 3)

  lemma StepTo(p: Point, q: Point)
    requires Reaches(SideSteps(HOOK), Point(0, 2), p) && InHook(p.x, p.y) && InHook(q.x, q.y) && Adjacent4(p, q)
    ensures Reaches(SideSteps(HOOK), Point(0, 2), q)
  {
    HookIs(p);
    HookIs(q);
    Then(SideSteps(HOOK), Point(0, 2), p, q);
  }

  lemma HookReached(q: Point)
    requires InHook(q.x, q.y)
    ensures Reaches(SideSteps(HOOK), Point(0, 2), q)
  {
    Self(SideSteps(HOOK), Point(0, 2));
    StepTo(Point(0, 2), Point(1, 2));
    StepTo(Point(1, 2), Point(2, 2));
    StepTo(Point(2, 2), Point(2, 1));
    StepTo(Point(2, 1), Point(3, 1));
    StepTo(Point(3, 1), Point(4, 1));
    StepTo(Point(2, 1), Point(2, 0));
    StepTo(Point(2, 0), Point(1, 0));
  }

  lemma HookIsPiece()
    ensures IsPiece(HOOK, HOOK)
  {
    forall q ensures q in HOOK <==> Reaches(SideSteps(HOOK), Point(0, 2), q) {
      HookIs(q);
      if q in HOOK {
        HookReached(q);
      } else if Reaches(SideSteps(HOOK), Point(0, 2), q) {
        Reach.Kept(SideSteps(HOOK), p => p in HOOK, Point(0, 2), q);
      }
    }
    assert IsComponent(HOOK, Point(0, 2), HOOK);
  }

  lemma MarginOutside(p: Point)
    requires InBox(FRAME, p) && (p.x == -1 || p.x == 5 || p.y == -1 || p.y == 3)
    ensures IsOutside(HOOK, FRAME, p)
  {
    HookSurrounded();
    assert p == Point(p.x, p.y);
    if p.x == -1 {
      LeftAndBottomOutside(HOOK, FRAME, p.y + 1);
    } else if p.y == -1 {
      LeftAndBottomOutside(HOOK, FRAME, p.x + 1);
    } else if p.x == 5 {
      RightAndTopOutside(HOOK, FRAME, p.y + 1);
    } else {
      RightAndTopOutside(HOOK, FRAME, p.x + 1);
    }
  }

  lemma HookSurrounded()
    ensures Surrounds(HOOK, FRAME) && IsFrame(HOOK, FRAME)
  {
    forall p | p in HOOK ensures FRAME.x0 < p.x < FRAME.x1 && FRAME.y0 < p.y < FRAME.y1 {
      HookIs(p);
    }
    assert Point(0, 2) in HOOK && Point(4, 1) in HOOK && Point(1, 0) in HOOK;
  }

  lemma ClearOutside(p: Point)
    requires InBox(FRAME, p) && !InHook(p.x, p.y)
    ensures IsOutside(HOOK, FRAME, p)
  {
    HookIs(p);
    if p.x == -1 || p.x == 5 || p.y == -1 || p.y == 3 {
      MarginOutside(p);
    } else if p.y == 1 {
      var beside := Point(0, 1);
      HookIs(beside);
      MarginOutside(Point(-1, 1));
      OutsideSpreads(HOOK, FRAME, Point(-1, 1), beside);
      OutsideSpreads(HOOK, FRAME, beside, p);
    } else {
      var margin := Point(p.x, if p.y == 2 then 3 else -1);
      MarginOutside(margin);
      OutsideSpreads(HOOK, FRAME, margin, p);
    }
  }

  lemma HookIsFilled()
    ensures IsFilled(HOOK, HOOK)
  {
    HookSurrounded();
    forall p | InBox(FRAME, p) && p !in HOOK ensures Reaches(OutsideSteps(HOOK, FRAME), Point(FRAME.x0, FRAME.y0), p) {
      HookIs(p);
      ClearOutside(p);
    }
    FillKeepsHoleFree(HOOK, FRAME);
  }

  // simplifying its ring

  const EPSILON: real := 1.77

  const RING: DouglasPeucker.Ring := [
    Vertex(0.0, 2.0), Vertex(2.0, 2.0), Vertex(2.0, 1.0), Vertex(1.0, 1.0), Vertex(1.0, 0.0), Vertex(3.0, 0.0),
    Vertex(3.0, 1.0), Vertex(5.0, 1.0), Vertex(5.0, 2.0), Vertex(3.0, 2.0), Vertex(3.0, 3.0), Vertex(0.0, 3.0)]

  lemma RingIsTrace()
    ensures RING == InSteps(Rings.Ring(HOOK), 1.0)
  {
    HookRing();
    forall i: nat | i < 12 ensures RING[i] == Vertex(CORNERS[i].x as real, CORNERS[i].y as real) {
      RingIsCorners(i);
    }
  }

  lemma RingIsCorners(i: nat)
    requires i < 12
    ensures RING[i] == Vertex(CORNERS[i].x as real, CORNERS[i].y as real)
  {
    if i < 4 {} else if i < 8 {} else {}
  }

  lemma NormOf(p: Vertex, x: real, y: real, d: real)
    requires p == Vertex(x, 2.0 + y) && x * x + y * y == d
    ensures Distance2(FIRST, p) == d
  {
  }

  lemma LowerNorms(p: Vertex, n: nat)
    requires n < 7 && p == RING[n]
    ensures Distance2(FIRST, p) <= 25.0
  {
    match n
    case 0 => NormOf(p, 0.0, 0.0, 0.0);
    case 1 => NormOf(p, 2.0, 0.0, 4.0);
    case 2 => NormOf(p, 2.0, -1.0, 5.0);
    case 3 => NormOf(p, 1.0, -1.0, 2.0);
    case 4 => NormOf(p, 1.0, -2.0, 5.0);
    case 5 => NormOf(p, 3.0, -2.0, 13.0);
    case _ => NormOf(p, 3.0, -1.0, 10.0);
  }

  lemma UpperNorms(p: Vertex, n: nat)
    requires 7 < n < 12 && p == RING[n]
    ensures Distance2(FIRST, p) <= 25.0
  {
    match n
    case 8 => NormOf(p, 5.0, 0.0, 25.0);
    case 9 => NormOf(p, 3.0, 0.0, 9.0);
    case 10 => NormOf(p, 3.0, 1.0, 10.0);
    case _ => NormOf(p, 0.0, 1.0, 1.0);
  }

  lemma Norms(ring: DouglasPeucker.Ring, n: nat)
    requires ring == RING && |ring| == 12 && n < 12 && n != 7
    ensures Distance2(ring[0], ring[n]) <= 25.0
  {
    if n < 7 {
      LowerNorms(ring[n], n);
    } else {
      UpperNorms(ring[n], n);
    }
  }

  lemma SeventhNorm(p: Vertex)
    requires p == SEVENTH
    ensures Distance2(FIRST, p) == 26.0
  {
    NormOf(p, 5.0, -1.0, 26.0);
  }

  lemma FarIsSeventh(ring: DouglasPeucker.Ring)
    requires ring == RING && |ring| == 12
    ensures Far(ring, 12) == 7
  {
    forall n: nat | n < 12 && n != 7 ensures Distance2(ring[0], ring[n]) <= 25.0 {
      Norms(ring, n);
    }
    SeventhNorm(ring[7]);
    FarIs(ring, 7, 25.0);
  }

  const FIRST: Vertex := Vertex(0.0, 2.0)
  const SEVENTH: Vertex := Vertex(5.0, 1.0)

  /** Within the square root of three of a point of the line from a to b. */
  predicate CloseAt(p: Vertex, a: Vertex, b: Vertex, t: real) {
    var dx, dy := p.x - (a.x + t * (b.x - a.x)), p.y - (a.y + t * (b.y - a.y));
    0.0 <= t <= 1.0 && dx * dx + dy * dy < 3.0
  }

  lemma NearLine(p: Vertex, a: Vertex, b: Vertex, t: real)
    requires CloseAt(p, a, b, t)
    ensures SegmentDistance2(p, a, b) < 3.0 && SegmentDistance2(p, b, a) < 3.0
  {
    NearEitherWay(p, a, b, t, 3.0);
  }

  function FootOf(n: nat): real {
    if n == 11 then 0.0 else if n == 3 then 0.2 else if n <= 2 then 0.4 else if n == 8 then 1.0 else 0.6
  }

  lemma FootIsClose(n: nat)
    requires 0 < n < 12 && n != 7 && n != 4
    ensures CloseAt(RING[n], RING[0], RING[7], FootOf(n))
  {
    if n < 4 {} else if n < 8 {} else {}
  }

  /** From a, p lies at (x, y) and b at (dx, dy). */
  predicate Lies(p: Vertex, a: Vertex, b: Vertex, x: real, y: real, dx: real, dy: real) {
    p.x - a.x == x && p.y - a.y == y && b.x - a.x == dx && b.y - a.y == dy
  }

  lemma OverAt(p: Vertex, a: Vertex, b: Vertex, x: real, y: real, dx: real, dy: real, t: real)
    requires Lies(p, a, b, x, y, dx, dy) && 0.0 <= t <= 1.0
    requires Sq(dx) + Sq(dy) > 0.0 && Times(t, Sq(dx) + Sq(dy)) == Times(x, dx) + Times(y, dy)
    ensures SegmentDistance2(p, a, b) == Sq(x) + Sq(y) - Times(t, Times(x, dx) + Times(y, dy))
  {
    SqDifference(a.x, b.x);
    SqDifference(a.y, b.y);
    OverSegment(p, a, b, t);
  }

  lemma FourthIsFarthest(p: Vertex, a: Vertex, b: Vertex)
    requires Lies(p, a, b, 1.0, -2.0, 5.0, -1.0)
    ensures SegmentDistance2(p, a, b) == 81.0 / 26.0
  {
    OverAt(p, a, b, 1.0, -2.0, 5.0, -1.0, 7.0 / 26.0);
  }

  lemma FirstIsStray(p: Vertex, a: Vertex, b: Vertex)
    requires Lies(p, a, b, 2.0, 0.0, 1.0, -2.0)
    ensures SegmentDistance2(p, a, b) == 3.2
  {
    OverAt(p, a, b, 2.0, 0.0, 1.0, -2.0, 0.4);
  }

  lemma EpsilonSquared()
    ensures Sq(EPSILON) == 3.1329
  {
  }

  /** Twelve corners, the seventh farthest from the first and the fourth farthest from the line
      between, within the tolerance; and the first beyond it from the chord to the fourth. */
  ghost predicate Strays(ring: DouglasPeucker.Ring, epsilon: real) {
    && |ring| == 12 && Far(ring, 12) == 7 && epsilon >= 0.0
    && (forall n: nat :: 0 < n < 12 && n != 7 && n != 4 ==> BelowLine(ring, n, 3.0))
    && 3.0 <= SegmentDistance2(ring[4], ring[0], ring[7]) <= Sq(epsilon)
    && SegmentDistance2(ring[1], ring[0], ring[4]) > Sq(epsilon)
  }

  ghost predicate BelowLine(ring: DouglasPeucker.Ring, n: nat, bound: real)
    requires n < |ring| == 12
  {
    SegmentDistance2(ring[n], ring[0], ring[7]) < bound && SegmentDistance2(ring[n], ring[7], ring[0]) < bound
  }

  /** The recursion keeps the first corner and the seventh. */
  lemma TwoKept(ring: DouglasPeucker.Ring, epsilon: real)
    requires Strays(ring, epsilon)
    ensures DouglasPeucker.Kept(ring, epsilon) == {0, 7}
  {
    var left, right := Peak(ring, 0, 7, 7), Peak(ring, 7, 12, 12);
    assert left != 4 ==> BelowLine(ring, left, 3.0);
    assert BelowLine(ring, right, 3.0);
    assert Splits(ring, 0, 7, epsilon) == {} && Splits(ring, 7, 12, epsilon) == {};
  }

  lemma OthersNearer(ring: DouglasPeucker.Ring, epsilon: real)
    requires Strays(ring, epsilon)
    ensures forall m: nat :: m < 12 && m != 0 && m != 7 && m != 4 ==>
              SegmentDistance2(ring[m], ring[0], ring[7]) < SegmentDistance2(ring[4], ring[0], ring[7])
  {
    forall m: nat | m < 12 && m != 0 && m != 7 && m != 4
      ensures SegmentDistance2(ring[m], ring[0], ring[7]) < SegmentDistance2(ring[4], ring[0], ring[7])
    {
      assert BelowLine(ring, m, 3.0);
    }
  }

  lemma FourthPutBack(ring: DouglasPeucker.Ring, epsilon: real)
    requires Strays(ring, epsilon)
    ensures |DouglasPeucker.Kept(ring, epsilon)| < 3 && PutBack(ring, epsilon) == 4
  {
    TwoKept(ring, epsilon);
    OthersNearer(ring, epsilon);
    PutBackIs(ring, 7, epsilon, 4);
  }

  lemma StraysIsStray(ring: DouglasPeucker.Ring, epsilon: real)
    requires Strays(ring, epsilon)
    ensures KeptAll(ring, epsilon) == {0, 4, 7} && Exceeds(Chord2(ring, 1, 0, 4), epsilon)
    ensures !AllNear(ring, epsilon)
  {
    TwoKept(ring, epsilon);
    FourthPutBack(ring, epsilon);
    DroppedNearExactly(ring, epsilon);
  }

  lemma RingStrays(ring: DouglasPeucker.Ring)
    requires ring == RING
    ensures Strays(ring, EPSILON)
  {
    RingIsLong(ring);
    forall n: nat | 0 < n < 12 && n != 7 && n != 4 ensures BelowLine(ring, n, 3.0) {
      FootIsClose(n);
      CloseIsBelow(ring, n, FootOf(n));
    }
    FarIsSeventh(ring);
    RingDistances(ring);
  }

  lemma RingIsLong(ring: DouglasPeucker.Ring)
    requires ring == RING
    ensures |ring| == 12
  {
  }

  lemma RingDistances(ring: DouglasPeucker.Ring)
    requires ring == RING && |ring| == 12
    ensures 3.0 <= SegmentDistance2(ring[4], ring[0], ring[7]) <= Sq(EPSILON)
    ensures SegmentDistance2(ring[1], ring[0], ring[4]) > Sq(EPSILON)
  {
    RingPlaces(ring);
    Distances(ring[0], ring[1], ring[4], ring[7]);
  }

  lemma RingPlaces(ring: DouglasPeucker.Ring)
    requires ring == RING && |ring| == 12
    ensures Lies(ring[4], ring[0], ring[7], 1.0, -2.0, 5.0, -1.0)
            && Lies(ring[1], ring[0], ring[4], 2.0, 0.0, 1.0, -2.0)
  {
    RingVertices(ring);
    LiesSo(ring[4], ring[0], ring[7], 1.0, 0.0, 0.0, 2.0, 5.0, 1.0);
    LiesSo(ring[1], ring[0], ring[4], 2.0, 2.0, 0.0, 2.0, 1.0, 0.0);
  }

  lemma RingVertices(ring: DouglasPeucker.Ring)
    requires ring == RING && |ring| == 12
    ensures ring[0] == FIRST && ring[1] == Vertex(2.0, 2.0) && ring[4] == Vertex(1.0, 0.0) && ring[7] == SEVENTH
  {
  }

  lemma LiesSo(p: Vertex, a: Vertex, b: Vertex, px: real, py: real, ax: real, ay: real, bx: real, by_: real)
    requires p == Vertex(px, py) && a == Vertex(ax, ay) && b == Vertex(bx, by_)
    ensures Lies(p, a, b, px - ax, py - ay, bx - ax, by_ - ay)
  {
  }

  lemma Distances(first: Vertex, next: Vertex, fourth: Vertex, seventh: Vertex)
    requires Lies(fourth, first, seventh, 1.0, -2.0, 5.0, -1.0) && Lies(next, first, fourth, 2.0, 0.0, 1.0, -2.0)
    ensures 3.0 <= SegmentDistance2(fourth, first, seventh) <= Sq(EPSILON)
    ensures SegmentDistance2(next, first, fourth) > Sq(EPSILON)
  {
    FourthIsFarthest(fourth, first, seventh);
    FirstIsStray(next, first, fourth);
    EpsilonSquared();
  }

  lemma CloseIsBelow(ring: DouglasPeucker.Ring, n: nat, t: real)
    requires n < |ring| == 12 && CloseAt(ring[n], ring[0], ring[7], t)
    ensures BelowLine(ring, n, 3.0)
  {
    NearLine(ring[n], ring[0], ring[7], t);
  }

  /** A ring that `regions` can trace, at a tolerance that `outlines` can choose, of which `simplify`
      returns three corners with the first of the dropped ones farther from its new chord than the
      tolerance. */
  lemma PutBackMayStray()
    ensures Region(LABELS, true) == HOOK && IsPiece(HOOK, HOOK) && IsFilled(HOOK, HOOK)
    ensures RING == InSteps(Rings.Ring(HOOK), 1.0) && EPSILON == Tolerance(177, 1.0)
    ensures KeptAll(RING, EPSILON) == {0, 4, 7} && Exceeds(Chord2(RING, 1, 0, 4), EPSILON)
    ensures !AllNear(RING, EPSILON)
  {
    HookIsRegion();
    HookIsPiece();
    HookIsFilled();
    RingIsTrace();
    RingStrays(RING);
    StraysIsStray(RING, EPSILON);
  }
}
