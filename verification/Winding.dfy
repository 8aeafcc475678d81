/** Around a piece joined by its sides and without holes the walk is the whole boundary. The
    winding number of the walk is the same on all the piece's squares, as no boundary edge
    lies between two of them, and zero on every square around it, even where two of those
    only touch at a corner. So every boundary edge separates the same two numbers, and as
    one is walked, all are. */
module Winding {
  import opened Squares
  import opened Reach
  import opened Boundary

  // the winding number of any balanced set of edges

  ghost predicate Balanced(edges: set<Edge>) {
    forall p :: Leaving(edges, p) == Arriving(edges, p)
  }

  /** What the edges add from square (x, y) to the square on its left. */
  function Crossing(edges: set<Edge>, x: int, y: int): int {
    Has(edges, Point(x, y), North) - Has(edges, Point(x, y + 1), South)
  }

  /** What they add from the square under (x, y) to (x, y) itself. */
  function Rise(edges: set<Edge>, x: int, y: int): int {
    Has(edges, Point(x, y), East) - Has(edges, Point(x + 1, y), West)
  }

  ghost predicate Clears(edges: set<Edge>, limit: int) {
    forall e :: e in edges ==> e.at.x < limit
  }

  /** The winding number on square (x, y): what a ray to the right crosses. */
  function WindingOf(edges: set<Edge>, limit: int, x: int, y: int): int
    decreases limit - x
  {
    if x >= limit then 0
    else WindingOf(edges, limit, x + 1, y) + Crossing(edges, x + 1, y)
  }

  function WindingAt(edges: set<Edge>, limit: int, s: Point): int {
    WindingOf(edges, limit, s.x, s.y)
  }

  /** The same number counts what a ray down crosses: going up one square changes it by the
      edge between the two. */
  lemma {:induction false} WindingRise(edges: set<Edge>, limit: int, x: int, y: int)
    requires Balanced(edges) && Clears(edges, limit)
    ensures WindingOf(edges, limit, x, y) - WindingOf(edges, limit, x, y - 1) == Rise(edges, x, y)
    decreases limit - x
  {
    if x < limit {
      WindingRise(edges, limit, x + 1, y);
      var p := Point(x + 1, y);
      assert Leaving(edges, p) == Arriving(edges, p);
      assert Ahead(p, West) == Point(x, y) && Ahead(p, South) == Point(x + 1, y - 1);
      assert Ahead(p, North) == Point(x + 1, y + 1) && Ahead(p, East) == Point(x + 2, y);
    }
  }

  function Reversed(e: Edge): Edge {
    Edge(Head(e), LeftTurn(LeftTurn(e.heading)))
  }

  function Count(edges: set<Edge>, e: Edge): int {
    if e in edges then 1 else 0
  }

  /** Crossing an edge from its right to its left adds one if it is among the edges. */
  lemma WindingAcross(edges: set<Edge>, limit: int, e: Edge)
    requires Balanced(edges) && Clears(edges, limit)
    ensures WindingAt(edges, limit, LeftOf(e)) - WindingAt(edges, limit, RightOf(e))
         == Count(edges, e) - Count(edges, Reversed(e))
  {
    var p := e.at;
    match e.heading {
      case East =>
        WindingRise(edges, limit, p.x, p.y);
      case West =>
        WindingRise(edges, limit, p.x - 1, p.y);
        assert Reversed(e) == Edge(Point(p.x - 1, p.y), East);
      case North =>
        assert Reversed(e) == Edge(Point(p.x, p.y + 1), South);
        assert WindingOf(edges, limit, p.x - 1, p.y)
            == WindingOf(edges, limit, p.x, p.y) + Crossing(edges, p.x, p.y);
      case South =>
        assert Reversed(e) == Edge(Point(p.x, p.y - 1), North);
        assert WindingOf(edges, limit, p.x - 1, p.y - 1)
            == WindingOf(edges, limit, p.x, p.y - 1) + Crossing(edges, p.x, p.y - 1);
    }
  }

  /** A row that no edge crosses has winding number zero all along. */
  lemma {:induction false} WindingZero(edges: set<Edge>, limit: int, x: int, y: int)
    requires forall at: int :: Crossing(edges, at, y) == 0
    ensures WindingOf(edges, limit, x, y) == 0
    decreases limit - x
  {
    if x < limit {
      WindingZero(edges, limit, x + 1, y);
    }
  }

  /** The edge with s on its left and its neighbour t on its right. */
  function Between(s: Point, t: Point): (e: Edge)
    requires Adjacent4(s, t)
    ensures LeftOf(e) == s && RightOf(e) == t
  {
    Side(s, if t == Ahead(s, East) then North else if t == Ahead(s, North) then West
            else if t == Ahead(s, West) then South else East)
  }

  // the winding number of a cycle of Next

  ghost predicate GoesOn(part: set<Point>, edges: set<Edge>, e: Edge) {
    e in edges <==> Bounds(part, e) && Next(part, e) in edges
  }

  /** A set of boundary edges that Next leads into itself and only itself into. */
  ghost predicate Cycle(part: set<Point>, edges: set<Edge>) {
    && edges <= Edges(part)
    && forall e :: GoesOn(part, edges, e)
  }

  lemma CycleBalanced(part: set<Point>, edges: set<Edge>)
    requires Cycle(part, edges)
    ensures Balanced(edges)
  {
    forall p ensures Leaving(edges, p) == Arriving(edges, p) {
      assert GoesOn(part, edges, Edge(Ahead(p, West), East));
      assert GoesOn(part, edges, Edge(Ahead(p, South), North));
      assert GoesOn(part, edges, Edge(Ahead(p, East), West));
      assert GoesOn(part, edges, Edge(Ahead(p, North), South));
    }
  }

  /** Two squares on the same side of the boundary that share a side have one winding number. */
  lemma WindingBeside(part: set<Point>, edges: set<Edge>, limit: int, s: Point, t: Point)
    requires Cycle(part, edges) && Clears(edges, limit)
    requires (s in part) == (t in part) && Adjacent4(s, t)
    ensures WindingAt(edges, limit, s) == WindingAt(edges, limit, t)
  {
    var e := Between(s, t);
    CycleBalanced(part, edges);
    WindingAcross(edges, limit, e);
    assert !Bounds(part, e) && !Bounds(part, Reversed(e));
  }

  /** So do two squares outside that only touch at a corner: the edges there that turn into
      each other are both in the cycle, or neither. */
  lemma WindingOutside(part: set<Point>, edges: set<Edge>, limit: int, s: Point, t: Point)
    requires Cycle(part, edges) && Clears(edges, limit)
    requires s !in part && t !in part && Adjacent8(s, t)
    ensures WindingAt(edges, limit, s) == WindingAt(edges, limit, t)
  {
    if s == t {
    } else if Adjacent4(s, t) {
      WindingBeside(part, edges, limit, s, t);
    } else {
      var a, b := Point(s.x, t.y), Point(t.x, s.y);
      if a !in part {
        WindingBeside(part, edges, limit, s, a);
        WindingBeside(part, edges, limit, a, t);
      } else if b !in part {
        WindingBeside(part, edges, limit, s, b);
        WindingBeside(part, edges, limit, b, t);
      } else {
        WindingAtPinch(part, edges, limit, s, t);
      }
    }
  }

  lemma WindingAtPinch(part: set<Point>, edges: set<Edge>, limit: int, s: Point, t: Point)
    requires Cycle(part, edges) && Clears(edges, limit)
    requires s !in part && t !in part
    requires (t.x == s.x + 1 || t.x == s.x - 1) && (t.y == s.y + 1 || t.y == s.y - 1)
    requires Point(s.x, t.y) in part && Point(t.x, s.y) in part
    ensures WindingAt(edges, limit, s) == WindingAt(edges, limit, t)
  {
    var a := Point(s.x, t.y);
    var e := Side(a, if t.x == s.x + 1 then (if t.y == s.y + 1 then East else North)
                     else if t.y == s.y + 1 then South else West);
    var n := Next(part, e);
    CycleBalanced(part, edges);
    assert GoesOn(part, edges, e);
    assert LeftOf(e) == a && {RightOf(e), RightOf(n)} == {s, t};
    assert n == Edge(Head(e), LeftTurn(e.heading)) && LeftOf(n) == a;
    WindingAcross(edges, limit, e);
    WindingAcross(edges, limit, n);
    assert RightOf(Reversed(e)) == a && RightOf(Reversed(n)) == a;
  }

  lemma WindingOnPiece(part: set<Point>, edges: set<Edge>, limit: int, s: Point, t: Point)
    requires Cycle(part, edges) && Clears(edges, limit)
    requires s in part && t in part && Connected4(part)
    ensures WindingAt(edges, limit, s) == WindingAt(edges, limit, t)
  {
    var same := q => WindingAt(edges, limit, q) == WindingAt(edges, limit, s);
    forall p, q | same(p) && SideSteps(part)(p, q) ensures same(q) {
      WindingBeside(part, edges, limit, p, q);
    }
    Kept(SideSteps(part), same, s, t);
  }

  lemma WindingOffPiece(part: set<Point>, edges: set<Edge>, limit: int, box: Box, t: Point)
    requires Cycle(part, edges) && Clears(edges, limit)
    requires HoleFree(part, box) && InBox(box, t) && t !in part
    ensures WindingAt(edges, limit, t) == 0
  {
    var corner := Point(box.x0, box.y0);
    forall at: int ensures Crossing(edges, at, box.y0) == 0 {
      assert !Bounds(part, Edge(Point(at, box.y0), North));
      assert !Bounds(part, Edge(Point(at, box.y0 + 1), South));
    }
    WindingZero(edges, limit, box.x0, box.y0);
    var zero := q => q !in part && WindingAt(edges, limit, q) == 0;
    forall p, q | zero(p) && OutsideSteps(part, box)(p, q) ensures zero(q) {
      WindingOutside(part, edges, limit, p, q);
    }
    Kept(OutsideSteps(part, box), zero, corner, t);
  }

  /** Over a boundary edge the winding number rises by one if the cycle holds the edge. */
  lemma WindingOfBoundary(part: set<Point>, edges: set<Edge>, limit: int, e: Edge)
    requires Cycle(part, edges) && Clears(edges, limit) && Bounds(part, e)
    ensures WindingAt(edges, limit, LeftOf(e)) - WindingAt(edges, limit, RightOf(e)) == Count(edges, e)
  {
    CycleBalanced(part, edges);
    WindingAcross(edges, limit, e);
    assert RightOf(Reversed(e)) == LeftOf(e);
  }

  /** So the cycle holds all boundary edges if it holds one. */
  lemma CycleSpreads(part: set<Point>, edges: set<Edge>, box: Box, first: Edge, e: Edge)
    requires Connected4(part) && HoleFree(part, box) && Cycle(part, edges)
    requires first in edges && Bounds(part, first) && Bounds(part, e)
    ensures e in edges
  {
    var limit := box.x1 + 1;
    assert Clears(edges, limit);
    WindingOfBoundary(part, edges, limit, first);
    WindingOfBoundary(part, edges, limit, e);
    WindingOnPiece(part, edges, limit, LeftOf(first), LeftOf(e));
    WindingOffPiece(part, edges, limit, box, RightOf(first));
    WindingOffPiece(part, edges, limit, box, RightOf(e));
  }

  /** Around a connected piece without holes the walk takes every boundary edge. */
  lemma WalkIsWholeBoundary(part: set<Point>, box: Box)
    requires part != {} && Connected4(part) && HoleFree(part, box)
    ensures Walked(part) == Edges(part)
  {
    forall e ensures GoesOn(part, Walked(part), e) {
      if Bounds(part, e) {
        WalkClosed(part, e);
      }
    }
    forall e | Bounds(part, e) ensures e in Walked(part) {
      CycleSpreads(part, Walked(part), box, Walk(part)[0], e);
    }
  }
}
