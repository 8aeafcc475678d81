/** The directed boundary of a set of squares: every unit edge with a square of the set on its
    left and none on its right, and the edge that a left-hand walk takes after each. */
module Boundary {
  import opened Squares
  import opened Reach

  datatype Edge = Edge(at: Point, heading: Heading)

  function Head(e: Edge): Point {
    Ahead(e.at, e.heading)
  }

  function LeftOf(e: Edge): Point {
    match e.heading
    case East => e.at
    case North => Point(e.at.x - 1, e.at.y)
    case West => Point(e.at.x - 1, e.at.y - 1)
    case South => Point(e.at.x, e.at.y - 1)
  }

  function RightOf(e: Edge): Point {
    match e.heading
    case East => Point(e.at.x, e.at.y - 1)
    case North => e.at
    case West => Point(e.at.x - 1, e.at.y)
    case South => Point(e.at.x - 1, e.at.y - 1)
  }

  /** The edge along side d of square s, with s on its left: its bottom heads east. */
  function Side(s: Point, d: Heading): Edge {
    match d
    case East => Edge(s, East)
    case North => Edge(Point(s.x + 1, s.y), North)
    case West => Edge(Point(s.x + 1, s.y + 1), West)
    case South => Edge(Point(s.x, s.y + 1), South)
  }

  predicate Bounds(part: set<Point>, e: Edge) {
    LeftOf(e) in part && RightOf(e) !in part
  }

  function Edges(part: set<Point>): (edges: set<Edge>)
    ensures forall e :: e in edges <==> Bounds(part, e)
  {
    var edges := set s, d | s in part && d in HEADINGS && RightOf(Side(s, d)) !in part :: Side(s, d);
    assert forall s, d :: LeftOf(Side(s, d)) == s;
    assert forall e: Edge :: Side(LeftOf(e), e.heading) == e;
    assert forall e | Bounds(part, e) :: e.heading in HEADINGS && Side(LeftOf(e), e.heading) in edges;
    edges
  }

  /** Where the walk goes after e: left if it can, else straight on, else right. */
  function Next(part: set<Point>, e: Edge): Edge {
    var p := Head(e);
    if Bounds(part, Edge(p, LeftTurn(e.heading))) then Edge(p, LeftTurn(e.heading))
    else if Bounds(part, Edge(p, e.heading)) then Edge(p, e.heading)
    else Edge(p, RightTurn(e.heading))
  }

  /** The walk never lacks an edge to go on with, and never turns back. */
  lemma NextBounds(part: set<Point>, e: Edge)
    requires Bounds(part, e)
    ensures Bounds(part, Next(part, e)) && Next(part, e).at == Head(e)
  {
  }

  /** Two edges never share their next edge. */
  lemma NextInjective(part: set<Point>, e: Edge, f: Edge)
    requires Bounds(part, e) && Bounds(part, f) && Next(part, e) == Next(part, f)
    ensures e == f
  {
    assert Head(e) == Head(f);
  }

  /** At a corner with two ways on, the way the walk takes is its left turn. */
  lemma TwoWaysGoLeft(part: set<Point>, e: Edge, a: Heading, b: Heading)
    requires Bounds(part, e) && a != b
    requires Bounds(part, Edge(Head(e), a)) && Bounds(part, Edge(Head(e), b))
    ensures Next(part, e) == Edge(Head(e), LeftTurn(e.heading))
    ensures a == LeftTurn(e.heading) || b == LeftTurn(e.heading)
    ensures forall c: Heading :: Bounds(part, Edge(Head(e), c)) ==> c == a || c == b
  {
  }

  /** The walk stays along squares that meet by their sides: it never hops over a corner that
      two squares only touch at. */
  lemma NextSameSide(part: set<Point>, e: Edge)
    requires Bounds(part, e)
    ensures Reaches(SideSteps(part), LeftOf(e), LeftOf(Next(part, e)))
  {
    var step, n := SideSteps(part), Next(part, e);
    Self(step, LeftOf(e));
    if n.heading == e.heading {
      Then(step, LeftOf(e), LeftOf(e), LeftOf(n));
    } else if n.heading == RightTurn(e.heading) {
      var ahead := LeftOf(Edge(Head(e), e.heading));
      Then(step, LeftOf(e), LeftOf(e), ahead);
      Then(step, LeftOf(e), ahead, LeftOf(n));
    }
  }

  /** As many boundary edges leave each corner as arrive there. */
  lemma Balance(part: set<Point>, p: Point)
    ensures Leaving(Edges(part), p) == Arriving(Edges(part), p)
  {
  }

  function Has(edges: set<Edge>, p: Point, d: Heading): int {
    if Edge(p, d) in edges then 1 else 0
  }

  function Leaving(edges: set<Edge>, p: Point): int {
    Has(edges, p, East) + Has(edges, p, North) + Has(edges, p, West) + Has(edges, p, South)
  }

  function Arriving(edges: set<Edge>, p: Point): int {
    Has(edges, Ahead(p, West), East) + Has(edges, Ahead(p, South), North)
    + Has(edges, Ahead(p, East), West) + Has(edges, Ahead(p, North), South)
  }

  // the walk

  /** Nothing in the set lies left of p, nor below it in p's column. */
  ghost predicate LeastCorner(part: set<Point>, p: Point) {
    && (exists d :: Bounds(part, Edge(p, d)))
    && forall e :: Bounds(part, e) ==> e.at == p || Before(p, e.at)
  }

  /** The least corner has one way out, east, and the walk comes back to it heading south. */
  lemma StartHeadsEast(part: set<Point>, p: Point, e: Edge)
    requires LeastCorner(part, p)
    ensures Bounds(part, e) && e.at == p ==> e.heading == East
    ensures Bounds(part, e) && Head(e) == p ==> e.heading == South && Next(part, e) == Edge(p, East)
    ensures Bounds(part, Edge(p, East))
  {
    var d :| Bounds(part, Edge(p, d));
    NoneWest(part, p);
    if Bounds(part, e) && Head(e) == p {
      NextBounds(part, e);
    }
  }

  lemma NoneWest(part: set<Point>, p: Point)
    requires LeastCorner(part, p)
    ensures Point(p.x - 1, p.y) !in part && Point(p.x - 1, p.y - 1) !in part
    ensures Point(p.x, p.y - 1) !in part
  {
    var squares := set s | s in part && s.x < p.x;
    if squares != {} {
      var s := Leftmost(squares);
      assert Bounds(part, Side(s, South));
    }
    assert forall s :: s in part ==> s !in squares;
    var below := Point(p.x, p.y - 1);
    if below in part {
      assert Point(p.x - 1, p.y - 1) !in part;
      NextBounds(part, Side(below, South));
    }
  }

  lemma Leftmost(squares: set<Point>) returns (s: Point)
    requires squares != {}
    ensures s in squares && forall t :: t in squares ==> s.x <= t.x
  {
    s :| s in squares;
    if squares != {s} {
      var t := Leftmost(squares - {s});
      if t.x < s.x { s := t; }
    }
  }

  /** A walk from p: distinct boundary edges, each the next of the one before, that has not
      been back at p before its end. */
  ghost predicate IsWalk(part: set<Point>, p: Point, walk: seq<Edge>) {
    && |walk| > 0 && walk[0] == Edge(p, East)
    && (forall i :: 0 <= i < |walk| ==> Bounds(part, walk[i]))
    && (forall i :: 0 < i < |walk| ==> walk[i] == Next(part, walk[i - 1]))
    && (forall i, j :: 0 <= i < j < |walk| ==> walk[i] != walk[j])
    && (forall i :: 0 < i < |walk| ==> walk[i].at != p)
  }

  /** A walk that is not back at its start has an edge to go on with that it has not used. */
  lemma FreshNext(part: set<Point>, p: Point, walk: seq<Edge>)
    requires IsWalk(part, p, walk) && Head(walk[|walk| - 1]) != p
    ensures IsWalk(part, p, walk + [Next(part, walk[|walk| - 1])])
  {
    var last := walk[|walk| - 1];
    var next := Next(part, last);
    NextBounds(part, last);
    forall j | 0 <= j < |walk| ensures walk[j] != next {
      if walk[j] == next && j > 0 {
        NextInjective(part, walk[j - 1], last);
      }
    }
    var longer := walk + [next];
    assert forall i :: 0 < i < |longer| ==> longer[i] == Next(part, longer[i - 1]);
  }

  /** The walk that `trace` makes from p, begun with the edges already walked. */
  ghost function WalkOn(part: set<Point>, p: Point, walk: seq<Edge>): (whole: seq<Edge>)
    requires IsWalk(part, p, walk)
    ensures IsWalk(part, p, whole) && Head(whole[|whole| - 1]) == p && walk <= whole
    decreases |Edges(part)| - |walk|
  {
    var last := walk[|walk| - 1];
    if Head(last) == p then walk
    else
      FreshNext(part, p, walk);
      WalkFits(part, p, walk + [Next(part, last)]);
      WalkOn(part, p, walk + [Next(part, last)])
  }

  lemma WalkFits(part: set<Point>, p: Point, walk: seq<Edge>)
    requires IsWalk(part, p, walk)
    ensures |walk| <= |Edges(part)|
  {
    DistinctFit(walk, Edges(part));
  }

  lemma {:induction false} DistinctFit<T>(s: seq<T>, all: set<T>)
    requires forall i :: 0 <= i < |s| ==> s[i] in all
    requires forall i, j :: 0 <= i < j < |s| ==> s[i] != s[j]
    ensures |s| <= |all|
  {
    if |s| > 0 {
      DistinctFit(s[1..], all - {s[0]});
    }
  }

  ghost function LeastOf(part: set<Point>): (p: Point)
    requires part != {}
    ensures LeastCorner(part, p)
  {
    LeastExists(part);
    var p :| LeastCorner(part, p);
    p
  }

  lemma LeastExists(part: set<Point>)
    requires part != {}
    ensures exists p :: LeastCorner(part, p)
  {
    var s := Leftmost(part);
    assert Bounds(part, Side(s, South));
    var e := LeastEdge(Edges(part));
    assert Bounds(part, Edge(e.at, e.heading));
    assert LeastCorner(part, e.at);
  }

  lemma LeastEdge(edges: set<Edge>) returns (e: Edge)
    requires edges != {}
    ensures e in edges && forall f :: f in edges ==> e.at == f.at || Before(e.at, f.at)
  {
    e :| e in edges;
    if edges != {e} {
      var f := LeastEdge(edges - {e});
      if Before(f.at, e.at) { e := f; }
    }
  }

  /** The whole walk that `trace` makes around part. */
  ghost function Walk(part: set<Point>): (walk: seq<Edge>)
    requires part != {}
    ensures var p := LeastOf(part); IsWalk(part, p, walk) && Head(walk[|walk| - 1]) == p
  {
    var p := LeastOf(part);
    StartHeadsEast(part, p, Edge(p, East));
    WalkOn(part, p, [Edge(p, East)])
  }

  /** Every walked edge runs along squares joined by their sides to the first one, so pieces
      that only touch at a corner are kept apart. */
  lemma {:induction false} WalkSameSide(part: set<Point>, i: nat)
    requires part != {} && i < |Walk(part)|
    ensures Reaches(SideSteps(part), LeftOf(Walk(part)[0]), LeftOf(Walk(part)[i]))
  {
    var walk, step := Walk(part), SideSteps(part);
    if i == 0 {
      Self(step, LeftOf(walk[0]));
    } else {
      WalkSameSide(part, i - 1);
      NextSameSide(part, walk[i - 1]);
      Transitive(step, LeftOf(walk[0]), LeftOf(walk[i - 1]), LeftOf(walk[i]));
    }
  }

  ghost function Walked(part: set<Point>): (walked: set<Edge>)
    requires part != {}
  {
    set e | e in Walk(part)
  }

  /** The walk takes an edge exactly if it takes the next one: it is one whole cycle of Next. */
  lemma WalkClosed(part: set<Point>, e: Edge)
    requires part != {} && Bounds(part, e)
    ensures e in Walk(part) <==> Next(part, e) in Walk(part)
  {
    var walk := Walk(part);
    var p, n := LeastOf(part), |walk|;
    StartHeadsEast(part, p, walk[n - 1]);
    if e in walk {
      var i :| 0 <= i < n && walk[i] == e;
      if i < n - 1 {
        assert walk[i + 1] == Next(part, walk[i]);
      }
    }
    if Next(part, e) in walk {
      var j :| 0 <= j < n && walk[j] == Next(part, e);
      NextInjective(part, e, walk[if j == 0 then n - 1 else j - 1]);
    }
  }
}
