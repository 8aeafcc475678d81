/** Cross-product sums. Over the boundary of a set of squares they make twice its size. */
module Area {
  import opened Squares
  import opened Boundary
  import opened Winding

  function Cross(p: Point, q: Point): int {
    p.x * q.y - q.x * p.y
  }

  function EdgeCross(e: Edge): int {
    Cross(e.at, Head(e))
  }

  ghost function SetSum(edges: set<Edge>): int {
    if edges == {} then 0
    else var e :| e in edges; EdgeCross(e) + SetSum(edges - {e})
  }

  lemma {:induction false} SetSumPick(edges: set<Edge>, f: Edge)
    requires f in edges
    ensures SetSum(edges) == EdgeCross(f) + SetSum(edges - {f})
  {
    var e :| e in edges && SetSum(edges) == EdgeCross(e) + SetSum(edges - {e});
    if e != f {
      SetSumPick(edges - {e}, f);
      SetSumPick(edges - {f}, e);
      assert edges - {e} - {f} == edges - {f} - {e};
    }
  }

  lemma SetSumWith(edges: set<Edge>, e: Edge)
    requires e !in edges
    ensures SetSum(edges + {e}) == SetSum(edges) + EdgeCross(e)
  {
    SetSumPick(edges + {e}, e);
    assert edges + {e} - {e} == edges;
  }

  lemma {:induction false} SetSumSplit(a: set<Edge>, b: set<Edge>)
    requires a !! b
    ensures SetSum(a + b) == SetSum(a) + SetSum(b)
    decreases b
  {
    if b == {} {
      assert a + b == a;
    } else {
      var e :| e in b;
      SetSumSplit(a + {e}, b - {e});
      assert a + b == a + {e} + (b - {e});
      SetSumWith(a, e);
      SetSumPick(b, e);
    }
  }

  /** The square across side d of s. */
  function Across(s: Point, d: Heading): Point {
    RightOf(Side(s, d))
  }

  /** What putting square s into a set does along its side d: the side shared with a square
      already there goes, any other side comes. */
  ghost function Toggle(part: set<Point>, edges: set<Edge>, s: Point, d: Heading): set<Edge> {
    if Across(s, d) in part then edges - {Reversed(Side(s, d))} else edges + {Side(s, d)}
  }

  ghost predicate Ready(part: set<Point>, edges: set<Edge>, s: Point, d: Heading) {
    if Across(s, d) in part then Reversed(Side(s, d)) in edges else Side(s, d) !in edges
  }

  lemma ToggleSum(part: set<Point>, edges: set<Edge>, s: Point, d: Heading)
    requires Ready(part, edges, s, d)
    ensures SetSum(Toggle(part, edges, s, d)) == SetSum(edges) + EdgeCross(Side(s, d))
    ensures forall c: Heading :: c != d && Ready(part, edges, s, c) ==> Ready(part, Toggle(part, edges, s, d), s, c)
  {
    var e := Side(s, d);
    if Across(s, d) in part {
      SetSumPick(edges, Reversed(e));
      assert Head(Reversed(e)) == e.at;
    } else {
      SetSumWith(edges, e);
    }
  }

  lemma SidesGrow(part: set<Point>, s: Point)
    requires s !in part
    ensures Edges(part + {s}) ==
      Toggle(part, Toggle(part, Toggle(part, Toggle(part, Edges(part), s, East), s, North), s, West), s, South)
  {
    var whole := part + {s};
    var two := Toggle(part, Toggle(part, Edges(part), s, East), s, North);
    var grown := Toggle(part, Toggle(part, two, s, West), s, South);
    forall e: Edge ensures e in Edges(whole) <==> e in grown {
      if LeftOf(e) == s {
        assert e == Side(s, e.heading);
      } else if RightOf(e) == s {
        assert e == Reversed(Side(s, LeftTurn(LeftTurn(e.heading))));
      }
    }
  }

  lemma SidesReady(part: set<Point>, s: Point)
    requires s !in part
    ensures forall d: Heading :: Ready(part, Edges(part), s, d)
  {
    forall d: Heading ensures Ready(part, Edges(part), s, d) {
      assert LeftOf(Reversed(Side(s, d))) == Across(s, d) && RightOf(Reversed(Side(s, d))) == s;
    }
  }

  lemma SidesCross(s: Point)
    ensures EdgeCross(Side(s, East)) + EdgeCross(Side(s, North))
          + EdgeCross(Side(s, West)) + EdgeCross(Side(s, South)) == 2
  {
  }

  /** Putting the sides in one after the other adds up their cross products. */
  lemma SidesSum(part: set<Point>, edges: set<Edge>, s: Point)
    requires forall d: Heading :: Ready(part, edges, s, d)
    ensures SetSum(Toggle(part, Toggle(part, Toggle(part, Toggle(part, edges, s, East), s, North), s, West), s, South))
         == SetSum(edges) + EdgeCross(Side(s, East)) + EdgeCross(Side(s, North))
            + EdgeCross(Side(s, West)) + EdgeCross(Side(s, South))
  {
    var e1 := Toggle(part, edges, s, East);
    var e2 := Toggle(part, e1, s, North);
    var e3 := Toggle(part, e2, s, West);
    ToggleSum(part, edges, s, East);
    ToggleSum(part, e1, s, North);
    ToggleSum(part, e2, s, West);
    ToggleSum(part, e3, s, South);
  }

  /** One more square adds two, wherever it goes. */
  lemma SquareArea(part: set<Point>, s: Point)
    requires s !in part
    ensures SetSum(Edges(part + {s})) == SetSum(Edges(part)) + 2
  {
    SidesGrow(part, s);
    SidesReady(part, s);
    SidesSum(part, Edges(part), s);
    SidesCross(s);
  }

  /** The boundary of any set of squares has a cross-product sum of twice its size. */
  lemma {:induction false} BoundaryArea(part: set<Point>)
    ensures SetSum(Edges(part)) == 2 * |part|
  {
    if part == {} {
      assert Edges(part) == {};
    } else {
      var s :| s in part;
      BoundaryArea(part - {s});
      SquareArea(part - {s}, s);
      assert part - {s} + {s} == part;
    }
  }

  /** A number for each straight line from one corner to another. */
  type Measure = (Point, Point) -> int

  function SeqSum(f: Measure, edges: seq<Edge>): int {
    if edges == [] then 0 else SeqSum(f, edges[..|edges| - 1]) + f(edges[|edges| - 1].at, Head(edges[|edges| - 1]))
  }

  ghost predicate EachOnce(edges: seq<Edge>) {
    forall i, j :: 0 <= i < j < |edges| ==> edges[i] != edges[j]
  }

  lemma {:induction false} SeqSumIsSetSum(edges: seq<Edge>)
    requires EachOnce(edges)
    ensures SeqSum(Cross, edges) == SetSum(set e | e in edges)
  {
    if edges != [] {
      var rest, last := edges[..|edges| - 1], edges[|edges| - 1];
      SeqSumIsSetSum(rest);
      SetSumWith((set e | e in rest), last);
      assert (set e | e in rest) + {last} == set e | e in edges;
    }
  }

  /** What the walk encloses and what it leaves over make up the whole area. */
  lemma WalkArea(part: set<Point>)
    requires part != {}
    ensures SeqSum(Cross, Walk(part)) + SetSum(Edges(part) - Walked(part)) == 2 * |part|
  {
    SeqSumIsSetSum(Walk(part));
    SetSumSplit(Walked(part), Edges(part) - Walked(part));
    assert Walked(part) + (Edges(part) - Walked(part)) == Edges(part);
    BoundaryArea(part);
  }
}
