/** `trace` of demo/outline.py: lists each corner's outgoing edges, then uses them up in a walk. */
module Trace {
  import opened Wrappers
  import opened Squares
  import opened Boundary
  import opened Rings

  type EdgeLists = map<Point, seq<Point>>

  predicate Distinct<T(==)>(s: seq<T>) {
    forall i, j :: 0 <= i < j < |s| ==> s[i] != s[j]
  }

  /** The lists hold, for each corner, the far ends of the edges that leave it. */
  ghost predicate Lists(lists: EdgeLists, edges: set<Edge>) {
    && (forall e :: e in edges ==> e.at in lists && Head(e) in lists[e.at])
    && (forall p :: p in lists ==> lists[p] != [] && Distinct(lists[p]))
    && (forall p, q :: p in lists && q in lists[p] ==> Leads(edges, p, q))
  }

  ghost predicate Leads(edges: set<Edge>, p: Point, q: Point) {
    exists d :: Edge(p, d) in edges && q == Ahead(p, d)
  }

  method BuildLists(part: set<Point>) returns (lists: EdgeLists)
    ensures Lists(lists, Edges(part))
  {
    lists := map[];
    var rest := part;
    ghost var listed: set<Edge> := {};
    while rest != {}
      invariant rest <= part
      invariant forall e :: e in listed <==> Bounds(part, e) && LeftOf(e) in part - rest
      invariant Lists(lists, listed)
    {
      var s :| s in rest;
      var corners := [s, Point(s.x + 1, s.y), Point(s.x + 1, s.y + 1), Point(s.x, s.y + 1)];
      var outward := [Point(s.x, s.y - 1), Point(s.x + 1, s.y), Point(s.x, s.y + 1), Point(s.x - 1, s.y)];
      ghost var before := listed;
      var n := 0;
      while n < 4
        invariant 0 <= n <= 4
        invariant forall e :: e in listed <==>
          e in before || (Bounds(part, e) && LeftOf(e) == s && Turn(e.heading) < n)
        invariant Lists(lists, listed)
      {
        if outward[n] !in part {
          var from, to := corners[n], corners[(n + 1) % 4];
          ghost var e := Side(s, [East, North, West, South][n]);
          assert e.at == from && Head(e) == to && LeftOf(e) == s && RightOf(e) == outward[n];
          ListOne(lists, listed, e);
          lists := lists[from := (if from in lists then lists[from] else []) + [to]];
          listed := listed + {e};
        }
        n := n + 1;
      }
      rest := rest - {s};
    }
    assert listed == Edges(part);
  }

  function Turn(d: Heading): nat {
    match d
    case East => 0
    case North => 1
    case West => 2
    case South => 3
  }

  lemma ListOne(lists: EdgeLists, edges: set<Edge>, e: Edge)
    requires Lists(lists, edges) && e !in edges
    ensures Lists(lists[e.at := (if e.at in lists then lists[e.at] else []) + [Head(e)]], edges + {e})
  {
    var ends := if e.at in lists then lists[e.at] else [];
    var longer := lists[e.at := ends + [Head(e)]];
    var more := edges + {e};
    assert Head(e) in ends ==> Leads(edges, e.at, Head(e));
    forall p, q | p in longer && q in longer[p] ensures Leads(more, p, q) {
      if p in lists && q in lists[p] {
        var d :| Edge(p, d) in edges && q == Ahead(p, d);
        assert Edge(p, d) in more;
      } else {
        assert Edge(e.at, e.heading) in more;
      }
    }
  }

  function RemoveFirst(s: seq<Point>, x: Point): seq<Point>
    requires x in s
  {
    if s[0] == x then s[1..] else [s[0]] + RemoveFirst(s[1..], x)
  }

  lemma {:induction false} RemoveFirstDistinct(s: seq<Point>, x: Point)
    requires x in s && Distinct(s)
    ensures Distinct(RemoveFirst(s, x)) && |RemoveFirst(s, x)| == |s| - 1
    ensures forall y :: y in RemoveFirst(s, x) <==> y in s && y != x
  {
    if s[0] == x {
      assert s == [s[0]] + s[1..];
    } else {
      RemoveFirstDistinct(s[1..], x);
      assert s == [s[0]] + s[1..] && s[0] !in s[1..];
    }
  }

  /** Taking an edge out of the lists, and its corner with its last edge. */
  function Take(lists: EdgeLists, at: Point, end: Point): EdgeLists
    requires at in lists && end in lists[at]
  {
    var ends := RemoveFirst(lists[at], end);
    if ends == [] then lists - {at} else lists[at := ends]
  }

  lemma TakeOne(lists: EdgeLists, edges: set<Edge>, e: Edge)
    requires Lists(lists, edges) && e in edges
    ensures Lists(Take(lists, e.at, Head(e)), edges - {e})
  {
    RemoveFirstDistinct(lists[e.at], Head(e));
    var fewer, less := Take(lists, e.at, Head(e)), edges - {e};
    forall f | f in less ensures f.at in fewer && Head(f) in fewer[f.at] {
      assert Head(f) in lists[f.at];
      if f.at == e.at {
        assert Head(f) != Head(e);
        assert Head(f) in RemoveFirst(lists[e.at], Head(e));
      }
    }
    forall p, q | p in fewer && q in fewer[p] ensures Leads(less, p, q) {
      assert q in lists[p] && Leads(edges, p, q);
    }
  }

  method LeastKey(keys: set<Point>) returns (least: Point)
    requires keys != {}
    ensures least in keys && forall p :: p in keys ==> least == p || Before(least, p)
  {
    least :| least in keys;
    var rest := keys - {least};
    while rest != {}
      invariant least in keys && rest <= keys
      invariant forall p :: p in keys - rest ==> least == p || Before(least, p)
    {
      var p :| p in rest;
      ghost var was := least;
      if Before(p, least) { least := p; }
      forall q | q in keys - (rest - {p}) ensures least == q || Before(least, q) {
        assert q != p ==> q in keys - rest;
        assert was == q || Before(was, q) || q == p;
        assert p == Point(p.x, p.y) && was == Point(was.x, was.y);
      }
      rest := rest - {p};
    }
  }

  lemma LeastIsLeast(part: set<Point>, lists: EdgeLists, least: Point)
    requires part != {} && Lists(lists, Edges(part))
    requires least in lists && forall p :: p in lists ==> least == p || Before(least, p)
    ensures least == LeastOf(part)
  {
    var p := LeastOf(part);
    var d :| Bounds(part, Edge(p, d));
    assert Edge(p, d) in Edges(part);
    assert lists[least][0] in lists[least];
    assert Leads(Edges(part), least, lists[least][0]);
  }

  function Towards(from: Point, to: Point): Point {
    Point(to.x - from.x, to.y - from.y)
  }

  /** The first of ends that the left turn leads to, else the first. */
  function LeftEnd(ends: seq<Point>, at: Point, left: Point, n: nat): Point
    requires n <= |ends| && ends != []
    decreases |ends| - n
  {
    if n == |ends| then ends[0]
    else if Towards(at, ends[n]) == left then ends[n]
    else LeftEnd(ends, at, left, n + 1)
  }

  lemma {:induction false} LeftEndFound(ends: seq<Point>, at: Point, left: Point, n: nat, k: nat)
    requires n <= k < |ends| && Towards(at, ends[k]) == left
    ensures LeftEnd(ends, at, left, n) == ends[k]
    decreases k - n
  {
    if Towards(at, ends[n]) != left {
      LeftEndFound(ends, at, left, n + 1, k);
    }
  }

  /** The end that `trace` picks at a corner; it has no heading yet at the start. */
  function Pick(ends: seq<Point>, at: Point, heading: Option<Point>): Point
    requires ends != []
  {
    if heading.None? || |ends| == 1 then ends[0]
    else LeftEnd(ends, at, Point(-heading.value.y, heading.value.x), 0)
  }

  /** The walk so far, and the edges it has not used. */
  ghost predicate Underway(part: set<Point>, walk: seq<Edge>, left: set<Edge>, at: Point, heading: Option<Point>)
    requires part != {}
  {
    && left == Edges(part) - (set e | e in walk)
    && if walk == [] then at == LeastOf(part) && heading == None
       else
         var last := walk[|walk| - 1];
         && IsWalk(part, LeastOf(part), walk) && Head(last) == at
         && at != LeastOf(part) && heading == Some(Towards(last.at, at))
  }

  /** The edge the walk goes on with. */
  ghost function Onward(part: set<Point>, walk: seq<Edge>): Edge
    requires part != {}
  {
    if walk == [] then Edge(LeastOf(part), East) else Next(part, walk[|walk| - 1])
  }

  /** The corner is listed, and what `trace` picks there is where the walk goes on. */
  lemma PickIsOnward(part: set<Point>, lists: EdgeLists, walk: seq<Edge>, left: set<Edge>, at: Point,
                     heading: Option<Point>)
    requires part != {} && Underway(part, walk, left, at, heading) && Lists(lists, left)
    ensures var e := Onward(part, walk);
      && e in left && e.at == at && at in lists && Head(e) in lists[at]
      && Pick(lists[at], at, heading) == Head(e)
      && IsWalk(part, LeastOf(part), walk + [e])
  {
    var e, p := Onward(part, walk), LeastOf(part);
    StartHeadsEast(part, p, e);
    if walk == [] {
      assert walk + [e] == [e];
      assert lists[at][0] in lists[at];
      var d :| Edge(at, d) in left && lists[at][0] == Ahead(at, d);
      StartHeadsEast(part, p, Edge(at, d));
    } else {
      var last := walk[|walk| - 1];
      FreshNext(part, p, walk);
      var longer := walk + [e];
      assert forall i :: 0 <= i < |walk| ==> longer[i] == walk[i] && longer[i] != longer[|walk|];
      assert e in left;
      PickNext(part, lists, left, last);
    }
  }

  lemma PickNext(part: set<Point>, lists: EdgeLists, left: set<Edge>, last: Edge)
    requires Lists(lists, left) && left <= Edges(part) && Bounds(part, last) && Next(part, last) in left
    ensures var e := Next(part, last); var at := Head(last);
      at in lists && Pick(lists[at], at, Some(Towards(last.at, at))) == Head(e)
  {
    var e, at := Next(part, last), Head(last);
    NextBounds(part, last);
    var ends := lists[at];
    if |ends| > 1 {
      PickLeft(part, lists, left, last);
    }
  }

  /** Of two ends the pick is the left one, where the walk goes on. */
  lemma PickLeft(part: set<Point>, lists: EdgeLists, left: set<Edge>, last: Edge)
    requires Lists(lists, left) && left <= Edges(part) && Bounds(part, last)
    requires Head(last) in lists && |lists[Head(last)]| > 1
    ensures var e := Next(part, last); var at := Head(last);
      Pick(lists[at], at, Some(Towards(last.at, at))) == Head(e)
  {
    var e, at := Next(part, last), Head(last);
    var ends := lists[at];
    var a := EndIs(lists, left, at, 0);
    var b := EndIs(lists, left, at, 1);
    TwoWaysGoLeft(part, last, a, b);
    LeftEndFound(ends, at, Towards(at, Head(e)), 0, if a == LeftTurn(last.heading) then 0 else 1);
  }

  lemma EndIs(lists: EdgeLists, left: set<Edge>, at: Point, n: nat) returns (d: Heading)
    requires Lists(lists, left) && at in lists && n < |lists[at]|
    ensures Edge(at, d) in left && lists[at][n] == Ahead(at, d)
    ensures forall m :: 0 <= m < n ==> lists[at][m] != Ahead(at, d)
  {
    var ends := lists[at];
    assert ends[n] in ends && Leads(left, at, ends[n]);
    d :| Edge(at, d) in left && ends[n] == Ahead(at, d);
  }

  /** A walk that is back at its start is the whole walk. */
  lemma WholeWalk(part: set<Point>, walk: seq<Edge>)
    requires part != {} && IsWalk(part, LeastOf(part), walk) && Head(walk[|walk| - 1]) == LeastOf(part)
    ensures walk == Walk(part)
  {
    var whole := Walk(part);
    var n := 1;
    while n < |walk| && n < |whole|
      invariant 1 <= n <= |walk| && n <= |whole| && walk[..n] == whole[..n]
    {
      assert walk[n - 1] == walk[..n][n - 1] == whole[n - 1];
      assert walk[n] == whole[n];
      assert walk[..n + 1] == walk[..n] + [walk[n]];
      assert whole[..n + 1] == whole[..n] + [whole[n]];
      n := n + 1;
    }
    assert walk[n - 1] == walk[..n][n - 1] == whole[n - 1];
    NextBounds(part, walk[n - 1]);
  }

  lemma StepOn(part: set<Point>, lists: EdgeLists, walk: seq<Edge>, left: set<Edge>, at: Point, heading: Option<Point>)
    requires part != {} && Underway(part, walk, left, at, heading) && Lists(lists, left)
    ensures var e := Onward(part, walk); var end := Head(e);
      && at in lists && end in lists[at] && end == Pick(lists[at], at, heading)
      && e in left && e.at == at && Lists(Take(lists, at, end), left - {e})
      && IsWalk(part, LeastOf(part), walk + [e])
      && (end != LeastOf(part) ==> Underway(part, walk + [e], left - {e}, end, Some(Towards(at, end))))
  {
    var e := Onward(part, walk);
    PickIsOnward(part, lists, walk, left, at, heading);
    TakeOne(lists, left, e);
    assert (set f | f in walk + [e]) == (set f | f in walk) + {e};
  }

  lemma PathGrows(walk: seq<Edge>, e: Edge)
    ensures PathOf(walk + [e]) == PathOf(walk) + [e.at]
  {
  }

  /** What the loop keeps: the walk so far and the path along it, the edges not used yet and
      their lists. */
  ghost predicate Tracing(part: set<Point>, walk: seq<Edge>, left: set<Edge>, edges: EdgeLists, at: Point,
                          heading: Option<Point>, path: seq<Point>)
    requires part != {}
  {
    Underway(part, walk, left, at, heading) && Lists(edges, left) && path == PathOf(walk) + [at]
  }

  /** One round uses up an edge: the walk is whole if it is back at its start, else it goes on. */
  lemma TraceOn(part: set<Point>, walk: seq<Edge>, left: set<Edge>, edges: EdgeLists, at: Point,
                heading: Option<Point>, path: seq<Point>)
    requires part != {} && Tracing(part, walk, left, edges, at, heading, path)
    ensures at in edges && Pick(edges[at], at, heading) in edges[at]
    ensures var e := Onward(part, walk); var end := Pick(edges[at], at, heading);
      && |left - {e}| < |left|
      && (end == LeastOf(part) ==> path == PathOf(Walk(part)))
      && (end != LeastOf(part) ==>
           Tracing(part, walk + [e], left - {e}, Take(edges, at, end), end, Some(Towards(at, end)), path + [end]))
  {
    var e := Onward(part, walk);
    StepOn(part, edges, walk, left, at, heading);
    PathGrows(walk, e);
    if Head(e) == LeastOf(part) { WholeWalk(part, walk + [e]); }
  }

  lemma TraceStarts(part: set<Point>, lists: EdgeLists)
    requires part != {} && Lists(lists, Edges(part))
    ensures Tracing(part, [], Edges(part), lists, LeastOf(part), None, [LeastOf(part)])
  {
    var none: seq<Edge> := [];
    assert Edges(part) == Edges(part) - (set e | e in none);
    assert PathOf(none) == [];
  }

  /** The loop that uses the edges up: every corner it looks up is listed, and it stops back at
      its start with every point of the walk. */
  method WalkRound(part: set<Point>, lists: EdgeLists, start: Point) returns (path: seq<Point>)
    requires part != {} && Lists(lists, Edges(part)) && start == LeastOf(part)
    ensures path == PathOf(Walk(part))
  {
    var edges, at, heading: Option<Point> := lists, start, None;
    path := [start];
    ghost var walk: seq<Edge>, left := [], Edges(part);
    TraceStarts(part, lists);
    while true
      invariant Tracing(part, walk, left, edges, at, heading, path)
      decreases |left|
    {
      TraceOn(part, walk, left, edges, at, heading, path);
      ghost var e := Onward(part, walk);
      var end := Pick(edges[at], at, heading);
      edges := Take(edges, at, end);
      heading := Some(Towards(at, end));
      at := end;
      if at == start { return; }
      walk, left := walk + [e], left - {e};
      path := path + [at];
    }
  }

  method Corners(path: seq<Point>) returns (ring: seq<Point>)
    ensures ring == Turns(path, |path|)
  {
    ring := [];
    var n := 0;
    while n < |path|
      invariant 0 <= n <= |path| && ring == Turns(path, n)
    {
      if !Collinear(Previous(path, n), path[n], Following(path, n)) {
        ring := ring + [path[n]];
      }
      n := n + 1;
    }
  }

  /** Returns the ring of the whole walk, in whatever order the set's squares come. */
  method Trace(part: set<Point>) returns (ring: seq<Point>)
    requires part != {}
    ensures ring == Ring(part)
  {
    var edges := BuildLists(part);
    NotEmpty(part, edges);
    var start := LeastKey(edges.Keys);
    LeastIsLeast(part, edges, start);
    var path := WalkRound(part, edges, start);
    ring := Corners(path);
  }

  lemma NotEmpty(part: set<Point>, lists: EdgeLists)
    requires part != {} && Lists(lists, Edges(part))
    ensures lists.Keys != {}
  {
    var p := LeastOf(part);
    var d :| Bounds(part, Edge(p, d));
    assert Edge(p, d) in Edges(part);
  }
}
