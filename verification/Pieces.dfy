/** `fill` and `pieces` of demo/outline.py: two floods with a stack, one around a piece and one
    through a block's squares, then the size filter. */
module Pieces {
  import opened Numbers
  import opened Squares
  import opened Reach
  import opened Filling
  import opened Rings
  import opened Enclosure

  method Frame(part: set<Point>) returns (box: Box)
    requires part != {}
    ensures IsFrame(part, box)
  {
    var p :| p in part;
    var i0, i1, j0, j1 := p.x, p.x, p.y, p.y;
    var rest := part - {p};
    while rest != {}
      invariant rest <= part && i0 <= i1 && j0 <= j1
      invariant forall q :: q in part - rest ==> i0 <= q.x <= i1 && j0 <= q.y <= j1
      invariant exists q :: q in part && q.x == i0
      invariant exists q :: q in part && q.x == i1
      invariant exists q :: q in part && q.y == j0
      invariant exists q :: q in part && q.y == j1
    {
      var q :| q in rest;
      ghost var before := (i0, i1, j0, j1);
      i0, i1, j0, j1 := Min(i0, q.x), Max(i1, q.x), Min(j0, q.y), Max(j1, q.y);
      forall r | r in part - (rest - {q}) ensures i0 <= r.x <= i1 && j0 <= r.y <= j1 {
        assert r != q ==> r in part - rest;
      }
      rest := rest - {q};
    }
    assert part - {} == part;
    box := Box(i0 - 1, i1 + 1, j0 - 1, j1 + 1);
  }

  ghost function Inside(box: Box): (all: set<Point>)
    ensures forall p :: InBox(box, p) <==> p in all
  {
    var all := set x, y | box.x0 <= x <= box.x1 && box.y0 <= y <= box.y1 :: Point(x, y);
    assert forall p | InBox(box, p) :: p == Point(p.x, p.y);
    all
  }

  /** The flood around a piece so far: every square in `outside` is outside, and all squares
      around those not on the stack have been looked at. */
  ghost predicate Flooding(part: set<Point>, box: Box, outside: set<Point>, stack: seq<Point>) {
    && Corner(box) in outside
    && (forall p :: p in outside ==> IsOutside(part, box, p))
    && (forall p :: p in stack ==> p in outside)
    && forall p, q :: p in outside && p !in stack && OutsideSteps(part, box)(p, q) ==> q in outside
  }

  lemma FloodDone(part: set<Point>, box: Box, outside: set<Point>, p: Point)
    requires Flooding(part, box, outside, []) && IsOutside(part, box, p)
    ensures p in outside
  {
    Kept(OutsideSteps(part, box), q => q in outside, Corner(box), p);
  }

  /** Adds the square's unseen neighbours, as the two loops over the eight around it do. */
  method Look(part: set<Point>, box: Box, at: Point, seen: set<Point>, waiting: seq<Point>)
    returns (outside: set<Point>, stack: seq<Point>)
    requires at in seen
    requires Flooding(part, box, seen, waiting + [at])
    ensures Flooding(part, box, outside, stack)
    ensures seen <= outside && |stack| - |waiting| == |outside| - |seen| >= 0
  {
    outside, stack := seen, waiting;
    var n := 0;
    while n < 9
      invariant 0 <= n <= 9
      invariant seen <= outside && |stack| - |waiting| == |outside| - |seen|
      invariant waiting <= stack
      invariant forall p :: p in outside ==> IsOutside(part, box, p)
      invariant forall p :: p in stack ==> p in outside
      invariant forall p :: p in outside && p !in seen ==> p in stack
      invariant forall k :: 0 <= k < n && OutsideSteps(part, box)(at, Around(at, k)) ==> Around(at, k) in outside
    {
      var q := Around(at, n);
      if InBox(box, q) && q !in part && q !in outside {
        OutsideSpreads(part, box, at, q);
        outside := outside + {q};
        stack := stack + [q];
      }
      n := n + 1;
    }
    forall p, q | p in outside && p !in stack && OutsideSteps(part, box)(p, q) ensures q in outside {
      if p == at {
        assert q == Around(at, 3 * (q.x - at.x + 1) + (q.y - at.y + 1));
      } else {
        assert p in seen && p !in waiting + [at];
      }
    }
  }

  /** The n-th square of the rows and columns around at, at itself among them. */
  function Around(at: Point, n: nat): Point
    requires n < 9
  {
    Point(at.x - 1 + n / 3, at.y - 1 + n % 3)
  }

  /** Returns the piece and everything it encloses. */
  method Fill(part: set<Point>) returns (filled: set<Point>, ghost box: Box)
    requires part != {}
    ensures IsFrame(part, box) && filled == Filled(part, box)
    ensures IsFilled(part, filled)
  {
    var frame := Frame(part);
    box := frame;
    var outside, stack := {Corner(frame)}, [Corner(frame)];
    CornerOutside(part, box);
    ghost var all := Inside(frame);
    Fits(outside, all);
    while stack != []
      invariant Flooding(part, frame, outside, stack)
      invariant outside <= all && |outside| <= |all|
      decreases |all| - |outside|, |stack|
    {
      var at := stack[|stack| - 1];
      LastOff(stack);
      assert at in stack;
      outside, stack := Look(part, frame, at, outside, stack[..|stack| - 1]);
      assert outside <= all;
      Fits(outside, all);
    }
    forall p ensures IsOutside(part, box, p) <==> p in outside {
      if IsOutside(part, box, p) {
        FloodDone(part, box, outside, p);
      }
    }
    filled := set i, j | frame.x0 <= i < frame.x1 + 1 && frame.y0 <= j < frame.y1 + 1
                         && Point(i, j) !in outside :: Point(i, j);
  }

  lemma {:induction false} Fits<T>(a: set<T>, b: set<T>)
    requires a <= b
    ensures |a| <= |b|
  {
    if a != {} {
      var x :| x in a;
      Fits(a - {x}, b - {x});
    }
  }

  // a block's pieces

  /** Each square's block, row by row. */
  type Labels<L(==)> = rows: seq<seq<L>> | |rows| > 0 && forall j :: 0 <= j < |rows| ==> |rows[j]| == |rows[0]|
    witness [[]]

  predicate Labelled<L(==)>(labels: Labels<L>, name: L, p: Point) {
    0 <= p.x < |labels[0]| && 0 <= p.y < |labels| && labels[p.y][p.x] == name
  }

  function Region<L(==)>(labels: Labels<L>, name: L): (region: set<Point>)
    ensures forall p :: p in region <==> Labelled(labels, name, p)
  {
    var region := set i, j | 0 <= i < |labels[0]| && 0 <= j < |labels| && labels[j][i] == name :: Point(i, j);
    assert forall p | Labelled(labels, name, p) :: p == Point(p.x, p.y);
    region
  }

  /** The squares that p's side steps through the region reach. */
  ghost predicate IsComponent(region: set<Point>, p: Point, part: set<Point>) {
    p in region && forall q :: q in part <==> Reaches(SideSteps(region), p, q)
  }

  /** The flood from start so far: all it has seen is reached from start, and all neighbours of
      what is off the stack have been seen. */
  ghost predicate Spreading(region: set<Point>, start: Point, found: set<Point>, stack: seq<Point>) {
    && start in found && found <= region
    && (forall p :: p in found ==> Reaches(SideSteps(region), start, p))
    && (forall p :: p in stack ==> p in found)
    && (forall i, j :: 0 <= i < j < |stack| ==> stack[i] != stack[j])
    && forall p, q :: p in found && p !in stack && SideSteps(region)(p, q) ==> q in found
  }

  lemma SpreadDone(region: set<Point>, start: Point, found: set<Point>)
    requires Spreading(region, start, found, [])
    ensures IsComponent(region, start, found)
  {
    forall q | Reaches(SideSteps(region), start, q) ensures q in found {
      Kept(SideSteps(region), p => p in found, start, q);
    }
  }

  /** A union of components: nothing in it leads out of it or into it. */
  ghost predicate Separate(region: set<Point>, done: set<Point>) {
    done <= region && forall p, q :: SideSteps(region)(p, q) ==> (p in done <==> q in done)
  }

  lemma SeparateStays(region: set<Point>, done: set<Point>, p: Point, q: Point)
    requires Separate(region, done) && p !in done && Reaches(SideSteps(region), p, q)
    ensures q !in done
  {
    Kept(SideSteps(region), r => r !in done, p, q);
  }

  lemma ComponentSeparate(region: set<Point>, p: Point, part: set<Point>)
    requires IsComponent(region, p, part)
    ensures part <= region && Separate(region, part)
  {
    var step := SideSteps(region);
    SideStepsBack(region);
    forall q | q in part ensures q in region {
      Kept(step, r => r in region, p, q);
    }
    forall q, r | step(q, r) ensures q in part <==> r in part {
      if q in part { Then(step, p, q, r); }
      if r in part { Then(step, p, r, q); }
    }
  }

  /** A component is connected. */
  lemma ComponentConnected(region: set<Point>, p: Point, part: set<Point>)
    requires IsComponent(region, p, part)
    ensures p in part && Connected4(part)
  {
    var wide, step := SideSteps(region), SideSteps(part);
    Self(wide, p);
    Self(step, p);
    ComponentSeparate(region, p, part);
    SideStepsBack(part);
    forall q | q in part ensures Reaches(step, p, q) {
      var kept := r => r in part && Reaches(step, p, r);
      forall a, b | kept(a) && wide(a, b) ensures kept(b) {
        Then(step, p, a, b);
      }
      Kept(wide, kept, p, q);
    }
    forall q, r | q in part && r in part ensures Reaches(step, q, r) {
      Back(step, p, q);
      Transitive(step, q, p, r);
    }
  }

  /** What a round of the flood has found besides `mine`: squares reached from start, all still
      waiting on the stack. */
  ghost predicate Looked(region: set<Point>, start: Point, mine: set<Point>, waiting: seq<Point>,
                         found: set<Point>, stack: seq<Point>) {
    && mine <= found <= region && waiting <= stack
    && |stack| - |waiting| == |found| - |mine|
    && (forall i, j :: 0 <= i < j < |stack| ==> stack[i] != stack[j])
    && (forall p :: p in found ==> Reaches(SideSteps(region), start, p))
    && (forall p :: p in stack ==> p in found)
    && forall p :: p in found && p !in stack <==> p in mine && p !in waiting
  }

  lemma LookedMore(region: set<Point>, start: Point, mine: set<Point>, waiting: seq<Point>,
                   found: set<Point>, stack: seq<Point>, q: Point)
    requires Looked(region, start, mine, waiting, found, stack)
    requires q in region && q !in found && Reaches(SideSteps(region), start, q)
    ensures Looked(region, start, mine, waiting, found + {q}, stack + [q])
  {
    assert forall p :: p in stack + [q] <==> p in stack || p == q;
  }

  lemma LookedRound(region: set<Point>, start: Point, mine: set<Point>, waiting: seq<Point>, at: Point,
                    found: set<Point>, stack: seq<Point>)
    requires Spreading(region, start, mine, waiting + [at])
    requires Looked(region, start, mine, waiting, found, stack)
    requires Seen(region, at, found, 4)
    ensures Spreading(region, start, found, stack)
  {
    forall p, q | p in found && p !in stack && SideSteps(region)(p, q) ensures q in found {
      if p == at {
        assert q == Beside(at, 0) || q == Beside(at, 1) || q == Beside(at, 2) || q == Beside(at, 3);
      } else {
        assert p in mine && p !in waiting + [at];
      }
    }
  }

  lemma LookedNone(region: set<Point>, start: Point, mine: set<Point>, waiting: seq<Point>, at: Point)
    requires Spreading(region, start, mine, waiting + [at])
    ensures Looked(region, start, mine, waiting, mine, waiting) && at in mine && at !in waiting
  {
    var stack := waiting + [at];
    assert at == stack[|waiting|] && at in stack;
    assert forall i :: 0 <= i < |waiting| ==> waiting[i] == stack[i] && waiting[i] in stack;
  }

  /** One neighbour of the square taken off the stack: it waits too if it is the block's and new. */
  method Visit<L(==)>(labels: Labels<L>, name: L, start: Point, at: Point, q: Point, seen: set<Point>,
                      waiting: seq<Point>,
                      ghost done: set<Point>, ghost found: set<Point>, ghost mine: set<Point>, ghost first: seq<Point>)
    returns (more: set<Point>, stack: seq<Point>, ghost grown: set<Point>)
    requires Separate(Region(labels, name), done) && start !in done && seen == done + found && done !! found
    requires at in mine && Adjacent4(at, q) && Looked(Region(labels, name), start, mine, first, found, waiting)
    ensures more == done + grown && done !! grown && found <= grown
    ensures q in Region(labels, name) ==> q in grown
    ensures Looked(Region(labels, name), start, mine, first, grown, stack)
  {
    ghost var region := Region(labels, name);
    more, stack, grown := seen, waiting, found;
    if Labelled(labels, name, q) {
      Then(SideSteps(region), start, at, q);
      SeparateStays(region, done, start, q);
      if q !in more {
        LookedMore(region, start, mine, first, found, waiting, q);
        more, stack, grown := more + {q}, stack + [q], grown + {q};
      }
    }
  }

  ghost predicate Seen(region: set<Point>, at: Point, found: set<Point>, n: nat)
    requires n <= 4
  {
    forall k :: 0 <= k < n && Beside(at, k) in region ==> Beside(at, k) in found
  }

  lemma SeenMore(region: set<Point>, at: Point, had: set<Point>, found: set<Point>, n: nat)
    requires n < 4 && Seen(region, at, had, n) && had <= found
    requires Beside(at, n) in region ==> Beside(at, n) in found
    ensures Seen(region, at, found, n + 1)
  {
  }

  /** One round of the stack loop: the four squares beside at. */
  method LookBeside<L(==)>(labels: Labels<L>, name: L, start: Point, at: Point, seen: set<Point>, waiting: seq<Point>,
                           ghost done: set<Point>, ghost mine: set<Point>)
    returns (more: set<Point>, stack: seq<Point>, ghost found: set<Point>)
    requires Separate(Region(labels, name), done) && start !in done && seen == done + mine && done !! mine
    requires at in mine && Looked(Region(labels, name), start, mine, waiting, mine, waiting)
    ensures more == done + found && done !! found
    ensures Looked(Region(labels, name), start, mine, waiting, found, stack)
    ensures Seen(Region(labels, name), at, found, 4)
  {
    ghost var region := Region(labels, name);
    more, stack, found := seen, waiting, mine;
    var n := 0;
    while n < 4
      invariant 0 <= n <= 4
      invariant more == done + found && done !! found
      invariant Looked(region, start, mine, waiting, found, stack) && Seen(region, at, found, n)
    {
      ghost var had := found;
      more, stack, found := Visit(labels, name, start, at, Beside(at, n), more, stack, done, found, mine, waiting);
      SeenMore(region, at, had, found, n);
      n := n + 1;
    }
  }

  /** The square's neighbours in the order `pieces` looks at them. */
  function Beside(at: Point, n: nat): Point
    requires n < 4
  {
    Ahead(at, if n == 0 then East else if n == 1 then West else if n == 2 then North else South)
  }

  /** Takes at off the stack, into the part. */
  method Round<L(==)>(labels: Labels<L>, name: L, start: Point, at: Point, seen: set<Point>, waiting: seq<Point>,
                      ghost done: set<Point>, ghost mine: set<Point>, part: set<Point>)
    returns (more: set<Point>, stack: seq<Point>, ghost found: set<Point>, grown: set<Point>)
    requires Separate(Region(labels, name), done) && start !in done && seen == done + mine && done !! mine
    requires Spreading(Region(labels, name), start, mine, waiting + [at]) && Popped(mine, waiting + [at], part)
    ensures more == done + found && done !! found
    ensures Spreading(Region(labels, name), start, found, stack) && Popped(found, stack, grown)
    ensures |mine| <= |found| <= |Region(labels, name)| && |stack| - |waiting| == |found| - |mine|
  {
    ghost var region := Region(labels, name);
    LookedNone(region, start, mine, waiting, at);
    more, stack, found := LookBeside(labels, name, start, at, seen, waiting, done, mine);
    grown := part + {at};
    LookedRound(region, start, mine, waiting, at, found, stack);
    assert Popped(found, stack, grown) by {
      assert forall p :: p in waiting + [at] <==> p in waiting || p == at;
    }
    Fits(mine, found);
    Fits(found, region);
  }

  /** The part holds what has been taken off the stack. */
  ghost predicate Popped(found: set<Point>, stack: seq<Point>, part: set<Point>) {
    forall p :: p in part <==> p in found && p !in stack
  }

  lemma AllPopped(found: set<Point>, part: set<Point>)
    requires Popped(found, [], part)
    ensures part == found
  {
  }

  lemma LastOff(stack: seq<Point>)
    requires stack != []
    ensures stack[..|stack| - 1] + [stack[|stack| - 1]] == stack
  {
  }

  /** Floods the region from a square not seen before. */
  method Flood<L(==)>(labels: Labels<L>, name: L, start: Point, before: set<Point>)
    returns (seen: set<Point>, part: set<Point>)
    requires Labelled(labels, name, start) && start !in before && Separate(Region(labels, name), before)
    ensures part !! before && seen == before + part
    ensures IsComponent(Region(labels, name), start, part)
  {
    ghost var region := Region(labels, name);
    ghost var mine := {start};
    seen := before + {start};
    part := {};
    var stack := [start];
    Self(SideSteps(region), start);
    Fits(mine, region);
    while stack != []
      invariant seen == before + mine && before !! mine && Separate(region, before)
      invariant Spreading(region, start, mine, stack) && Popped(mine, stack, part)
      invariant |mine| <= |region|
      decreases |region| - |mine|, |stack|
    {
      var at := stack[|stack| - 1];
      LastOff(stack);
      seen, stack, mine, part := Round(labels, name, start, at, seen, stack[..|stack| - 1], before, mine, part);
    }
    SpreadDone(region, start, mine);
    AllPopped(mine, part);
  }

  ghost predicate IsPiece(region: set<Point>, part: set<Point>) {
    exists p :: IsComponent(region, p, part)
  }

  /** The parts are the region's 4-connected components, each once. */
  ghost predicate Components(region: set<Point>, parts: seq<set<Point>>) {
    && (forall part :: part in parts ==> IsPiece(region, part))
    && (forall p :: p in region ==> InSome(parts, p))
    && forall part :: multiset(parts)[part] <= 1
  }

  ghost predicate InSome(parts: seq<set<Point>>, p: Point) {
    exists part :: part in parts && p in part
  }

  /** Two components are the same or have no square in common. */
  lemma PiecesApart(region: set<Point>, a: set<Point>, b: set<Point>)
    requires IsPiece(region, a) && IsPiece(region, b)
    ensures a == b || a !! b
  {
    var p :| IsComponent(region, p, a);
    var q :| IsComponent(region, q, b);
    if r :| r in a && r in b {
      ComponentThrough(region, p, a, r);
      ComponentThrough(region, q, b, r);
      assert a == b;
    }
  }

  lemma ComponentThrough(region: set<Point>, p: Point, part: set<Point>, r: Point)
    requires IsComponent(region, p, part) && r in part
    ensures IsComponent(region, r, part)
  {
    var step := SideSteps(region);
    SideStepsBack(region);
    ComponentSeparate(region, p, part);
    Back(step, p, r);
    forall q ensures q in part <==> Reaches(step, r, q) {
      if q in part { Transitive(step, r, p, q); }
      if Reaches(step, r, q) { Transitive(step, p, r, q); }
    }
  }

  /** The components whose squares have been scanned so far. */
  ghost predicate Scanned(region: set<Point>, parts: seq<set<Point>>, seen: set<Point>) {
    && Separate(region, seen)
    && (forall part :: part in parts ==> part <= seen && IsPiece(region, part))
    && (forall p :: p in seen ==> InSome(parts, p))
    && forall part :: multiset(parts)[part] <= 1
  }

  lemma ScannedMore(region: set<Point>, parts: seq<set<Point>>, seen: set<Point>, p: Point, part: set<Point>)
    requires Scanned(region, parts, seen) && IsComponent(region, p, part) && part !! seen
    ensures Scanned(region, parts + [part], seen + part)
  {
    ComponentConnected(region, p, part);
    ComponentSeparate(region, p, part);
    var more := parts + [part];
    assert part !in parts;
    forall q | q in seen + part ensures InSome(more, q) {
      if q in part {
        assert part in more;
      } else {
        var other :| other in parts && q in other;
        assert other in more;
      }
    }
  }

  lemma ScannedAll(region: set<Point>, parts: seq<set<Point>>, seen: set<Point>)
    requires Scanned(region, parts, seen) && region <= seen
    ensures Components(region, parts)
  {
  }

  /** Splits the block's squares into its 4-connected components. */
  method Split<L(==)>(labels: Labels<L>, name: L) returns (found: seq<set<Point>>)
    ensures Components(Region(labels, name), found)
  {
    ghost var region := Region(labels, name);
    var seen: set<Point> := {};
    found := [];
    var j := 0;
    while j < |labels|
      invariant 0 <= j <= |labels|
      invariant Scanned(region, found, seen)
      invariant forall p :: p in region && p.y < j ==> p in seen
    {
      var i := 0;
      while i < |labels[0]|
        invariant 0 <= i <= |labels[0]|
        invariant Scanned(region, found, seen)
        invariant forall p :: p in region && (p.y < j || (p.y == j && p.x < i)) ==> p in seen
      {
        if labels[j][i] == name && Point(i, j) !in seen {
          var more, part := Flood(labels, name, Point(i, j), seen);
          ScannedMore(region, found, seen, Point(i, j), part);
          Self(SideSteps(region), Point(i, j));
          found, seen := found + [part], more;
        }
        assert forall p | p in region && p.y == j && p.x == i :: p == Point(i, j);
        i := i + 1;
      }
      j := j + 1;
    }
    ScannedAll(region, found, seen);
  }

  // largest first

  ghost predicate IsLeast(part: set<Point>, p: Point) {
    p in part && forall q :: q in part ==> !Before(q, p)
  }

  lemma LeastIsUnique(part: set<Point>, p: Point, q: Point)
    requires IsLeast(part, p) && IsLeast(part, q)
    ensures p == q
  {
    assert p == Point(p.x, p.y) && q == Point(q.x, q.y);
  }

  ghost function LeastIn(part: set<Point>): (p: Point)
    ensures part != {} ==> IsLeast(part, p)
  {
    if part == {} then Point(0, 0)
    else
      LeastInExists(part);
      var p :| IsLeast(part, p);
      p
  }

  lemma {:induction false} LeastInExists(part: set<Point>)
    requires part != {}
    ensures exists p :: IsLeast(part, p)
  {
    var p :| p in part;
    if part == {p} {
      assert IsLeast(part, p);
    } else {
      LeastInExists(part - {p});
      var q :| IsLeast(part - {p}, q);
      var l := if Before(p, q) then p else q;
      forall r | r in part ensures !Before(r, l) {
        assert r == p || r in part - {p};
      }
      assert IsLeast(part, l);
    }
  }

  /** The order `found.sort` puts two pieces in: by size, then by least square. */
  ghost predicate NotAfter(a: set<Point>, b: set<Point>) {
    |a| > |b| || (|a| == |b| && !Before(LeastIn(b), LeastIn(a)))
  }

  method LeastSquare(part: set<Point>) returns (least: Point)
    requires part != {}
    ensures least == LeastIn(part)
  {
    least :| least in part;
    var rest := part - {least};
    while rest != {}
      invariant rest <= part && IsLeast(part - rest, least)
    {
      var p :| p in rest;
      ghost var done := part - rest;
      if Before(p, least) { least := p; }
      rest := rest - {p};
      assert part - rest == done + {p};
    }
    assert part - {} == part;
    LeastIsUnique(part, least, LeastIn(part));
  }

  ghost predicate Sorted(parts: seq<set<Point>>) {
    forall j, k :: 0 <= j < k < |parts| ==> NotAfter(parts[j], parts[k])
  }

  ghost predicate AllNonempty(parts: seq<set<Point>>) {
    forall part :: part in parts ==> part != {}
  }

  /** Where the part goes among sorted parts. */
  method Place(parts: seq<set<Point>>, part: set<Point>) returns (n: nat)
    requires AllNonempty(parts) && part != {}
    ensures n <= |parts| && (n > 0 ==> NotAfter(parts[n - 1], part))
    ensures forall k :: n <= k < |parts| ==> NotAfter(part, parts[k])
  {
    var least := LeastSquare(part);
    n := |parts|;
    while n > 0
      invariant 0 <= n <= |parts|
      invariant forall k :: n <= k < |parts| ==> NotAfter(part, parts[k])
    {
      var before := parts[n - 1];
      assert before in parts;
      var first := LeastSquare(before);
      if |before| > |part| || (|before| == |part| && !Before(least, first)) {
        return;
      }
      n := n - 1;
    }
  }

  method Insert(parts: seq<set<Point>>, part: set<Point>) returns (more: seq<set<Point>>)
    requires Sorted(parts) && AllNonempty(parts) && part != {}
    ensures Sorted(more) && AllNonempty(more) && multiset(more) == multiset(parts) + multiset{part}
  {
    var n := Place(parts, part);
    more := parts[..n] + [part] + parts[n..];
    InsertSorted(parts, part, n);
    InsertBag(parts, part, n);
    InsertNonempty(parts, part, n);
  }

  lemma InsertBag(parts: seq<set<Point>>, part: set<Point>, n: nat)
    requires n <= |parts|
    ensures multiset(parts[..n] + [part] + parts[n..]) == multiset(parts) + multiset{part}
  {
    assert parts == parts[..n] + parts[n..];
  }

  lemma InsertNonempty(parts: seq<set<Point>>, part: set<Point>, n: nat)
    requires n <= |parts| && AllNonempty(parts) && part != {}
    ensures AllNonempty(parts[..n] + [part] + parts[n..])
  {
    forall other | other in parts[..n] + [part] + parts[n..] ensures other != {} {
      assert other in parts || other == part;
    }
  }

  lemma InsertSorted(parts: seq<set<Point>>, part: set<Point>, n: nat)
    requires Sorted(parts) && n <= |parts|
    requires n > 0 ==> NotAfter(parts[n - 1], part)
    requires forall k :: n <= k < |parts| ==> NotAfter(part, parts[k])
    ensures Sorted(parts[..n] + [part] + parts[n..])
  {
    var more := parts[..n] + [part] + parts[n..];
    forall j, k | 0 <= j < k < |more| ensures NotAfter(more[j], more[k]) {
      if k == n {
        assert j < n - 1 ==> NotAfter(parts[j], parts[n - 1]);
      } else if j != n {
        assert NotAfter(parts[if j < n then j else j - 1], parts[if k < n then k else k - 1]);
      }
    }
  }

  method Sort(parts: seq<set<Point>>) returns (sorted: seq<set<Point>>)
    requires AllNonempty(parts)
    ensures Sorted(sorted) && multiset(sorted) == multiset(parts)
  {
    sorted := [];
    var n := 0;
    while n < |parts|
      invariant 0 <= n <= |parts|
      invariant Sorted(sorted) && AllNonempty(sorted) && multiset(sorted) == multiset(parts[..n])
    {
      assert parts[..n + 1] == parts[..n] + [parts[n]];
      assert parts[n] in parts;
      sorted := Insert(sorted, parts[n]);
      n := n + 1;
    }
    assert parts[..n] == parts;
  }

  lemma SameParts(parts: seq<set<Point>>, sorted: seq<set<Point>>)
    requires multiset(parts) == multiset(sorted)
    ensures forall part :: part in parts <==> part in sorted
  {
    assert forall part :: part in parts <==> part in multiset(parts);
    assert forall part :: part in sorted <==> part in multiset(sorted);
  }

  lemma ComponentsPermute(region: set<Point>, parts: seq<set<Point>>, sorted: seq<set<Point>>)
    requires Components(region, parts) && multiset(parts) == multiset(sorted)
    ensures Components(region, sorted)
  {
    SameParts(parts, sorted);
    forall p | p in region ensures InSome(sorted, p) {
      var part :| part in parts && p in part;
      assert part in sorted;
    }
  }

  lemma NoneEmpty(region: set<Point>, parts: seq<set<Point>>)
    requires Components(region, parts)
    ensures AllNonempty(parts)
  {
    forall part | part in parts ensures part != {} {
      var p :| IsComponent(region, p, part);
      ComponentConnected(region, p, part);
    }
  }

  predicate IsLarge(parts: seq<set<Point>>, piece: real, n: nat)
    requires n < |parts|
  {
    |parts[n]| as real >= piece * |parts[0]| as real
  }

  /** Of the parts, in order, those of at least `piece` of the first. */
  ghost function Large(parts: seq<set<Point>>, piece: real, n: nat): seq<set<Point>>
    requires n <= |parts|
  {
    if n == 0 then []
    else if IsLarge(parts, piece, n - 1) then Large(parts, piece, n - 1) + [parts[n - 1]]
    else Large(parts, piece, n - 1)
  }

  /** The part has at least `piece` of the size of any component. */
  ghost predicate HasShare(region: set<Point>, part: set<Point>, piece: real) {
    forall other :: IsPiece(region, other) ==> |part| as real >= piece * |other| as real
  }

  lemma LargerStill(piece: real, a: nat, b: nat, c: nat)
    requires a as real >= piece * b as real && b >= c
    ensures a as real >= piece * c as real
  {
    if piece >= 0.0 {
      assert piece * (b - c) as real >= 0.0;
    }
  }

  /** The first is the largest. */
  lemma FirstIsLargest(region: set<Point>, parts: seq<set<Point>>, other: set<Point>)
    requires Components(region, parts) && Sorted(parts) && IsPiece(region, other)
    ensures other in parts && parts != [] && |parts[0]| >= |other|
  {
    PieceInside(region, other);
    var p :| p in other;
    assert InSome(parts, p);
    var part :| part in parts && p in part;
    PiecesApart(region, part, other);
    var j :| 0 <= j < |parts| && parts[j] == other;
    if j > 0 { assert NotAfter(parts[0], parts[j]); }
  }

  lemma IsLargeIs(region: set<Point>, parts: seq<set<Point>>, piece: real, n: nat)
    requires Components(region, parts) && Sorted(parts) && n < |parts|
    ensures IsLarge(parts, piece, n) <==> HasShare(region, parts[n], piece)
  {
    assert parts[0] in parts;
    if IsLarge(parts, piece, n) {
      forall other | IsPiece(region, other) ensures |parts[n]| as real >= piece * |other| as real {
        FirstIsLargest(region, parts, other);
        LargeOver(parts, piece, n, other);
      }
    }
    if HasShare(region, parts[n], piece) {
      ShareOver(region, parts[n], parts[0], piece);
    }
  }

  lemma LargeOver(parts: seq<set<Point>>, piece: real, n: nat, other: set<Point>)
    requires n < |parts| && IsLarge(parts, piece, n) && |parts[0]| >= |other|
    ensures |parts[n]| as real >= piece * |other| as real
  {
    LargerStill(piece, |parts[n]|, |parts[0]|, |other|);
  }

  lemma ShareOver(region: set<Point>, part: set<Point>, other: set<Point>, piece: real)
    requires HasShare(region, part, piece) && IsPiece(region, other)
    ensures |part| as real >= piece * |other| as real
  {
  }

  ghost predicate Differ(parts: seq<set<Point>>) {
    forall i, j :: 0 <= i < j < |parts| ==> parts[i] != parts[j]
  }

  lemma ComponentsDiffer(region: set<Point>, parts: seq<set<Point>>)
    requires Components(region, parts)
    ensures Differ(parts)
  {
    forall i, j | 0 <= i < j < |parts| ensures parts[i] != parts[j] {
      if parts[i] == parts[j] { ThereTwice(parts, i, j); }
    }
  }

  lemma ThereTwice(parts: seq<set<Point>>, i: nat, j: nat)
    requires i < j < |parts| && parts[i] == parts[j]
    ensures multiset(parts)[parts[j]] >= 2
  {
    assert parts == parts[..j] + [parts[j]] + parts[j + 1..];
    assert parts[..j][i] == parts[j];
    assert multiset(parts) == multiset(parts[..j]) + multiset{parts[j]} + multiset(parts[j + 1..]);
  }

  /** Of the first n parts, in order and each once, those of the share. */
  ghost predicate AreLarge(region: set<Point>, parts: seq<set<Point>>, piece: real, n: nat, large: seq<set<Point>>)
    requires n <= |parts|
  {
    && (forall part :: part in large <==> part in parts[..n] && HasShare(region, part, piece))
    && Differ(large) && Sorted(large)
  }

  lemma ShareOfEach(region: set<Point>, parts: seq<set<Point>>, piece: real)
    requires Components(region, parts) && Sorted(parts)
    ensures forall n: nat :: n < |parts| ==> (IsLarge(parts, piece, n) <==> HasShare(region, parts[n], piece))
  {
    forall n: nat | n < |parts| ensures IsLarge(parts, piece, n) <==> HasShare(region, parts[n], piece) {
      IsLargeIs(region, parts, piece, n);
    }
  }

  lemma {:induction false} LargeAre(region: set<Point>, parts: seq<set<Point>>, piece: real, n: nat)
    requires Differ(parts) && Sorted(parts) && n <= |parts|
    requires forall m: nat :: m < |parts| ==> (IsLarge(parts, piece, m) <==> HasShare(region, parts[m], piece))
    ensures AreLarge(region, parts, piece, n, Large(parts, piece, n))
  {
    if n > 0 {
      LargeAre(region, parts, piece, n - 1);
      LargeNext(region, parts, piece, n);
    }
  }

  lemma LargeNext(region: set<Point>, parts: seq<set<Point>>, piece: real, n: nat)
    requires 0 < n <= |parts| && Differ(parts) && Sorted(parts)
    requires IsLarge(parts, piece, n - 1) <==> HasShare(region, parts[n - 1], piece)
    requires AreLarge(region, parts, piece, n - 1, Large(parts, piece, n - 1))
    ensures AreLarge(region, parts, piece, n, Large(parts, piece, n))
  {
    LargeOneMore(region, parts, piece, n, Large(parts, piece, n - 1));
  }

  lemma LargeOneMore(region: set<Point>, parts: seq<set<Point>>, piece: real, n: nat, large: seq<set<Point>>)
    requires 0 < n <= |parts| && AreLarge(region, parts, piece, n - 1, large) && Differ(parts) && Sorted(parts)
    ensures AreLarge(region, parts, piece, n,
                     if HasShare(region, parts[n - 1], piece) then large + [parts[n - 1]] else large)
  {
    assert parts[..n] == parts[..n - 1] + [parts[n - 1]];
    forall i | 0 <= i < |large| ensures large[i] != parts[n - 1] && NotAfter(large[i], parts[n - 1]) {
      assert large[i] in large;
      var j :| 0 <= j < n - 1 && parts[j] == large[i];
    }
  }

  /** Larger than b, or as large and with a square before all of b's. */
  ghost predicate GoesBefore(a: set<Point>, b: set<Point>) {
    |a| > |b| || (|a| == |b|
                  && exists p: Point :: p in a && forall q: Point :: q in b ==> p.x < q.x || (p.x == q.x && p.y < q.y))
  }

  /** These are the region's components of the share, the larger before the smaller. */
  ghost predicate HaveShare(region: set<Point>, piece: real, large: seq<set<Point>>) {
    && (forall part :: part in large <==> IsPiece(region, part) && HasShare(region, part, piece))
    && forall i, j :: 0 <= i < j < |large| ==> large[i] != large[j] && GoesBefore(large[i], large[j])
  }

  lemma NotAfterGoesBefore(region: set<Point>, a: set<Point>, b: set<Point>)
    requires IsPiece(region, a) && IsPiece(region, b) && a != b && NotAfter(a, b)
    ensures GoesBefore(a, b)
  {
    PiecesApart(region, a, b);
    PieceInside(region, a);
    PieceInside(region, b);
    if |a| == |b| {
      var p, l := LeastIn(a), LeastIn(b);
      assert p in a && l in b && p != l && !Before(l, p);
      forall q: Point | q in b ensures p.x < q.x || (p.x == q.x && p.y < q.y) {
        assert !Before(q, l);
        assert p == Point(p.x, p.y) && l == Point(l.x, l.y);
      }
    }
  }

  /** A region's large components: each of the share, in order of size, each once. */
  lemma LargeIsShare(region: set<Point>, parts: seq<set<Point>>, piece: real)
    requires Components(region, parts) && Sorted(parts)
    ensures HaveShare(region, piece, Large(parts, piece, |parts|))
  {
    ShareOfEach(region, parts, piece);
    ComponentsDiffer(region, parts);
    LargeAre(region, parts, piece, |parts|);
    EveryPiece(region, parts);
    WholeLarge(region, parts, piece, Large(parts, piece, |parts|));
  }

  lemma EveryPiece(region: set<Point>, parts: seq<set<Point>>)
    requires Components(region, parts) && Sorted(parts)
    ensures forall part :: part in parts <==> IsPiece(region, part)
  {
    forall part | IsPiece(region, part) ensures part in parts { FirstIsLargest(region, parts, part); }
  }

  lemma WholeLarge(region: set<Point>, parts: seq<set<Point>>, piece: real, large: seq<set<Point>>)
    requires AreLarge(region, parts, piece, |parts|, large)
    requires forall part :: part in parts <==> IsPiece(region, part)
    ensures HaveShare(region, piece, large)
  {
    assert parts[..|parts|] == parts;
    forall i, j | 0 <= i < j < |large| ensures large[i] != large[j] && GoesBefore(large[i], large[j]) {
      assert large[i] in large && large[j] in large;
      NotAfterGoesBefore(region, large[i], large[j]);
    }
  }

  /** Each piece is a part with everything it encloses. */
  ghost predicate FilledParts(parts: seq<set<Point>>, pieces: seq<set<Point>>) {
    |pieces| == |parts| && forall k :: 0 <= k < |parts| ==> IsFilled(parts[k], pieces[k])
  }

  ghost predicate IsFilled(part: set<Point>, filled: set<Point>) {
    exists box :: IsFrame(part, box) && filled == Filled(part, box)
  }

  lemma FilledMore(parts: seq<set<Point>>, pieces: seq<set<Point>>, part: set<Point>, filled: set<Point>, box: Box)
    requires FilledParts(parts, pieces) && IsFrame(part, box) && filled == Filled(part, box)
    ensures FilledParts(parts + [part], pieces + [filled])
  {
  }

  /** A region's components in order of size, those of at least `piece` of the largest filled. */
  ghost predicate LargeFilled(region: set<Point>, parts: seq<set<Point>>, piece: real, pieces: seq<set<Point>>) {
    Components(region, parts) && Sorted(parts) && FilledParts(Large(parts, piece, |parts|), pieces)
  }

  ghost predicate PiecesOf(region: set<Point>, piece: real, pieces: seq<set<Point>>) {
    exists parts :: LargeFilled(region, parts, piece, pieces)
  }

  /** Returns the block's pieces, largest first, each with its holes filled: of its components
      sorted by size, those of at least `piece` of the largest. */
  method FindPieces<L(==)>(labels: Labels<L>, name: L, piece: real)
    returns (pieces: seq<set<Point>>, ghost parts: seq<set<Point>>)
    ensures LargeFilled(Region(labels, name), parts, piece, pieces)
    ensures PiecesOf(Region(labels, name), piece, pieces)
    ensures HaveShare(Region(labels, name), piece, Large(parts, piece, |parts|))
  {
    var split := Split(labels, name);
    NoneEmpty(Region(labels, name), split);
    var found := Sort(split);
    ComponentsPermute(Region(labels, name), split, found);
    NoneEmpty(Region(labels, name), found);
    parts := found;
    pieces := FillLarge(found, piece);
    LargeIsShare(Region(labels, name), found, piece);
    assert LargeFilled(Region(labels, name), parts, piece, pieces);
  }

  method FillLarge(found: seq<set<Point>>, piece: real) returns (pieces: seq<set<Point>>)
    requires AllNonempty(found)
    ensures FilledParts(Large(found, piece, |found|), pieces)
  {
    pieces := [];
    var n := 0;
    while n < |found|
      invariant 0 <= n <= |found|
      invariant FilledParts(Large(found, piece, n), pieces)
    {
      if IsLarge(found, piece, n) {
        assert found[n] in found;
        var filled, box := Fill(found[n]);
        FilledMore(Large(found, piece, n), pieces, found[n], filled, box);
        pieces := pieces + [filled];
      }
      n := n + 1;
    }
  }

  // there is only one answer, whatever order the squares were met in

  lemma NeitherAfter(region: set<Point>, a: set<Point>, b: set<Point>)
    requires IsPiece(region, a) && IsPiece(region, b) && NotAfter(a, b) && NotAfter(b, a)
    ensures a == b
  {
    PiecesApart(region, a, b);
    PieceInside(region, a);
    PieceInside(region, b);
    var p, q := LeastIn(a), LeastIn(b);
    assert p in a && q in b && !Before(p, q) && !Before(q, p);
    assert p == Point(p.x, p.y) && q == Point(q.x, q.y);
  }

  lemma PieceInside(region: set<Point>, part: set<Point>)
    requires IsPiece(region, part)
    ensures part != {} && part <= region
  {
    var p :| IsComponent(region, p, part);
    ComponentConnected(region, p, part);
    forall q | q in part ensures q in region {
      ComponentThrough(region, p, part, q);
      Self(SideSteps(region), q);
    }
  }

  lemma SamePieces(region: set<Point>, a: seq<set<Point>>, b: seq<set<Point>>, part: set<Point>)
    requires Components(region, a) && Components(region, b) && part in a
    ensures part in b
  {
    PieceInside(region, part);
    var p :| p in part;
    assert InSome(b, p);
    var other :| other in b && p in other;
    PiecesApart(region, part, other);
  }

  ghost predicate ArePiecesOf(region: set<Point>, parts: seq<set<Point>>) {
    forall part :: part in parts ==> IsPiece(region, part)
  }

  lemma {:induction false} SortedPieces(region: set<Point>, a: seq<set<Point>>, b: seq<set<Point>>)
    requires ArePiecesOf(region, a) && ArePiecesOf(region, b) && Sorted(a) && Sorted(b) && multiset(a) == multiset(b)
    ensures a == b
  {
    assert |multiset(a)| == |a| && |multiset(b)| == |b|;
    if a != [] {
      FirstFirst(region, a, b);
      FirstFirst(region, b, a);
      assert a[0] in a && b[0] in b;
      NeitherAfter(region, a[0], b[0]);
      SameTails(a, b);
      SortedPieces(region, a[1..], b[1..]);
      FrontAndRest(a, b);
    }
  }

  lemma FrontAndRest(a: seq<set<Point>>, b: seq<set<Point>>)
    requires a != [] && b != [] && a[0] == b[0] && a[1..] == b[1..]
    ensures a == b
  {
    assert a == [a[0]] + a[1..] && b == [b[0]] + b[1..];
  }

  lemma FirstFirst(region: set<Point>, a: seq<set<Point>>, b: seq<set<Point>>)
    requires a != [] && b != [] && Sorted(a) && multiset(a) == multiset(b)
    ensures NotAfter(a[0], b[0])
  {
    assert b[0] in multiset(a);
    var j :| 0 <= j < |a| && a[j] == b[0];
    assert j > 0 ==> NotAfter(a[0], a[j]);
  }

  lemma ComponentsAreOne(region: set<Point>, a: seq<set<Point>>, b: seq<set<Point>>)
    requires Components(region, a) && Components(region, b) && Sorted(a) && Sorted(b)
    ensures a == b
  {
    forall part ensures part in a <==> part in b {
      if part in a { SamePieces(region, a, b, part); }
      if part in b { SamePieces(region, b, a, part); }
    }
    SameBags(a, b);
    SortedPieces(region, a, b);
  }

  lemma SameBags(a: seq<set<Point>>, b: seq<set<Point>>)
    requires forall part :: part in a <==> part in b
    requires forall part :: multiset(a)[part] <= 1
    requires forall part :: multiset(b)[part] <= 1
    ensures multiset(a) == multiset(b)
  {
    forall part ensures multiset(a)[part] == multiset(b)[part] {
      assert (part in a <==> part in multiset(a)) && (part in b <==> part in multiset(b));
    }
  }

  lemma SameTails(a: seq<set<Point>>, b: seq<set<Point>>)
    requires a != [] && b != [] && a[0] == b[0] && multiset(a) == multiset(b)
    ensures multiset(a[1..]) == multiset(b[1..])
  {
    assert a == [a[0]] + a[1..] && b == [b[0]] + b[1..];
    assert multiset(a[1..]) == multiset(a) - multiset{a[0]} && multiset(b[1..]) == multiset(b) - multiset{b[0]};
  }

  lemma FilledIsOne(part: set<Point>, a: set<Point>, b: set<Point>)
    requires IsFilled(part, a) && IsFilled(part, b)
    ensures a == b
  {
    var box :| IsFrame(part, box) && a == Filled(part, box);
    var other :| IsFrame(part, other) && b == Filled(part, other);
    FrameIsOne(part, box, other);
  }

  /** A region has one sequence of pieces: nothing depends on the order of a set. */
  lemma PiecesAreOne(region: set<Point>, piece: real, a: seq<set<Point>>, b: seq<set<Point>>)
    requires PiecesOf(region, piece, a) && PiecesOf(region, piece, b)
    ensures a == b
  {
    var these :| LargeFilled(region, these, piece, a);
    var those :| LargeFilled(region, those, piece, b);
    ComponentsAreOne(region, these, those);
    var large := Large(these, piece, |these|);
    forall k | 0 <= k < |large| ensures a[k] == b[k] {
      FilledIsOne(large[k], a[k], b[k]);
    }
  }

  /** Whatever piece is traced, its ring encloses exactly the filled piece's squares. */
  lemma PieceTraced(region: set<Point>, part: set<Point>, filled: set<Point>)
    requires IsPiece(region, part) && IsFilled(part, filled)
    ensures filled != {} && Encloses(Ring(filled), filled)
  {
    var p :| IsComponent(region, p, part);
    var box :| IsFrame(part, box) && filled == Filled(part, box);
    ComponentConnected(region, p, part);
    FilledFits(part, box);
    FilledConnected(part, box);
    FilledHoleFree(part, box);
    assert filled != {} by { assert p in part; }
    PieceEnclosed(filled, box);
  }
}
