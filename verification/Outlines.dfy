/** `outlines` of demo/outline.py: all traces simplified with one tolerance, the smallest in
    hundredths of a square that leaves at most so many edges. */
module Outlines {
  import opened Wrappers
  import opened Squares
  import opened Polyline
  import opened DouglasPeucker
  import Raster

  datatype Outline = Outline(name: string, ring: Ring)

  /** A trace in steps, a square being grid steps wide. */
  function InSteps(ring: seq<Point>, grid: real): (steps: Ring)
    ensures |steps| == |ring|
  {
    seq(|ring|, i requires 0 <= i < |ring| => Vertex(Times(ring[i].x as real, grid), Times(ring[i].y as real, grid)))
  }

  const TILE: string := "tile"
  const SRAM: string := Raster.SRAM
  const SMOOTH: nat := 75

  predicate Traced(name: string) {
    name != TILE && name != SRAM
  }

  /** The outlines at a tolerance of h hundredths of a square of the given side. */
  function At(found: seq<Outline>, h: int, grid: real): seq<Outline> {
    if found == [] then []
    else At(found[..|found| - 1], h, grid) + [OneAt(found[|found| - 1], h, grid)]
  }

  function OneAt(o: Outline, h: int, grid: real): Outline {
    if Traced(o.name) then o.(ring := Simplified(o.ring, Tolerance(h, grid))) else o
  }

  function Tolerance(h: int, grid: real): real {
    Times(h as real / 100.0, grid)
  }

  function Count(rings: seq<Outline>): nat {
    if rings == [] then 0 else Count(rings[..|rings| - 1]) + |rings[|rings| - 1].ring|
  }

  function CountAt(found: seq<Outline>, h: int, grid: real): nat {
    Count(At(found, h, grid))
  }

  /** What the guard counts: the rectangles' edges, and three for each traced ring. */
  function Least(found: seq<Outline>): nat {
    if found == [] then 0
    else
      var o := found[|found| - 1];
      Least(found[..|found| - 1]) + if Traced(o.name) then 3 else |o.ring|
  }

  lemma CountAtMore(found: seq<Outline>, h: int, grid: real)
    requires found != []
    ensures CountAt(found, h, grid)
         == CountAt(found[..|found| - 1], h, grid) + |OneAt(found[|found| - 1], h, grid).ring|
  {
    var less := At(found[..|found| - 1], h, grid);
    var all := At(found, h, grid);
    assert all[..|all| - 1] == less;
  }

  /** More tolerance never makes more edges. */
  lemma {:induction false} CountFalls(found: seq<Outline>, small: int, large: int, grid: real)
    requires small <= large && grid > 0.0
    ensures CountAt(found, large, grid) <= CountAt(found, small, grid)
  {
    if found != [] {
      var o := found[|found| - 1];
      CountFalls(found[..|found| - 1], small, large, grid);
      CountAtMore(found, small, grid);
      CountAtMore(found, large, grid);
      ToleranceGrows(small, large, grid);
      SimplifiedShrinks(o.ring, Tolerance(small, grid), Tolerance(large, grid));
    }
  }

  lemma ToleranceGrows(small: int, large: int, grid: real)
    requires small <= large && grid > 0.0
    ensures Tolerance(small, grid) <= Tolerance(large, grid)
  {
    var a, b := small as real / 100.0, large as real / 100.0;
    NotNegative(grid, b - a);
    Spread(grid, b, a);
    Swap(grid, a, 0.0);
    Swap(grid, b, 0.0);
  }

  // a tolerance that leaves three corners of every traced ring

  /** No corner among the first k is farther from p than this. */
  function Reach(ring: Ring, p: Vertex, k: nat): (r: real)
    requires k <= |ring|
    ensures r >= 0.0 && forall n :: 0 <= n < k ==> Distance2(ring[n], p) <= r
  {
    if k == 0 then 0.0 else Greater(Reach(ring, p, k - 1), Distance2(ring[k - 1], p))
  }

  function Width(ring: Ring, k: nat): (r: real)
    requires k <= |ring|
    ensures r >= 0.0
    ensures forall n, m :: 0 <= n < |ring| && 0 <= m < k ==> Distance2(ring[n], ring[m]) <= r
  {
    if k == 0 then 0.0 else Greater(Width(ring, k - 1), Reach(ring, ring[k - 1], |ring|))
  }

  lemma SqGrows(a: real)
    requires a >= 1.0
    ensures Sq(a) >= a
  {
    NotNegative(a, a - 1.0);
    Spread(a, a, 1.0);
  }

  /** A tolerance above the ring's width keeps no split. */
  lemma WideKeepsNone(ring: Ring, a: nat, b: nat, epsilon: real)
    requires a <= b <= |ring| && epsilon >= 1.0 + Width(ring, |ring|)
    ensures Splits(ring, a, b, epsilon) == {}
  {
    if b - a >= 2 {
      var at := Peak(ring, a, b, b);
      SegmentEnds(ring[at], ring[a], CornerAt(ring, b));
      SqGrows(epsilon);
    }
  }

  lemma WideLeavesThree(ring: Ring, epsilon: real)
    requires epsilon >= 1.0 + Width(ring, |ring|)
    ensures |Simplified(ring, epsilon)| <= 3
  {
    if |ring| > 3 {
      var far := Far(ring, |ring|);
      WideKeepsNone(ring, 0, far, epsilon);
      WideKeepsNone(ring, far, |ring|, epsilon);
      SimplifiedLength(ring, epsilon);
      assert Kept(ring, epsilon) == {0, far};
    }
  }

  /** Hundredths of a square that are wide enough for every ring. */
  function Enough(found: seq<Outline>, grid: real): nat
    requires grid > 0.0
  {
    if found == [] then 0
    else
      var o := found[|found| - 1];
      var h := (100.0 * ((1.0 + Width(o.ring, |o.ring|)) / grid)).Floor + 1;
      var before := Enough(found[..|found| - 1], grid);
      if h > before then h else before
  }

  lemma {:induction false} EnoughLeavesLeast(found: seq<Outline>, h: int, grid: real)
    requires grid > 0.0 && h >= Enough(found, grid)
    ensures CountAt(found, h, grid) <= Least(found)
  {
    if found != [] {
      var o := found[|found| - 1];
      EnoughLeavesLeast(found[..|found| - 1], h, grid);
      CountAtMore(found, h, grid);
      if Traced(o.name) {
        WideEnough(1.0 + Width(o.ring, |o.ring|), h, grid);
        WideLeavesThree(o.ring, Tolerance(h, grid));
      }
    }
  }

  lemma WideEnough(width: real, h: int, grid: real)
    requires grid > 0.0 && h >= (100.0 * (width / grid)).Floor + 1
    ensures Tolerance(h, grid) >= width
  {
    var a, b := h as real / 100.0, width / grid;
    NotNegative(grid, a - b);
    Spread(grid, a, b);
    Swap(grid, a, 0.0);
    assert Times(grid, b) == width;
  }

  // the search

  datatype Error = TooManyOutlines(segments: int, outlines: nat)

  /** h is the smallest tolerance from SMOOTH that leaves at most `segments` edges. */
  ghost predicate IsSmallest(found: seq<Outline>, segments: int, grid: real, h: int) {
    && h >= SMOOTH && CountAt(found, h, grid) <= segments
    && forall less :: SMOOTH <= less < h ==> CountAt(found, less, grid) > segments
  }

  method SimplifyAll(found: seq<Outline>, h: int, grid: real) returns (rings: seq<Outline>)
    ensures rings == At(found, h, grid)
  {
    rings := [];
    var n := 0;
    while n < |found|
      invariant 0 <= n <= |found| && rings == At(found[..n], h, grid)
    {
      var o := found[n];
      assert found[..n + 1][..n] == found[..n];
      if Traced(o.name) {
        var ring := Simplify(o.ring, Tolerance(h, grid));
        rings := rings + [o.(ring := ring)];
      } else {
        rings := rings + [o];
      }
      n := n + 1;
    }
    assert found[..n] == found;
  }

  method CountEdges(rings: seq<Outline>) returns (count: nat)
    ensures count == Count(rings)
  {
    count := 0;
    var n := 0;
    while n < |rings|
      invariant 0 <= n <= |rings| && count == Count(rings[..n])
    {
      assert rings[..n + 1][..n] == rings[..n];
      count := count + |rings[n].ring|;
      n := n + 1;
    }
    assert rings[..n] == rings;
  }

  method CountLeast(found: seq<Outline>) returns (least: nat)
    ensures least == Least(found)
  {
    var fixed, traced := 0, 0;
    var n := 0;
    while n < |found|
      invariant 0 <= n <= |found| && fixed >= 0 && traced >= 0 && fixed + 3 * traced == Least(found[..n])
    {
      assert found[..n + 1][..n] == found[..n];
      if Traced(found[n].name) { traced := traced + 1; } else { fixed := fixed + |found[n].ring|; }
      n := n + 1;
    }
    assert found[..n] == found;
    least := fixed + 3 * traced;
  }

  /** Fails exactly if the guard does; else ends, with every ring at the smallest tolerance that
      leaves at most `segments` edges in total. */
  method SmallestOutlines(found: seq<Outline>, segments: int, grid: real) returns (r: Result<seq<Outline>, Error>)
    requires grid > 0.0
    ensures r.Failure? <==> Least(found) > segments
    ensures r.Success? ==> exists h :: IsSmallest(found, segments, grid, h) && r.value == At(found, h, grid)
  {
    var least := CountLeast(found);
    if least > segments {
      return Failure(TooManyOutlines(segments, |found|));
    }
    var low, high := SMOOTH, SMOOTH;
    ghost var enough: int := Enough(found, grid);
    var rings := SimplifyAll(found, high, grid);
    var count := CountEdges(rings);
    while count > segments
      invariant low == SMOOTH <= high && rings == At(found, high, grid) && count == Count(rings)
      decreases enough - high
    {
      if high >= enough {
        EnoughLeavesLeast(found, high, grid);
      }
      high := high * 2;
      rings := SimplifyAll(found, high, grid);
      count := CountEdges(rings);
    }
    while low < high
      invariant SMOOTH <= low <= high && CountAt(found, high, grid) <= segments
      invariant forall less :: SMOOTH <= less < low ==> CountAt(found, less, grid) > segments
    {
      var middle := (low + high) / 2;
      rings := SimplifyAll(found, middle, grid);
      count := CountEdges(rings);
      if count <= segments {
        high := middle;
      } else {
        forall less | SMOOTH <= less <= middle ensures CountAt(found, less, grid) > segments {
          CountFalls(found, less, middle, grid);
        }
        low := middle + 1;
      }
    }
    rings := SimplifyAll(found, high, grid);
    return Success(rings);
  }

  /** That tolerance is the exact threshold: a hundredth fits the budget if and only if it is no
      smaller. */
  lemma SmallestIsThreshold(found: seq<Outline>, segments: int, grid: real, h: int, other: int)
    requires grid > 0.0 && IsSmallest(found, segments, grid, h) && other >= SMOOTH
    ensures CountAt(found, other, grid) <= segments <==> other >= h
  {
    if other >= h {
      CountFalls(found, h, other, grid);
    }
  }
}
