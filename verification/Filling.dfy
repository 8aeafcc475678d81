/** What `fill` of demo/outline.py makes of a piece: the piece with everything it encloses. */
module Filling {
  import opened Squares
  import opened Reach

  /** The piece's extent with a margin of one square, as `fill` takes it. */
  ghost predicate IsFrame(part: set<Point>, box: Box) {
    && Surrounds(part, box)
    && (exists p :: p in part && p.x == box.x0 + 1) && (exists p :: p in part && p.x == box.x1 - 1)
    && (exists p :: p in part && p.y == box.y0 + 1) && (exists p :: p in part && p.y == box.y1 - 1)
  }

  lemma FrameIsOne(part: set<Point>, a: Box, b: Box)
    requires IsFrame(part, a) && IsFrame(part, b)
    ensures a == b
  {
    assert a.x0 == b.x0 && a.x1 == b.x1;
  }

  function Corner(box: Box): Point {
    Point(box.x0, box.y0)
  }

  /** Reached from the corner of the frame without entering part. */
  ghost predicate IsOutside(part: set<Point>, box: Box, p: Point) {
    InBox(box, p) && p !in part && Reaches(OutsideSteps(part, box), Corner(box), p)
  }

  ghost function Filled(part: set<Point>, box: Box): set<Point> {
    set x, y | box.x0 <= x <= box.x1 && box.y0 <= y <= box.y1 && !IsOutside(part, box, Point(x, y))
      :: Point(x, y)
  }

  lemma OutsideSpreads(part: set<Point>, box: Box, p: Point, q: Point)
    requires IsOutside(part, box, p) && InBox(box, q) && q !in part && Adjacent8(p, q)
    ensures IsOutside(part, box, q)
  {
    Then(OutsideSteps(part, box), Corner(box), p, q);
  }

  lemma CornerOutside(part: set<Point>, box: Box)
    requires Surrounds(part, box) && box.x0 <= box.x1 && box.y0 <= box.y1
    ensures IsOutside(part, box, Corner(box))
  {
    Self(OutsideSteps(part, box), Corner(box));
  }

  lemma {:induction false} LeftAndBottomOutside(part: set<Point>, box: Box, k: nat)
    requires Surrounds(part, box) && box.x0 <= box.x1 && box.y0 <= box.y1
    ensures box.x0 + k <= box.x1 ==> IsOutside(part, box, Point(box.x0 + k, box.y0))
    ensures box.y0 + k <= box.y1 ==> IsOutside(part, box, Point(box.x0, box.y0 + k))
  {
    if k == 0 {
      CornerOutside(part, box);
    } else {
      LeftAndBottomOutside(part, box, k - 1);
      if box.x0 + k <= box.x1 {
        OutsideSpreads(part, box, Point(box.x0 + k - 1, box.y0), Point(box.x0 + k, box.y0));
      }
      if box.y0 + k <= box.y1 {
        OutsideSpreads(part, box, Point(box.x0, box.y0 + k - 1), Point(box.x0, box.y0 + k));
      }
    }
  }

  lemma {:induction false} RightAndTopOutside(part: set<Point>, box: Box, k: nat)
    requires Surrounds(part, box) && box.x0 <= box.x1 && box.y0 <= box.y1
    ensures box.y0 + k <= box.y1 ==> IsOutside(part, box, Point(box.x1, box.y0 + k))
    ensures box.x0 + k <= box.x1 ==> IsOutside(part, box, Point(box.x0 + k, box.y1))
  {
    if k == 0 {
      LeftAndBottomOutside(part, box, box.x1 - box.x0);
      LeftAndBottomOutside(part, box, box.y1 - box.y0);
    } else {
      RightAndTopOutside(part, box, k - 1);
      if box.y0 + k <= box.y1 {
        OutsideSpreads(part, box, Point(box.x1, box.y0 + k - 1), Point(box.x1, box.y0 + k));
      }
      if box.x0 + k <= box.x1 {
        OutsideSpreads(part, box, Point(box.x0 + k - 1, box.y1), Point(box.x0 + k, box.y1));
      }
    }
  }

  /** Filling keeps the piece and stays within its extent. */
  lemma FilledFits(part: set<Point>, box: Box)
    requires IsFrame(part, box)
    ensures part <= Filled(part, box) && IsFrame(Filled(part, box), box)
  {
    var filled := Filled(part, box);
    forall p | p in part ensures p in filled {
      assert p == Point(p.x, p.y);
    }
    forall p | p in filled ensures box.x0 < p.x < box.x1 && box.y0 < p.y < box.y1 {
      LeftAndBottomOutside(part, box, p.x - box.x0);
      LeftAndBottomOutside(part, box, p.y - box.y0);
      RightAndTopOutside(part, box, p.x - box.x0);
      RightAndTopOutside(part, box, p.y - box.y0);
      assert p == Point(p.x, p.y);
    }
  }

  /** What is outside the piece is outside the filled piece too. */
  lemma OutsideStays(part: set<Point>, box: Box, p: Point)
    requires IsFrame(part, box) && IsOutside(part, box, p)
    ensures IsOutside(Filled(part, box), box, p)
  {
    var filled := Filled(part, box);
    FilledFits(part, box);
    CornerOutside(filled, box);
    CornerOutside(part, box);
    var both := q => IsOutside(part, box, q) && IsOutside(filled, box, q);
    forall q, r | both(q) && OutsideSteps(part, box)(q, r) ensures both(r) {
      OutsideSpreads(part, box, q, r);
      assert r !in filled;
      OutsideSpreads(filled, box, q, r);
    }
    Kept(OutsideSteps(part, box), both, Corner(box), p);
  }

  /** The filled piece has no holes. */
  lemma FilledHoleFree(part: set<Point>, box: Box)
    requires IsFrame(part, box)
    ensures HoleFree(Filled(part, box), box)
  {
    var filled := Filled(part, box);
    FilledFits(part, box);
    forall p | InBox(box, p) && p !in filled
      ensures Reaches(OutsideSteps(filled, box), Corner(box), p)
    {
      assert p == Point(p.x, p.y);
      OutsideStays(part, box, p);
    }
  }

  /** Filling twice is filling once. */
  lemma FilledTwice(part: set<Point>, box: Box)
    requires IsFrame(part, box)
    ensures Filled(Filled(part, box), box) == Filled(part, box)
  {
    var filled := Filled(part, box);
    FilledFits(part, box);
    FilledFits(filled, box);
    forall p | p in Filled(filled, box) ensures p in filled {
      if p !in filled {
        assert p == Point(p.x, p.y);
        OutsideStays(part, box, p);
      }
    }
  }

  /** A piece without holes is left as it is. */
  lemma FillKeepsHoleFree(part: set<Point>, box: Box)
    requires IsFrame(part, box) && HoleFree(part, box)
    ensures Filled(part, box) == part
  {
    FilledFits(part, box);
    forall p | p in Filled(part, box) ensures p in part {
      assert p == Point(p.x, p.y);
    }
  }

  /** Going left from a filled square the piece comes before the margin, along filled squares. */
  lemma {:induction false} HoleMeetsPiece(part: set<Point>, box: Box, p: Point) returns (q: Point)
    requires IsFrame(part, box) && p in Filled(part, box)
    ensures q in part && Reaches(SideSteps(Filled(part, box)), p, q)
    decreases p.x - box.x0
  {
    var filled := Filled(part, box);
    FilledFits(part, box);
    if p in part {
      q := p;
      Self(SideSteps(filled), p);
    } else {
      var l := Point(p.x - 1, p.y);
      assert p == Point(p.x, p.y);
      if l !in filled {
        OutsideSpreads(part, box, l, p);
      }
      q := HoleMeetsPiece(part, box, l);
      Self(SideSteps(filled), p);
      Then(SideSteps(filled), p, p, l);
      Transitive(SideSteps(filled), p, l, q);
    }
  }

  lemma SideStepsBack(part: set<Point>)
    ensures Symmetric(SideSteps(part))
  {
  }

  /** Filling a connected piece leaves it connected. */
  lemma FilledConnected(part: set<Point>, box: Box)
    requires IsFrame(part, box) && Connected4(part)
    ensures Connected4(Filled(part, box))
  {
    var filled := Filled(part, box);
    var step := SideSteps(filled);
    FilledFits(part, box);
    SideStepsBack(filled);
    forall p, q | p in filled && q in filled ensures Reaches(step, p, q) {
      var a := HoleMeetsPiece(part, box, p);
      var b := HoleMeetsPiece(part, box, q);
      Widen(SideSteps(part), step, a, b);
      Back(step, q, b);
      Transitive(step, p, a, b);
      Transitive(step, p, b, q);
    }
  }
}
