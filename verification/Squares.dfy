/** Raster squares, their corners and the two neighbourhoods of demo/outline.py. A square is
    named by its lower left corner. */
module Squares {
  import opened Reach

  datatype Point = Point(x: int, y: int)

  datatype Heading = East | North | West | South

  const HEADINGS: set<Heading> := {East, North, West, South}

  function Ahead(p: Point, d: Heading): Point {
    match d
    case East => Point(p.x + 1, p.y)
    case North => Point(p.x, p.y + 1)
    case West => Point(p.x - 1, p.y)
    case South => Point(p.x, p.y - 1)
  }

  function LeftTurn(d: Heading): Heading {
    match d
    case East => North
    case North => West
    case West => South
    case South => East
  }

  function RightTurn(d: Heading): Heading {
    LeftTurn(LeftTurn(LeftTurn(d)))
  }

  /** Corners in the order Python compares pairs. */
  predicate Before(p: Point, q: Point) {
    p.x < q.x || (p.x == q.x && p.y < q.y)
  }

  predicate Adjacent4(p: Point, q: Point) {
    q == Ahead(p, East) || q == Ahead(p, North) || q == Ahead(p, West) || q == Ahead(p, South)
  }

  predicate Adjacent8(p: Point, q: Point) {
    -1 <= q.x - p.x <= 1 && -1 <= q.y - p.y <= 1
  }

  /** A step by a shared side between two squares of part. */
  ghost function SideSteps(part: set<Point>): (Point, Point) -> bool {
    (p, q) => p in part && q in part && Adjacent4(p, q)
  }

  ghost predicate Connected4(part: set<Point>) {
    forall p, q :: p in part && q in part ==> Reaches(SideSteps(part), p, q)
  }

  datatype Box = Box(x0: int, x1: int, y0: int, y1: int)

  predicate InBox(box: Box, p: Point) {
    box.x0 <= p.x <= box.x1 && box.y0 <= p.y <= box.y1
  }

  /** A step to one of the eight squares around, inside box and clear of part. */
  ghost function OutsideSteps(part: set<Point>, box: Box): (Point, Point) -> bool {
    (p, q) => InBox(box, q) && q !in part && Adjacent8(p, q)
  }

  ghost predicate Surrounds(part: set<Point>, box: Box) {
    forall p :: p in part ==> box.x0 < p.x < box.x1 && box.y0 < p.y < box.y1
  }

  /** Every square that part leaves out of the box is reached from the box's corner, so part
      encloses nothing. */
  ghost predicate HoleFree(part: set<Point>, box: Box) {
    && Surrounds(part, box)
    && forall p :: InBox(box, p) && p !in part ==>
         Reaches(OutsideSteps(part, box), Point(box.x0, box.y0), p)
  }
}
