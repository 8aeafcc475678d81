/** `Canvas.rect` and `Canvas.line` of demo/draw.py, on one buffer of pixels, row by row. */
module Drawing {
  import opened Numbers
  import opened Rounding
  import opened Bresenham

  type Byte = b: int | 0 <= b < 256

  datatype Colour = Colour(red: Byte, green: Byte, blue: Byte)

  /** The rectangle from (x0, y0) to (x1, y1) takes some of pixel (x, y)'s square. */
  predicate Covers(x0: real, y0: real, x1: real, y1: real, x: int, y: int) {
    x0 < (x + 1) as real && x as real < x1 && y0 < (y + 1) as real && y as real < y1
  }

  /** Of a rectangle with an inside those are the pixels that share a point of it. */
  lemma CoversInside(x0: real, y0: real, x1: real, y1: real, x: int, y: int)
    requires x0 < x1 && y0 < y1
    ensures Covers(x0, y0, x1, y1, x, y) <==> exists u: real, v: real :: IsInside(x0, y0, x1, y1, x, y, u, v)
  {
    if Covers(x0, y0, x1, y1, x, y) {
      var left, right := Higher(x0, x as real), Lower(x1, (x + 1) as real);
      var top, bottom := Higher(y0, y as real), Lower(y1, (y + 1) as real);
      assert IsInside(x0, y0, x1, y1, x, y, (left + right) / 2.0, (top + bottom) / 2.0);
    }
  }

  function Higher(a: real, b: real): real { if a >= b then a else b }

  function Lower(a: real, b: real): real { if a <= b then a else b }

  predicate IsInside(x0: real, y0: real, x1: real, y1: real, x: int, y: int, u: real, v: real) {
    && x0 < u < x1 && y0 < v < y1
    && x as real < u < (x + 1) as real && y as real < v < (y + 1) as real
  }

  /** The whole coordinates that `rect` cuts an interval to hold what the interval touches. */
  lemma CutTouches(z0: real, z1: real, n: nat, z: int)
    requires 0 <= z < n
    ensures Max(0, Truncated(z0)) <= z < Min(n, Ceiling(z1)) <==> z0 < (z + 1) as real && z as real < z1
  {
  }

  // a line's pixels

  datatype Cell = Cell(x: int, y: int)

  function Size(z0: int, z1: int): nat { if z1 >= z0 then z1 - z0 else z0 - z1 }

  /** The k-th pixel of the line between two pixels. */
  function LineCell(p: Cell, q: Cell, k: nat): Cell {
    var a, b := Size(p.x, q.x), Size(p.y, q.y);
    Cell(if q.x > p.x then p.x + AcrossAt(a, b, k) else p.x - AcrossAt(a, b, k),
         if q.y > p.y then p.y + DownAt(a, b, k) else p.y - DownAt(a, b, k))
  }

  function LineSteps(p: Cell, q: Cell): nat {
    Longer(Size(p.x, q.x), Size(p.y, q.y))
  }

  /** The pen on a pixel: a square of weight pixels, half of them before it. */
  predicate PenCovers(at: Cell, weight: int, x: int, y: int) {
    var half := (weight - 1) / 2;
    at.x - half <= x < at.x - half + weight && at.y - half <= y < at.y - half + weight
  }

  /** As many pixels before it as after it, or one fewer. */
  lemma PenIsSquare(at: Cell, weight: int, x: int, y: int)
    ensures PenCovers(at, weight, x, y)
            <==> && 2 * (at.x - x) <= weight - 1 && 2 * (x - at.x) <= weight
                 && 2 * (at.y - y) <= weight - 1 && 2 * (y - at.y) <= weight
  {
  }

  /** The pen covers the pixel at one of the line's first n + 1. */
  ghost predicate Inked(p: Cell, q: Cell, weight: int, n: int, x: int, y: int) {
    exists k :: 0 <= k <= n && PenCovers(LineCell(p, q, k), weight, x, y)
  }

  /** The line starts on its first pixel and reaches its last after as many steps as its longer
      side, not before. */
  lemma LineEnds(p: Cell, q: Cell, k: nat)
    requires k <= LineSteps(p, q)
    ensures LineCell(p, q, 0) == p && (LineCell(p, q, k) == q <==> k == LineSteps(p, q))
  {
    ErrorStart(Size(p.x, q.x), Size(p.y, q.y));
    EndAt(Size(p.x, q.x), Size(p.y, q.y), k);
  }

  /** Each step moves the longer side's coordinate by one towards the end, and every pixel is
      within half a pixel of the straight line along the other coordinate. */
  lemma LineStays(p: Cell, q: Cell, k: nat)
    requires k <= LineSteps(p, q)
    ensures
      var a, b, c := q.x - p.x, q.y - p.y, LineCell(p, q, k);
      if Size(p.x, q.x) >= Size(p.y, q.y) then
        && c.x == (if a > 0 then p.x + k else p.x - k)
        && 2 * Size(0, Size(0, a) * (c.y - p.y) - b * k) <= Size(0, a)
      else
        && c.y == (if b > 0 then p.y + k else p.y - k)
        && 2 * Size(0, Size(0, b) * (c.x - p.x) - a * k) <= Size(0, b)
  {
    var a, b := Size(p.x, q.x), Size(p.y, q.y);
    if a >= b && a > 0 {
      MinorNear(b, a, k);
      SignedNear(a, q.y - p.y, Minor(b, a, k), k);
    } else if b > a {
      MinorNear(a, b, k);
      SignedNear(b, q.x - p.x, Minor(a, b, k), k);
    }
  }

  lemma SignedNear(big: nat, d: int, m: nat, k: nat)
    requires -(big as int) <= 2 * (Size(0, d) * k - big * m) < big
    ensures 2 * Size(0, big * (if d > 0 then m else 0 - m) - d * k) <= big
  {
    if d <= 0 {
      assert big * (0 - m) == 0 - big * m && d * k == 0 - Size(0, d) * k;
    }
  }

  class Canvas {
    const width: nat
    const height: nat
    const pixels: array<Colour>

    ghost predicate Valid() {
      pixels.Length == width * height
    }

    /** Where the buffer has pixel (x, y). */
    function Index(x: nat, y: nat): (i: nat)
      requires Valid() && x < width && y < height
      ensures i < pixels.Length
    {
      InBuffer(x, y, width, height);
      y * width + x
    }

    function Pixel(x: nat, y: nat): Colour
      requires Valid() && x < width && y < height
      reads pixels
    {
      pixels[Index(x, y)]
    }

    constructor (width: nat, height: nat, surface: Colour)
      ensures Valid() && this.width == width && this.height == height && fresh(pixels)
      ensures forall x: nat, y: nat :: x < width && y < height ==> Pixel(x, y) == surface
    {
      this.width, this.height := width, height;
      pixels := new Colour[width * height](_ => surface);
      new;
      forall x: nat, y: nat | x < width && y < height ensures Pixel(x, y) == surface {
        assert Index(x, y) < pixels.Length;
      }
    }

    /** Fills the pixels that the rectangle touches, clipped to the canvas, and no others. */
    method Rect(x0: real, y0: real, x1: real, y1: real, colour: Colour)
      requires Valid()
      modifies pixels
      ensures forall x: nat, y: nat :: x < width && y < height ==>
        Pixel(x, y) == if Covers(x0, y0, x1, y1, x, y) then colour else old(Pixel(x, y))
    {
      var left, top := Max(0, Truncated(x0)), Max(0, Truncated(y0));
      var right, bottom := Min(width, Ceiling(x1)), Min(height, Ceiling(y1));
      var y := top;
      while y < bottom
        invariant top <= y && (y <= bottom || y == top)
        invariant forall u: nat, v: nat :: u < width && v < height ==>
          Pixel(u, v) == if left <= u < right && top <= v < y then colour else old(Pixel(u, v))
      {
        FillRow(left, right, y, colour);
        y := y + 1;
      }
      forall u: nat, v: nat | u < width && v < height
        ensures Pixel(u, v) == if Covers(x0, y0, x1, y1, u, v) then colour else old(Pixel(u, v))
      {
        CutTouches(x0, x1, width, u);
        CutTouches(y0, y1, height, v);
      }
    }

    /** Overwrites one stretch of the buffer. */
    method FillRow(left: nat, right: int, y: nat, colour: Colour)
      requires Valid() && y < height && right <= width
      modifies pixels
      ensures forall u: nat, v: nat :: u < width && v < height ==>
        Pixel(u, v) == if left <= u < right && v == y then colour else old(Pixel(u, v))
    {
      if left < right {
        var at := Index(left, y);
        InBuffer(right - 1, y, width, height);
        forall i | 0 <= i < right - left {
          pixels[at + i] := colour;
        }
        forall u: nat, v: nat | u < width && v < height
          ensures at <= Index(u, v) < at + (right - left) <==> left <= u < right && v == y
        {
          RowsApart(u, v, y, width);
        }
      }
    }

    /** Inks the pen's square around each pixel of the line and nothing else, and ends. */
    method Line(fromX: real, fromY: real, toX: real, toY: real, colour: Colour, weight: int) returns (ghost steps: nat)
      requires Valid()
      modifies pixels
      ensures steps == LineSteps(Cell(Round(fromX), Round(fromY)), Cell(Round(toX), Round(toY)))
      ensures forall x: nat, y: nat :: x < width && y < height ==>
        Pixel(x, y) == if Inked(Cell(Round(fromX), Round(fromY)), Cell(Round(toX), Round(toY)), weight, steps, x, y)
                       then colour else old(Pixel(x, y))
    {
      var x0, y0, x1, y1 := Round(fromX), Round(fromY), Round(toX), Round(toY);
      ghost var p, q := Cell(x0, y0), Cell(x1, y1);
      ghost var a, b := Size(x0, x1), Size(y0, y1);
      var dx: int, dy: int := Size(x0, x1), 0 - Size(y0, y1);
      var sx, sy := if x1 > x0 then 1 else -1, if y1 > y0 then 1 else -1;
      var error := dx + dy;
      var half := (weight - 1) / 2;
      steps := 0;
      LineEnds(p, q, 0);
      ErrorStart(a, b);
      while true
        invariant steps <= LineSteps(p, q) && Cell(x0, y0) == LineCell(p, q, steps)
        invariant error == ErrorAt(a, b, steps)
        invariant forall x: nat, y: nat :: x < width && y < height ==>
          Pixel(x, y) == if Inked(p, q, weight, steps - 1, x, y) then colour else old(Pixel(x, y))
        decreases LineSteps(p, q) - steps
      {
        Pen(x0 - half, y0 - half, weight, colour);
        forall x: int, y: int ensures Inked(p, q, weight, steps, x, y) <==>
            Inked(p, q, weight, steps - 1, x, y) || PenCovers(Cell(x0, y0), weight, x, y) {
          InkedMore(p, q, weight, steps, x, y);
        }
        LineEnds(p, q, steps);
        if x0 == x1 && y0 == y1 { return; }
        Advance(p, q, steps);
        var e2 := 2 * error;
        if e2 >= dy {
          error := error + dy;
          x0 := x0 + sx;
        }
        if e2 <= dx {
          error := error + dx;
          y0 := y0 + sy;
        }
        steps := steps + 1;
      }
    }

    /** One square of the pen. */
    method Pen(left: int, top: int, weight: int, colour: Colour)
      requires Valid()
      modifies pixels
      ensures forall x: nat, y: nat :: x < width && y < height ==>
        Pixel(x, y) == if left <= x < left + weight && top <= y < top + weight then colour else old(Pixel(x, y))
    {
      Rect(left as real, top as real, (left + weight) as real, (top + weight) as real, colour);
    }
  }

  lemma InBuffer(x: nat, y: nat, width: nat, height: nat)
    requires x < width && y < height
    ensures y * width + x < width * height
  {
    assert (y + 1) * width <= height * width;
  }

  lemma RowsApart(u: nat, v: nat, y: nat, width: nat)
    requires u < width
    ensures v < y ==> v * width + u < y * width
    ensures v > y ==> v * width + u >= y * width + width
  {
    if v < y {
      assert (v + 1) * width <= y * width;
    }
    if v > y {
      assert (y + 1) * width <= v * width;
    }
  }

  lemma InkedMore(p: Cell, q: Cell, weight: int, n: nat, x: int, y: int)
    ensures Inked(p, q, weight, n, x, y) <==>
      Inked(p, q, weight, n - 1, x, y) || PenCovers(LineCell(p, q, n), weight, x, y)
  {
  }

  /** One round of the loop goes from the line's pixel k to its pixel k + 1. */
  lemma Advance(p: Cell, q: Cell, k: nat)
    requires k < LineSteps(p, q)
    ensures
      var a, b := Size(p.x, q.x), Size(p.y, q.y);
      var e, at, next := ErrorAt(a, b, k), LineCell(p, q, k), LineCell(p, q, k + 1);
      && next.x == (if 2 * e >= 0 - b then (if q.x > p.x then at.x + 1 else at.x - 1) else at.x)
      && next.y == (if 2 * e <= a then (if q.y > p.y then at.y + 1 else at.y - 1) else at.y)
      && ErrorAt(a, b, k + 1) == e - (if 2 * e >= 0 - b then b else 0) + (if 2 * e <= a then a else 0)
  {
    var a, b := Size(p.x, q.x), Size(p.y, q.y);
    StepAt(a, b, k);
    OneMore(a, DownAt(a, b, k), DownAt(a, b, k + 1));
    OneMore(b, AcrossAt(a, b, k), AcrossAt(a, b, k + 1));
  }

  lemma OneMore(a: nat, m: nat, n: nat)
    requires n == m || n == m + 1
    ensures a * n == if n == m then a * m else a * m + a
  {
  }
}
