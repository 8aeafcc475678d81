/** `raster` of demo/outline.py: how much of each square each block covers, and from the blurred
    covers the block each square belongs to. */
module Raster {
  import opened Wrappers
  import opened Numbers
  import opened Blur

  datatype Cell = Cell(x: nat, y: nat, w: nat, h: nat, block: string)

  const DRAWN: seq<string> := ["engine 0", "engine 1", "host FIFOs", "host port", "data memory"]
  const SRAM: string := "SRAM macros"
  const ALL: string := "all"

  /** How much of a length from x on lies in unit n of the grid. */
  function Overlap(x: nat, w: nat, grid: nat, n: nat): nat {
    var over := Min(x + w, (n + 1) * grid) - Max(x, n * grid);
    if over > 0 then over else 0
  }

  /** The area of a cell in square (i, j). */
  function Shared(cell: Cell, grid: nat, j: nat, i: nat): nat {
    Overlap(cell.y, cell.h, grid, j) * Overlap(cell.x, cell.w, grid, i)
  }

  /** How often a cell counts for a name: once for its block, once for all. */
  function Weight(cell: Cell, name: string): nat {
    if cell.block == SRAM then 0
    else (if name == ALL then 1 else 0) + if name == cell.block then 1 else 0
  }

  /** The cover of square (i, j) by the first n cells. */
  function Cover(cells: seq<Cell>, grid: nat, n: nat, name: string, j: nat, i: nat): nat
    requires n <= |cells|
  {
    if n == 0 then 0
    else Cover(cells, grid, n - 1, name, j, i) + Weight(cells[n - 1], name) * Shared(cells[n - 1], grid, j, i)
  }

  predicate TouchesAlong(x: nat, w: nat, grid: nat, n: nat) {
    n * grid < x + w && x < (n + 1) * grid
  }

  predicate Touches(cell: Cell, grid: nat, j: nat, i: nat) {
    TouchesAlong(cell.x, cell.w, grid, i) && TouchesAlong(cell.y, cell.h, grid, j)
  }

  ghost predicate MacroTouches(cells: seq<Cell>, grid: nat, n: nat, j: nat, i: nat)
    requires n <= |cells|
  {
    exists k :: 0 <= k < n && cells[k].block == SRAM && Touches(cells[k], grid, j, i)
  }

  // the squares a cell is looked at in

  function First(x: nat, grid: nat): nat
    requires grid > 0
  {
    x / grid
  }

  /** Rounded up. */
  function UpTo(end: nat, grid: nat): (n: nat)
    requires grid > 0
  {
    -((0 - end) / grid)
  }

  lemma FirstIs(x: nat, grid: nat, n: nat)
    requires grid > 0
    ensures First(x, grid) <= n <==> x < (n + 1) * grid
  {
    var q, m := x / grid, x % grid;
    assert x == q * grid + m;
    if q <= n {
      assert q * grid <= n * grid;
    } else {
      assert (n + 1) * grid <= q * grid;
    }
  }

  lemma UpToIs(end: nat, grid: nat, n: nat)
    requires grid > 0
    ensures n < UpTo(end, grid) <==> n * grid < end
  {
    var q := (0 - end) / grid;
    var m := (0 - end) % grid;
    assert 0 - end == q * grid + m;
    if n < -q {
      assert (n + 1) * grid <= (0 - q) * grid;
    } else {
      assert (0 - q) * grid <= n * grid;
    }
  }

  /** The loops' ranges are the squares touched. */
  lemma RangeTouches(x: nat, w: nat, grid: nat, n: nat)
    requires grid > 0
    ensures First(x, grid) <= n < UpTo(x + w, grid) <==> TouchesAlong(x, w, grid, n)
  {
    FirstIs(x, grid, n);
    UpToIs(x + w, grid, n);
  }

  /** The part of a length that lies in the units touched is all there is to add. */
  lemma OverlapWhere(x: nat, w: nat, grid: nat, n: nat)
    requires grid > 0
    ensures TouchesAlong(x, w, grid, n) ==> Min(x + w, (n + 1) * grid) - Max(x, n * grid) == Overlap(x, w, grid, n)
    ensures !TouchesAlong(x, w, grid, n) ==> Overlap(x, w, grid, n) == 0
  {
    assert (n + 1) * grid == n * grid + grid;
  }

  /** A length inside the grid is shared out among its units. */
  function Along(x: nat, w: nat, grid: nat, n: nat): nat {
    if n == 0 then 0 else Along(x, w, grid, n - 1) + Overlap(x, w, grid, n - 1)
  }

  lemma {:induction false} AlongIs(x: nat, w: nat, grid: nat, n: nat)
    requires grid > 0
    ensures Along(x, w, grid, n) == Max(Min(x + w, n * grid) - x, 0)
  {
    if n > 0 {
      AlongIs(x, w, grid, n - 1);
      assert n * grid == (n - 1) * grid + grid;
    }
  }

  // the covers and the squares macros touch

  type Square = (int, int)

  const NAMES: seq<string> := DRAWN + [ALL]

  /** The squares of a cell that the loops have come past. */
  predicate Passed(cell: Cell, grid: nat, j: nat, i: nat, jEnd: nat, iEnd: nat) {
    Touches(cell, grid, j, i) && (j < jEnd || (j == jEnd && i < iEnd))
  }

  /** What the first n cells give a square. */
  ghost predicate SquareDone(area: map<string, Table>, macro: set<Square>, cells: seq<Cell>, grid: nat, n: nat,
                             j: nat, i: nat)
    requires n <= |cells|
  {
    && ((i, j) in macro <==> MacroTouches(cells, grid, n, j, i))
    && forall name :: name in area ==> Entry(area[name], j, i) == Cover(cells, grid, n, name, j, i)
  }

  /** And with it cell n, if the loops have come past. */
  ghost predicate SquarePart(area: map<string, Table>, macro: set<Square>, cells: seq<Cell>, grid: nat, n: nat,
                             j: nat, i: nat, passed: bool)
    requires n < |cells|
  {
    && ((i, j) in macro <==> MacroTouches(cells, grid, n, j, i) || (passed && cells[n].block == SRAM))
    && forall name :: name in area ==>
                        Entry(area[name], j, i)
                        == Cover(cells, grid, n, name, j, i)
                          + if passed then Weight(cells[n], name) * Shared(cells[n], grid, j, i) else 0
  }

  ghost predicate Tables(area: map<string, Table>, rows: nat, columns: nat) {
    && (forall name :: name in NAMES <==> name in area)
    && forall name :: name in area ==> Rectangular(area[name], rows, columns)
  }

  ghost predicate Done(area: map<string, Table>, macro: set<Square>, cells: seq<Cell>, grid: nat, rows: nat,
                       columns: nat, n: nat)
    requires n <= |cells|
  {
    Tables(area, rows, columns)
    && forall j: nat, i: nat :: j < rows && i < columns ==> SquareDone(area, macro, cells, grid, n, j, i)
  }

  ghost predicate Part(area: map<string, Table>, macro: set<Square>, cells: seq<Cell>, grid: nat, rows: nat,
                       columns: nat, n: nat, jEnd: nat, iEnd: nat)
    requires n < |cells|
  {
    Tables(area, rows, columns)
    && forall j: nat, i: nat :: j < rows && i < columns ==>
                                  SquarePart(area, macro, cells, grid, n, j, i,
                                             Passed(cells[n], grid, j, i, jEnd, iEnd))
  }

  lemma PartStarts(area: map<string, Table>, macro: set<Square>, cells: seq<Cell>, grid: nat, rows: nat, columns: nat,
                   n: nat)
    requires grid > 0 && n < |cells| && Done(area, macro, cells, grid, rows, columns, n)
    ensures Part(area, macro, cells, grid, rows, columns, n, First(cells[n].y, grid), First(cells[n].x, grid))
  {
    var cell := cells[n];
    forall j: nat, i: nat | j < rows && i < columns
      ensures SquarePart(area, macro, cells, grid, n, j, i,
                         Passed(cell, grid, j, i, First(cell.y, grid), First(cell.x, grid)))
    {
      RangeTouches(cell.y, cell.h, grid, j);
      RangeTouches(cell.x, cell.w, grid, i);
      assert SquareDone(area, macro, cells, grid, n, j, i);
    }
  }

  lemma NextRow(area: map<string, Table>, macro: set<Square>, cells: seq<Cell>, grid: nat, rows: nat, columns: nat,
                n: nat, j: nat, i: nat)
    requires grid > 0 && n < |cells| && Part(area, macro, cells, grid, rows, columns, n, j, i)
    requires i >= First(cells[n].x, grid) && i >= Min(columns, UpTo(cells[n].x + cells[n].w, grid))
    ensures Part(area, macro, cells, grid, rows, columns, n, j + 1, First(cells[n].x, grid))
  {
    var cell, next := cells[n], j + 1;
    forall b: nat, c: nat | b < rows && c < columns
      ensures SquarePart(area, macro, cells, grid, n, b, c, Passed(cell, grid, b, c, next, First(cell.x, grid)))
    {
      RangeTouches(cell.x, cell.w, grid, c);
      assert SquarePart(area, macro, cells, grid, n, b, c, Passed(cell, grid, b, c, j, i));
      assert Passed(cell, grid, b, c, j, i) == Passed(cell, grid, b, c, next, First(cell.x, grid));
    }
  }

  /** The macros among one more cell. */
  lemma OneMoreMacro(cells: seq<Cell>, grid: nat, n: nat, j: nat, i: nat)
    requires n < |cells|
    ensures MacroTouches(cells, grid, n + 1, j, i)
            <==> MacroTouches(cells, grid, n, j, i) || (cells[n].block == SRAM && Touches(cells[n], grid, j, i))
  {
  }

  lemma PartEnds(area: map<string, Table>, macro: set<Square>, cells: seq<Cell>, grid: nat, rows: nat, columns: nat,
                 n: nat, j: nat, i: nat)
    requires grid > 0 && n < |cells| && Part(area, macro, cells, grid, rows, columns, n, j, i)
    requires j >= Min(rows, UpTo(cells[n].y + cells[n].h, grid)) && i == First(cells[n].x, grid)
    ensures Done(area, macro, cells, grid, rows, columns, n + 1)
  {
    var cell, more := cells[n], n + 1;
    forall b: nat, c: nat | b < rows && c < columns ensures SquareDone(area, macro, cells, grid, more, b, c) {
      RangeTouches(cell.y, cell.h, grid, b);
      RangeTouches(cell.x, cell.w, grid, c);
      OverlapWhere(cell.y, cell.h, grid, b);
      OverlapWhere(cell.x, cell.w, grid, c);
      OneMoreMacro(cells, grid, n, b, c);
      assert SquarePart(area, macro, cells, grid, n, b, c, Passed(cell, grid, b, c, j, i));
      assert !Touches(cell, grid, b, c) ==> Shared(cell, grid, b, c) == 0;
    }
  }

  function Added(t: Table, j: nat, i: nat, d: nat): (now: Table)
    requires j < |t| && i < |t[j]|
  {
    t[j := t[j][i := t[j][i] + d]]
  }

  lemma AddedIs(t: Table, rows: nat, columns: nat, j: nat, i: nat, d: nat)
    requires Rectangular(t, rows, columns) && j < rows && i < columns
    ensures Rectangular(Added(t, j, i, d), rows, columns)
    ensures forall b: nat, c: nat ::
            Entry(Added(t, j, i, d), b, c) == Entry(t, b, c) + if b == j && c == i then d else 0
  {
  }

  /** Only one entry changes. */
  ghost predicate Grew(t: Table, now: Table, j: nat, i: nat, d: int) {
    forall b: nat, c: nat :: Entry(now, b, c) == Entry(t, b, c) + if b == j && c == i then d else 0
  }

  lemma GrewTwice(t: Table, mid: Table, now: Table, j: nat, i: nat, d: int, e: int)
    requires Grew(t, mid, j, i, d) && Grew(mid, now, j, i, e)
    ensures Grew(t, now, j, i, d + e)
  {
    forall b: nat, c: nat ensures Entry(now, b, c) == Entry(t, b, c) + if b == j && c == i then d + e else 0 {
      assert Entry(mid, b, c) == Entry(t, b, c) + if b == j && c == i then d else 0;
    }
  }

  method AddTo(area: map<string, Table>, rows: nat, columns: nat, name: string, j: nat, i: nat, d: nat)
    returns (now: map<string, Table>)
    requires Tables(area, rows, columns) && name in area && j < rows && i < columns
    ensures Tables(now, rows, columns) && now.Keys == area.Keys
    ensures forall other :: other in area ==> Grew(area[other], now[other], j, i, if other == name then d else 0)
  {
    AddedIs(area[name], rows, columns, j, i, d);
    now := area[name := Added(area[name], j, i, d)];
  }

  /** Square (i, j)'s share of one cell that is no macro. */
  method AddShare(area: map<string, Table>, rows: nat, columns: nat, cell: Cell, grid: nat, j: nat, i: nat)
    returns (now: map<string, Table>)
    requires grid > 0 && Tables(area, rows, columns) && j < rows && i < columns
    requires cell.block != SRAM && Touches(cell, grid, j, i)
    ensures Tables(now, rows, columns)
    ensures forall name :: name in area ==>
            Grew(area[name], now[name], j, i, Weight(cell, name) * Shared(cell, grid, j, i))
  {
    var dx := Min(cell.x + cell.w, (i + 1) * grid) - Max(cell.x, i * grid);
    var dy := Min(cell.y + cell.h, (j + 1) * grid) - Max(cell.y, j * grid);
    OverlapWhere(cell.x, cell.w, grid, i);
    OverlapWhere(cell.y, cell.h, grid, j);
    now := AddBoth(area, rows, columns, cell, j, i, dy * dx);
  }

  lemma WeightSplits(cell: Cell, name: string, d: int)
    requires cell.block != SRAM
    ensures Weight(cell, name) * d == (if name == ALL then d else 0) + if name == cell.block then d else 0
  {
  }

  method AddBoth(area: map<string, Table>, rows: nat, columns: nat, cell: Cell, j: nat, i: nat, d: nat)
    returns (now: map<string, Table>)
    requires Tables(area, rows, columns) && j < rows && i < columns && cell.block != SRAM
    ensures Tables(now, rows, columns)
    ensures forall name :: name in area ==> Grew(area[name], now[name], j, i, Weight(cell, name) * d)
  {
    assert NAMES[|DRAWN|] == ALL;
    var mid := AddTo(area, rows, columns, ALL, j, i, d);
    now := mid;
    if cell.block in mid {
      now := AddTo(mid, rows, columns, cell.block, j, i, d);
    }
    forall name | name in area ensures Grew(area[name], now[name], j, i, Weight(cell, name) * d) {
      var once, more := if name == ALL then d else 0, if name == cell.block then d else 0;
      assert Grew(mid[name], now[name], j, i, more);
      GrewTwice(area[name], mid[name], now[name], j, i, once, more);
      WeightSplits(cell, name, d);
    }
  }

  lemma NextSquare(area: map<string, Table>, macro: set<Square>, cells: seq<Cell>, grid: nat, rows: nat, columns: nat,
                   n: nat,
                   j: nat, i: nat, now: map<string, Table>, macros: set<Square>)
    requires n < |cells| && Part(area, macro, cells, grid, rows, columns, n, j, i) && j < rows && i < columns
    requires Touches(cells[n], grid, j, i) && Tables(now, rows, columns)
    requires macros == if cells[n].block == SRAM then macro + {(i, j)} else macro
    requires forall name :: name in area ==>
             Grew(area[name], now[name], j, i, Weight(cells[n], name) * Shared(cells[n], grid, j, i))
    ensures Part(now, macros, cells, grid, rows, columns, n, j, i + 1)
  {
    var next := i + 1;
    forall b: nat, c: nat | b < rows && c < columns
      ensures SquarePart(now, macros, cells, grid, n, b, c, Passed(cells[n], grid, b, c, j, next))
    {
      assert SquarePart(area, macro, cells, grid, n, b, c, Passed(cells[n], grid, b, c, j, i));
    }
  }

  /** One cell: every square it touches. */
  method AddCell(areaBefore: map<string, Table>, macroBefore: set<Square>, cells: seq<Cell>, n: nat, rows: nat,
                 columns: nat, grid: nat)
    returns (area: map<string, Table>, macro: set<Square>)
    requires grid > 0 && n < |cells| && Done(areaBefore, macroBefore, cells, grid, rows, columns, n)
    ensures Done(area, macro, cells, grid, rows, columns, n + 1)
  {
    area, macro := areaBefore, macroBefore;
    var cell := cells[n];
    var rowEnd := Min(rows, UpTo(cell.y + cell.h, grid));
    var columnEnd := Min(columns, UpTo(cell.x + cell.w, grid));
    var j := First(cell.y, grid);
    PartStarts(area, macro, cells, grid, rows, columns, n);
    while j < rowEnd
      invariant Part(area, macro, cells, grid, rows, columns, n, j, First(cell.x, grid)) && First(cell.y, grid) <= j
    {
      var i := First(cell.x, grid);
      while i < columnEnd
        invariant Part(area, macro, cells, grid, rows, columns, n, j, i) && First(cell.x, grid) <= i
      {
        area, macro := AddSquare(area, macro, cells, n, rows, columns, grid, j, i);
        i := i + 1;
      }
      NextRow(area, macro, cells, grid, rows, columns, n, j, i);
      j := j + 1;
    }
    PartEnds(area, macro, cells, grid, rows, columns, n, j, First(cell.x, grid));
  }

  method AddSquare(area: map<string, Table>, macro: set<Square>, cells: seq<Cell>, n: nat, rows: nat, columns: nat,
                   grid: nat, j: nat, i: nat)
    returns (now: map<string, Table>, macros: set<Square>)
    requires grid > 0 && n < |cells| && Part(area, macro, cells, grid, rows, columns, n, j, i)
    requires First(cells[n].y, grid) <= j < Min(rows, UpTo(cells[n].y + cells[n].h, grid))
    requires First(cells[n].x, grid) <= i < Min(columns, UpTo(cells[n].x + cells[n].w, grid))
    ensures Part(now, macros, cells, grid, rows, columns, n, j, i + 1)
  {
    RangeTouches(cells[n].y, cells[n].h, grid, j);
    RangeTouches(cells[n].x, cells[n].w, grid, i);
    if cells[n].block == SRAM {
      now, macros := area, macro + {(i, j)};
    } else {
      now := AddShare(area, rows, columns, cells[n], grid, j, i);
      macros := macro;
    }
    NextSquare(area, macro, cells, grid, rows, columns, n, j, i, now, macros);
  }

  /** The covers as a table. */
  ghost function CoverTable(cells: seq<Cell>, grid: nat, n: nat, name: string, rows: nat, columns: nat): (t: Table)
    requires n <= |cells|
    ensures Rectangular(t, rows, columns)
    ensures forall j: nat, i: nat :: j < rows && i < columns ==> t[j][i] == Cover(cells, grid, n, name, j, i)
  {
    seq(rows, j requires 0 <= j < rows =>
      seq(columns, i requires 0 <= i < columns => Cover(cells, grid, n, name, j, i)))
  }

  /** No cell covers anything yet. */
  method NoCover(cells: seq<Cell>, grid: nat, rows: nat, columns: nat) returns (area: map<string, Table>)
    ensures Done(area, {}, cells, grid, rows, columns, 0)
  {
    var empty := seq(rows, _ => seq(columns, _ => 0));
    area := map name | name in NAMES :: empty;
    forall j: nat, i: nat | j < rows && i < columns ensures SquareDone(area, {}, cells, grid, 0, j, i) {
      assert empty[j][i] == 0;
    }
  }

  method Covers(cells: seq<Cell>, grid: nat, rows: nat, columns: nat)
    returns (area: map<string, Table>, macro: set<Square>)
    requires grid > 0
    ensures forall name :: name in NAMES ==>
            name in area && area[name] == CoverTable(cells, grid, |cells|, name, rows, columns)
    ensures forall j: nat, i: nat :: j < rows && i < columns ==>
            ((i, j) in macro <==> MacroTouches(cells, grid, |cells|, j, i))
  {
    area := NoCover(cells, grid, rows, columns);
    macro := {};
    for n := 0 to |cells|
      invariant Done(area, macro, cells, grid, rows, columns, n)
    {
      area, macro := AddCell(area, macro, cells, n, rows, columns, grid);
    }
    DoneTables(area, macro, cells, grid, rows, columns);
  }

  lemma DoneTables(area: map<string, Table>, macro: set<Square>, cells: seq<Cell>, grid: nat, rows: nat, columns: nat)
    requires Done(area, macro, cells, grid, rows, columns, |cells|)
    ensures forall name :: name in NAMES ==>
            name in area && area[name] == CoverTable(cells, grid, |cells|, name, rows, columns)
    ensures forall j: nat, i: nat :: j < rows && i < columns ==>
            ((i, j) in macro <==> MacroTouches(cells, grid, |cells|, j, i))
  {
    forall j: nat, i: nat | j < rows && i < columns
      ensures (i, j) in macro <==> MacroTouches(cells, grid, |cells|, j, i)
    {
      assert SquareDone(area, macro, cells, grid, |cells|, j, i);
    }
    forall name | name in NAMES ensures area[name] == CoverTable(cells, grid, |cells|, name, rows, columns) {
      var t := CoverTable(cells, grid, |cells|, name, rows, columns);
      forall j: nat | j < rows ensures area[name][j] == t[j] {
        forall i: nat | i < columns ensures area[name][j][i] == t[j][i] {
          assert SquareDone(area, macro, cells, grid, |cells|, j, i);
          assert Entry(area[name], j, i) == area[name][j][i];
        }
      }
    }
  }

  // whose square it is

  /** The blurred cover of a square by a name: that of the squares of the grid around it. */
  ghost function Around(cells: seq<Cell>, grid: nat, rows: nat, columns: nat, blur: nat, name: string, j: nat,
                        i: nat): int {
    WindowSum(CoverTable(cells, grid, |cells|, name, rows, columns), j - blur, i - blur, j + blur + 1, i + blur + 1)
  }

  ghost predicate BlurredFor(blurred: map<string, Table>, cells: seq<Cell>, grid: nat, rows: nat, columns: nat,
                             blur: nat, name: string) {
    && name in blurred && Rectangular(blurred[name], rows, columns)
    && forall j: nat, i: nat :: j < rows && i < columns ==>
      blurred[name][j][i] == Around(cells, grid, rows, columns, blur, name, j, i)
  }

  /** The drawn block with the most, the first of them where several have as much. */
  ghost predicate IsBest(cells: seq<Cell>, grid: nat, rows: nat, columns: nat, blur: nat, j: nat, i: nat, k: nat)
    requires k < |DRAWN|
  {
    forall m: nat :: m < |DRAWN| ==>
                       Beaten(Around(cells, grid, rows, columns, blur, DRAWN[m], j, i), m,
                              Around(cells, grid, rows, columns, blur, DRAWN[k], j, i), k)
  }

  predicate Beaten(other: int, m: nat, most: int, k: nat) {
    other <= most && (m < k ==> other < most)
  }

  /** Squares a macro touches, squares covered too little and squares no drawn block covers belong
      to none; the others to the best. */
  ghost predicate Belongs(cells: seq<Cell>, grid: nat, rows: nat, columns: nat, blur: nat, cover: real, j: nat,
                          i: nat, owner: Option<string>) {
    && (owner == None <==>
        || MacroTouches(cells, grid, |cells|, j, i)
        || Around(cells, grid, rows, columns, blur, ALL, j, i) as real
          < cover * (grid * grid * ((2 * blur + 1) * (2 * blur + 1))) as real
        || forall m: nat :: m < |DRAWN| ==> Around(cells, grid, rows, columns, blur, DRAWN[m], j, i) <= 0)
    && (owner.Some? ==> exists k: nat ::
        k < |DRAWN| && owner.value == DRAWN[k] && IsBest(cells, grid, rows, columns, blur, j, i, k))
  }

  /** max over the drawn blocks' blurred covers. */
  method Best(blurred: map<string, Table>, ghost cells: seq<Cell>, grid: nat, ghost rows: nat, ghost columns: nat,
              blur: nat, j: nat, i: nat) returns (k: nat)
    requires j < rows && i < columns
    requires forall name :: name in NAMES ==> BlurredFor(blurred, cells, grid, rows, columns, blur, name)
    ensures k < |DRAWN| && IsBest(cells, grid, rows, columns, blur, j, i, k)
  {
    k := 0;
    for n := 1 to |DRAWN|
      invariant k < n
      invariant forall m: nat :: m < n ==>
                  Beaten(Around(cells, grid, rows, columns, blur, DRAWN[m], j, i), m,
                         Around(cells, grid, rows, columns, blur, DRAWN[k], j, i), k)
    {
      assert DRAWN[n] == NAMES[n] && DRAWN[k] == NAMES[k];
      assert BlurredFor(blurred, cells, grid, rows, columns, blur, NAMES[n])
             && BlurredFor(blurred, cells, grid, rows, columns, blur, NAMES[k]);
      if blurred[DRAWN[n]][j][i] > blurred[DRAWN[k]][j][i] {
        k := n;
      }
    }
  }

  ghost predicate IsRaster(die: (nat, nat), cells: seq<Cell>, grid: nat, blur: nat, cover: real,
                           labels: seq<seq<Option<string>>>)
    requires grid > 0
  {
    && |labels| == UpTo(die.1, grid) && (forall j :: 0 <= j < |labels| ==> |labels[j]| == UpTo(die.0, grid))
    && forall j, i :: 0 <= j < |labels| && 0 <= i < |labels[j]| ==>
                        Belongs(cells, grid, |labels|, |labels[j]|, blur, cover, j, i, labels[j][i])
  }

  lemma BelongsToOne(cells: seq<Cell>, grid: nat, rows: nat, columns: nat, blur: nat, cover: real, j: nat, i: nat,
                     a: Option<string>, b: Option<string>)
    requires Belongs(cells, grid, rows, columns, blur, cover, j, i, a)
             && Belongs(cells, grid, rows, columns, blur, cover, j, i, b)
    ensures a == b
  {
    if a.Some? && b.Some? {
      var k: nat :| k < |DRAWN| && a.value == DRAWN[k] && IsBest(cells, grid, rows, columns, blur, j, i, k);
      var m: nat :| m < |DRAWN| && b.value == DRAWN[m] && IsBest(cells, grid, rows, columns, blur, j, i, m);
      BestIsOne(cells, grid, rows, columns, blur, j, i, k, m);
    }
  }

  lemma BestIsOne(cells: seq<Cell>, grid: nat, rows: nat, columns: nat, blur: nat, j: nat, i: nat, k: nat, m: nat)
    requires k < |DRAWN| && IsBest(cells, grid, rows, columns, blur, j, i, k)
    requires m < |DRAWN| && IsBest(cells, grid, rows, columns, blur, j, i, m)
    ensures k == m
  {
    var a, b := Around(cells, grid, rows, columns, blur, DRAWN[k], j, i),
      Around(cells, grid, rows, columns, blur, DRAWN[m], j, i);
    assert Beaten(a, k, b, m) && Beaten(b, m, a, k);
  }

  /** Every square's label is determined by the cells. */
  lemma RasterIsOne(die: (nat, nat), cells: seq<Cell>, grid: nat, blur: nat, cover: real, a: seq<seq<Option<string>>>,
                    b: seq<seq<Option<string>>>)
    requires grid > 0 && IsRaster(die, cells, grid, blur, cover, a) && IsRaster(die, cells, grid, blur, cover, b)
    ensures a == b
  {
    forall j | 0 <= j < |a| ensures a[j] == b[j] {
      forall i | 0 <= i < |a[j]| ensures a[j][i] == b[j][i] {
        BelongsToOne(cells, grid, |a|, |a[j]|, blur, cover, j, i, a[j][i], b[j][i]);
      }
    }
  }

  /** The block of each square of the die, row by row. */
  method Rasterise(die: (nat, nat), cells: seq<Cell>, grid: nat, blur: nat, cover: real)
    returns (labels: seq<seq<Option<string>>>)
    requires grid > 0 && die.1 > 0
    ensures labels != [] && IsRaster(die, cells, grid, blur, cover, labels)
  {
    var columns, rows := UpTo(die.0, grid), UpTo(die.1, grid);
    UpToIs(die.1, grid, 0);
    var area, macro := Covers(cells, grid, rows, columns);
    var blurred := BlurAll(area, cells, grid, rows, columns, blur);
    labels := [];
    for j := 0 to rows
      invariant |labels| == j && forall b :: 0 <= b < j ==> |labels[b]| == columns
      invariant forall b, i :: 0 <= b < j && 0 <= i < columns ==>
                  Belongs(cells, grid, rows, columns, blur, cover, b, i, labels[b][i])
    {
      var row: seq<Option<string>> := [];
      for i := 0 to columns
        invariant |row| == i
        invariant forall c :: 0 <= c < i ==> Belongs(cells, grid, rows, columns, blur, cover, j, c, row[c])
      {
        var owner := LabelSquare(blurred, macro, cells, grid, rows, columns, blur, cover, j, i);
        row := row + [owner];
      }
      labels := labels + [row];
    }
  }

  method LabelSquare(blurred: map<string, Table>, macro: set<Square>, ghost cells: seq<Cell>, grid: nat,
                     ghost rows: nat, ghost columns: nat,
                     blur: nat, cover: real, j: nat, i: nat) returns (owner: Option<string>)
    requires j < rows && i < columns
    requires forall name :: name in NAMES ==> BlurredFor(blurred, cells, grid, rows, columns, blur, name)
    requires (i, j) in macro <==> MacroTouches(cells, grid, |cells|, j, i)
    ensures Belongs(cells, grid, rows, columns, blur, cover, j, i, owner)
  {
    assert NAMES[|DRAWN|] == ALL;
    assert BlurredFor(blurred, cells, grid, rows, columns, blur, ALL);
    if (i, j) in macro || blurred[ALL][j][i] as real
        < cover * (grid * grid * ((2 * blur + 1) * (2 * blur + 1))) as real {
      return None;
    }
    var k := Best(blurred, cells, grid, rows, columns, blur, j, i);
    assert DRAWN[k] == NAMES[k];
    assert BlurredFor(blurred, cells, grid, rows, columns, blur, NAMES[k]);
    if blurred[DRAWN[k]][j][i] > 0 {
      owner := Some(DRAWN[k]);
    } else {
      owner := None;
      forall m: nat | m < |DRAWN| ensures Around(cells, grid, rows, columns, blur, DRAWN[m], j, i) <= 0 {
        assert Beaten(Around(cells, grid, rows, columns, blur, DRAWN[m], j, i), m,
                      Around(cells, grid, rows, columns, blur, DRAWN[k], j, i), k);
      }
    }
  }

  method BlurAll(area: map<string, Table>, ghost cells: seq<Cell>, ghost grid: nat, rows: nat, columns: nat, blur: nat)
    returns (blurred: map<string, Table>)
    requires rows > 0
    requires forall name :: name in NAMES ==>
             name in area && area[name] == CoverTable(cells, grid, |cells|, name, rows, columns)
    ensures forall name :: name in NAMES ==> BlurredFor(blurred, cells, grid, rows, columns, blur, name)
  {
    blurred := map[];
    for n := 0 to |NAMES|
      invariant forall m :: 0 <= m < n ==> BlurredFor(blurred, cells, grid, rows, columns, blur, NAMES[m])
    {
      ghost var before := blurred;
      var t := BoxBlur(area[NAMES[n]], blur);
      forall j: nat, i: nat | j < rows && i < columns
        ensures t[j][i] == Around(cells, grid, rows, columns, blur, NAMES[n], j, i)
      {
        assert Blurred(area[NAMES[n]], t, blur, j, i);
      }
      blurred := blurred[NAMES[n] := t];
      forall m | 0 <= m < n + 1 ensures BlurredFor(blurred, cells, grid, rows, columns, blur, NAMES[m]) {
        assert m < n ==> BlurredFor(before, cells, grid, rows, columns, blur, NAMES[m]);
      }
    }
  }

  // the whole cover

  /** The areas of the cells that count for a name. */
  function Areas(cells: seq<Cell>, n: nat, name: string): nat
    requires n <= |cells|
  {
    if n == 0 then 0 else Areas(cells, n - 1, name) + Weight(cells[n - 1], name) * (cells[n - 1].h * cells[n - 1].w)
  }

  /** Table t is table s and weight times the shares of a cell. */
  ghost predicate Gains(s: Table, t: Table, rows: nat, columns: nat, cell: Cell, weight: nat, grid: nat) {
    && Rectangular(s, rows, columns) && Rectangular(t, rows, columns)
    && forall j: nat, i: nat :: j < rows && i < columns ==> t[j][i] == s[j][i] + weight * Shared(cell, grid, j, i)
  }

  lemma {:induction false} RowGains(s: Table, t: Table, rows: nat, columns: nat, cell: Cell, weight: nat, grid: nat,
                                    j: nat, i: nat)
    requires Gains(s, t, rows, columns, cell, weight, grid) && j < rows && i <= columns
    ensures RowSum(t, j, 0, i)
            == RowSum(s, j, 0, i) + weight * (Overlap(cell.y, cell.h, grid, j) * Along(cell.x, cell.w, grid, i))
  {
    if i > 0 {
      RowGains(s, t, rows, columns, cell, weight, grid, j, i - 1);
      Shares(weight, Along(cell.x, cell.w, grid, i - 1), Overlap(cell.x, cell.w, grid, i - 1),
             Overlap(cell.y, cell.h, grid, j));
    }
  }

  lemma Shares(weight: nat, a: nat, b: nat, c: nat)
    ensures weight * ((a + b) * c) == weight * (a * c) + weight * (b * c)
    ensures weight * (c * (a + b)) == weight * (c * a) + weight * (c * b)
  {
    assert (a + b) * c == a * c + b * c;
    assert c * (a + b) == c * a + c * b;
  }

  lemma {:induction false} WindowGains(s: Table, t: Table, rows: nat, columns: nat, cell: Cell, weight: nat,
                                       grid: nat, j: nat)
    requires Gains(s, t, rows, columns, cell, weight, grid) && j <= rows
    ensures WindowSum(t, 0, 0, j, columns)
            == WindowSum(s, 0, 0, j, columns)
              + weight * (Along(cell.y, cell.h, grid, j) * Along(cell.x, cell.w, grid, columns))
  {
    if j > 0 {
      WindowGains(s, t, rows, columns, cell, weight, grid, j - 1);
      RowGains(s, t, rows, columns, cell, weight, grid, j - 1, columns);
      Shares(weight, Along(cell.y, cell.h, grid, j - 1), Overlap(cell.y, cell.h, grid, j - 1),
             Along(cell.x, cell.w, grid, columns));
    }
  }

  lemma CoverGains(cells: seq<Cell>, grid: nat, n: nat, name: string, rows: nat, columns: nat)
    requires 0 < n <= |cells|
    ensures var cell := cells[n - 1];
      WindowSum(CoverTable(cells, grid, n, name, rows, columns), 0, 0, rows, columns)
      == WindowSum(CoverTable(cells, grid, n - 1, name, rows, columns), 0, 0, rows, columns)
         + Weight(cell, name) * (Along(cell.y, cell.h, grid, rows) * Along(cell.x, cell.w, grid, columns))
  {
    var s, t := CoverTable(cells, grid, n - 1, name, rows, columns), CoverTable(cells, grid, n, name, rows, columns);
    assert Gains(s, t, rows, columns, cells[n - 1], Weight(cells[n - 1], name), grid);
    WindowGains(s, t, rows, columns, cells[n - 1], Weight(cells[n - 1], name), grid, rows);
  }

  ghost predicate Inside(die: (nat, nat), cell: Cell) {
    cell.x + cell.w <= die.0 && cell.y + cell.h <= die.1
  }

  lemma AlongWhole(end: nat, x: nat, w: nat, grid: nat)
    requires grid > 0 && x + w <= end
    ensures Along(x, w, grid, UpTo(end, grid)) == w
  {
    AlongIs(x, w, grid, UpTo(end, grid));
    UpToIs(end, grid, UpTo(end, grid));
  }

  /** Nothing is lost: the covers of all the squares are the areas of the cells, each cell inside
      the die shared out without rest. */
  lemma {:induction false} CoverConserved(die: (nat, nat), cells: seq<Cell>, grid: nat, n: nat, name: string)
    requires grid > 0 && n <= |cells|
    requires forall k :: 0 <= k < n && cells[k].block != SRAM ==> Inside(die, cells[k])
    ensures var rows, columns := UpTo(die.1, grid), UpTo(die.0, grid);
      WindowSum(CoverTable(cells, grid, n, name, rows, columns), 0, 0, rows, columns) == Areas(cells, n, name)
  {
    var rows, columns := UpTo(die.1, grid), UpTo(die.0, grid);
    if n == 0 {
      NothingThere(CoverTable(cells, grid, 0, name, rows, columns), rows, columns, rows);
    } else {
      CoverConserved(die, cells, grid, n - 1, name);
      CoverGains(cells, grid, n, name, rows, columns);
      var cell := cells[n - 1];
      if cell.block != SRAM {
        AlongWhole(die.0, cell.x, cell.w, grid);
        AlongWhole(die.1, cell.y, cell.h, grid);
      }
    }
  }

  lemma {:induction false} NothingThere(t: Table, rows: nat, columns: nat, j: nat)
    requires Rectangular(t, rows, columns) && j <= rows
             && forall b, c :: 0 <= b < rows && 0 <= c < columns ==> t[b][c] == 0
    ensures WindowSum(t, 0, 0, j, columns) == 0
  {
    if j > 0 {
      NothingThere(t, rows, columns, j - 1);
      NothingInRow(t, rows, columns, j - 1, columns);
    }
  }

  lemma {:induction false} NothingInRow(t: Table, rows: nat, columns: nat, j: nat, i: nat)
    requires Rectangular(t, rows, columns) && j < rows && i <= columns
             && forall b, c :: 0 <= b < rows && 0 <= c < columns ==> t[b][c] == 0
    ensures RowSum(t, j, 0, i) == 0
  {
    if i > 0 { NothingInRow(t, rows, columns, j, i - 1); }
  }
}
