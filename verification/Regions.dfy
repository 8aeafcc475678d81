/** `regions` of demo/outline.py: the tile, the macros, and each drawn block's traces, from the
    cells of the die. */
module Regions {
  import opened Wrappers
  import opened Squares
  import opened Polyline
  import opened Area
  import opened Pieces
  import opened Enclosure
  import opened Rings
  import opened Outlines
  import opened PenPath
  import Tracing = Trace
  import opened Listing
  import Ordering
  import Raster

  // one block

  lemma {:induction false} LargeAreParts(parts: seq<set<Point>>, piece: real, n: nat)
    requires n <= |parts|
    ensures forall part :: part in Large(parts, piece, n) ==> part in parts
  {
    if n > 0 { LargeAreParts(parts, piece, n - 1); }
  }

  method TracePiece(ghost region: set<Point>, ghost part: set<Point>, filled: set<Point>) returns (ring: seq<Point>)
    requires IsPiece(region, part) && IsFilled(part, filled)
    ensures filled != {} && ring == Ring(filled) && Encloses(ring, filled)
  {
    PieceTraced(region, part, filled);
    ring := Tracing.Trace(filled);
  }

  ghost predicate AllEnclose(rings: seq<seq<Point>>, pieces: seq<set<Point>>) {
    |rings| == |pieces| && forall k :: 0 <= k < |rings| ==> Encloses(rings[k], pieces[k])
  }

  lemma OneMoreEncloses(rings: seq<seq<Point>>, pieces: seq<set<Point>>, ring: seq<Point>, piece: set<Point>)
    requires AllEnclose(rings, pieces) && Encloses(ring, piece)
    ensures AllEnclose(rings + [ring], pieces + [piece])
  {
  }

  /** Filled pieces of a region, one for each of these parts. */
  ghost predicate ArePieces(region: set<Point>, parts: seq<set<Point>>, filled: seq<set<Point>>) {
    |parts| == |filled| && forall k :: 0 <= k < |parts| ==> IsPiece(region, parts[k]) && IsFilled(parts[k], filled[k])
  }

  lemma LargeArePieces(region: set<Point>, parts: seq<set<Point>>, piece: real, filled: seq<set<Point>>)
    requires Components(region, parts) && FilledParts(Large(parts, piece, |parts|), filled)
    ensures ArePieces(region, Large(parts, piece, |parts|), filled)
  {
    var large := Large(parts, piece, |parts|);
    LargeAreParts(parts, piece, |parts|);
    forall k | 0 <= k < |large| ensures IsPiece(region, large[k]) {
      assert large[k] in large;
    }
  }

  method TraceAll(ghost region: set<Point>, ghost parts: seq<set<Point>>, filled: seq<set<Point>>)
    returns (rings: seq<seq<Point>>)
    requires ArePieces(region, parts, filled)
    ensures AllEnclose(rings, filled)
  {
    rings := [];
    for k := 0 to |filled|
      invariant AllEnclose(rings, filled[..k])
    {
      var ring := TracePiece(region, parts[k], filled[k]);
      OneMoreEncloses(rings, filled[..k], ring, filled[k]);
      OnePieceMore(filled, k);
      rings := rings + [ring];
    }
    assert filled[..|filled|] == filled;
  }

  lemma OnePieceMore(filled: seq<set<Point>>, k: nat)
    requires k < |filled|
    ensures filled[..k + 1] == filled[..k] + [filled[k]]
  {
  }

  /** The traces of a block: one for each of its large components, which encloses the component's
      squares and those in its holes, and nothing else. */
  method BlockRings<L(==)>(labels: Labels<L>, name: L, piece: real)
    returns (rings: seq<seq<Point>>, ghost parts: seq<set<Point>>, ghost pieces: seq<set<Point>>)
    ensures LargeFilled(Region(labels, name), parts, piece, pieces)
    ensures AllEnclose(rings, pieces)
    ensures exists filled :: AllEnclose(rings, filled) && PiecesOf(Region(labels, name), piece, filled)
  {
    var found;
    found, parts := FindPieces(labels, name, piece);
    pieces := found;
    assert LargeFilled(Region(labels, name), parts, piece, found);
    LargeArePieces(Region(labels, name), parts, piece, found);
    rings := TraceAll(Region(labels, name), Large(parts, piece, |parts|), found);
  }

  // all of them

  /** The square's side, the blur's radius, the cover that makes a square a block's, and the least
      share of the largest piece that is drawn. */
  datatype Settings = Settings(grid: nat, blur: nat, cover: real, piece: real)

  type Owners = Labels<Option<string>>

  /** The macros among the first n cells. */
  function Macros(cells: seq<Raster.Cell>, n: nat): seq<Raster.Cell>
    requires n <= |cells|
  {
    if n == 0 then []
    else Macros(cells, n - 1) + if cells[n - 1].block == SRAM then [cells[n - 1]] else []
  }

  function MacroKey(cell: Raster.Cell): Ordering.Key {
    [[cell.x, cell.y, cell.w, cell.h]]
  }

  function Tile(die: (nat, nat)): Outline {
    Outline(TILE, Rectangle(0.0, 0.0, die.0 as real, die.1 as real))
  }

  function MacroOutline(cell: Raster.Cell): Outline {
    Outline(SRAM, Rectangle(cell.x as real, cell.y as real, cell.w as real, cell.h as real))
  }

  function MacroOutlines(macros: seq<Raster.Cell>): (found: seq<Outline>)
    ensures |found| == |macros|
  {
    seq(|macros|, i requires 0 <= i < |macros| => MacroOutline(macros[i]))
  }

  function Named(name: string, rings: seq<seq<Point>>, grid: real): (found: seq<Outline>)
    ensures |found| == |rings|
  {
    seq(|rings|, i requires 0 <= i < |rings| => Outline(name, InSteps(rings[i], grid)))
  }

  /** Rings that enclose exactly the region's pieces. */
  ghost predicate TracesOf(region: set<Point>, piece: real, rings: seq<seq<Point>>) {
    exists pieces :: PiecesOf(region, piece, pieces) && AllEnclose(rings, pieces)
  }

  /** The regions of the drawn blocks. */
  function RegionsOf(labels: Owners): (regions: seq<set<Point>>)
    ensures |regions| == BLOCKS
  {
    seq(BLOCKS, k requires 0 <= k < BLOCKS => Region(labels, Some(Raster.DRAWN[k])))
  }

  /** Rings that enclose exactly the block's pieces. */
  ghost predicate Traces(labels: Owners, name: string, piece: real, rings: seq<seq<Point>>) {
    TracesOf(Region(labels, Some(name)), piece, rings)
  }

  ghost predicate AllTraced(names: seq<string>, labels: Owners, piece: real, n: nat, blocks: seq<seq<seq<Point>>>)
    requires n <= |names|
  {
    |blocks| == n && forall k :: 0 <= k < n ==> Traces(labels, names[k], piece, blocks[k])
  }

  function AllNamed(names: seq<string>, blocks: seq<seq<seq<Point>>>, grid: real, n: nat): seq<Outline>
    requires n <= |blocks| && n <= |names|
  {
    if n == 0 then [] else AllNamed(names, blocks, grid, n - 1) + Named(names[n - 1], blocks[n - 1], grid)
  }

  const BLOCKS: nat := |Raster.DRAWN|

  /** The tile, the macros in order, then the traces of the drawn blocks. */
  ghost predicate Joined(die: (nat, nat), cells: seq<Raster.Cell>, s: Settings, labels: Owners,
                         macros: seq<Raster.Cell>,
                         blocks: seq<seq<seq<Point>>>, found: seq<Outline>)
    requires s.grid > 0
  {
    && Raster.IsRaster(die, cells, s.grid, s.blur, s.cover, labels)
    && Ordering.IsSorted(MacroKey, Macros(cells, |cells|), macros)
    && AllTraced(Raster.DRAWN, labels, s.piece, BLOCKS, blocks)
    && found == [Tile(die)] + MacroOutlines(macros) + AllNamed(Raster.DRAWN, blocks, s.grid as real, BLOCKS)
  }

  ghost predicate IsRegions(die: (nat, nat), cells: seq<Raster.Cell>, s: Settings, found: seq<Outline>)
    requires s.grid > 0
  {
    exists labels: Owners, macros, blocks :: Joined(die, cells, s, labels, macros, blocks, found)
  }

  // what the outlines show

  /** The rectangle's corners, counterclockwise from (x, y). */
  ghost predicate IsBox(ring: seq<Vertex>, x: nat, y: nat, w: nat, h: nat) {
    && |ring| == 4
    && ring[0].x == ring[3].x == x as real && ring[1].x == ring[2].x == (x + w) as real
    && ring[0].y == ring[1].y == y as real && ring[2].y == ring[3].y == (y + h) as real
  }

  /** Each corner at so many times its squares. */
  ghost predicate InStepsOf(steps: seq<Vertex>, ring: seq<Point>, grid: nat) {
    && |steps| == |ring|
    && forall i :: 0 <= i < |ring| ==>
         steps[i].x == (grid * ring[i].x) as real && steps[i].y == (grid * ring[i].y) as real
  }

  function SideCross(p: Vertex, q: Vertex): real {
    p.x * q.y - q.x * p.y
  }

  /** The cross products of the first n sides. */
  function CrossSum(ring: seq<Vertex>, n: nat): real
    requires n <= |ring|
  {
    if n == 0 then 0.0
    else CrossSum(ring, n - 1) + SideCross(ring[n - 1], ring[if n < |ring| then n else 0])
  }

  /** The outline is that of the part with what it encloses: it goes along the boundary of exactly
      these squares, and has their area. */
  ghost predicate ShowsPart(o: Outline, region: set<Point>, s: Settings, part: set<Point>) {
    && IsPiece(region, part) && HasShare(region, part, s.piece)
    && exists ring, filled :: ShowsFilled(o, s, part, ring, filled)
  }

  ghost predicate ShowsFilled(o: Outline, s: Settings, part: set<Point>, ring: seq<Point>, filled: set<Point>) {
    && IsFilled(part, filled) && Encloses(ring, filled) && InStepsOf(o.ring, ring, s.grid)
    && CrossSum(o.ring, |o.ring|) == 2.0 * (s.grid * s.grid * |filled|) as real
  }

  /** In order of place and size, each coordinate in turn. */
  predicate BoxBefore(a: Raster.Cell, b: Raster.Cell) {
    || a.x < b.x
    || (a.x == b.x && (a.y < b.y || (a.y == b.y && (a.w < b.w || (a.w == b.w && a.h <= b.h)))))
  }

  /** These are the macros, in order. */
  ghost predicate AreMacros(cells: seq<Raster.Cell>, macros: seq<Raster.Cell>) {
    && (forall c: Raster.Cell :: multiset(macros)[c] == if c.block == SRAM then multiset(cells)[c] else 0)
    && forall i, j :: 0 <= i < j < |macros| ==> BoxBefore(macros[i], macros[j])
  }

  type Shower = (Outline, nat, set<Point>) -> bool

  /** The outline has block k's name and shows this part of it. */
  ghost function Showing(names: seq<string>, regions: seq<set<Point>>, s: Settings): Shower {
    (o: Outline, k: nat, part: set<Point>) =>
      k < |names| && k < |regions| && o.name == names[k] && ShowsPart(o, regions[k], s, part)
  }

  /** A part of block k that is drawn. */
  ghost function Drawing(regions: seq<set<Point>>, s: Settings): (nat, set<Point>) -> bool {
    (k: nat, part: set<Point>) => k < |regions| && IsPiece(regions[k], part) && HasShare(regions[k], part, s.piece)
  }

  ghost function Larger(): (set<Point>, set<Point>) -> bool {
    (a: set<Point>, b: set<Point>) => a != b && GoesBefore(a, b)
  }

  /** First the tile, then the macros. */
  ghost predicate ShowsBoxes(die: (nat, nat), macros: seq<Raster.Cell>, found: seq<Outline>) {
    && |found| > |macros|
    && found[0].name == TILE && IsBox(found[0].ring, 0, 0, die.0, die.1)
    && forall i :: 0 <= i < |macros| ==>
         found[1 + i].name == SRAM && IsBox(found[1 + i].ring, macros[i].x, macros[i].y, macros[i].w, macros[i].h)
  }

  /** The tile, then the macros, then the blocks. */
  ghost predicate Shows(die: (nat, nat), cells: seq<Raster.Cell>, s: Settings, labels: Owners,
                        macros: seq<Raster.Cell>, which: seq<nat>, parts: seq<set<Point>>, found: seq<Outline>)
    requires s.grid > 0
  {
    && Raster.IsRaster(die, cells, s.grid, s.blur, s.cover, labels) && AreMacros(cells, macros)
    && ShowsBoxes(die, macros, found)
    && Lists(Showing(Raster.DRAWN, RegionsOf(labels), s), Larger(), Drawing(RegionsOf(labels), s), BLOCKS,
             found[1 + |macros|..], which, parts)
  }

  ghost predicate ShowDie(die: (nat, nat), cells: seq<Raster.Cell>, s: Settings, found: seq<Outline>)
    requires s.grid > 0
  {
    exists labels: Owners, macros, which, parts :: Shows(die, cells, s, labels, macros, which, parts, found)
  }

  lemma SideInSteps(v: Vertex, w: Vertex, grid: nat, p: Point, q: Point)
    requires v == Vertex((grid * p.x) as real, (grid * p.y) as real)
    requires w == Vertex((grid * q.x) as real, (grid * q.y) as real)
    ensures SideCross(v, w) == (grid * grid * Cross(p, q)) as real
  {
    var x, y, u, z := grid * p.x, grid * p.y, grid * q.x, grid * q.y;
    assert x * z == grid * grid * (p.x * q.y) && u * y == grid * grid * (q.x * p.y);
    assert x as real * z as real == (x * z) as real && u as real * y as real == (u * y) as real;
  }

  lemma {:induction false} CrossInSteps(steps: seq<Vertex>, ring: seq<Point>, grid: nat, n: nat)
    requires InStepsOf(steps, ring, grid) && n < |ring|
    ensures CrossSum(steps, n) == (grid * grid * OpenSum(Cross, ring[..n + 1])) as real
  {
    if n > 0 {
      CrossInSteps(steps, ring, grid, n - 1);
      SideInSteps(steps[n - 1], steps[n], grid, ring[n - 1], ring[n]);
      assert ring[..n + 1][..n] == ring[..n];
      Factored(grid * grid, OpenSum(Cross, ring[..n]), Cross(ring[n - 1], ring[n]));
    }
  }

  lemma Factored(g: int, a: int, b: int)
    ensures (g * a) as real + (g * b) as real == (g * (a + b)) as real
  {
    assert g * a + g * b == g * (a + b);
  }

  lemma WholeCross(steps: seq<Vertex>, ring: seq<Point>, grid: nat)
    requires InStepsOf(steps, ring, grid) && ring != []
    ensures CrossSum(steps, |steps|) == (grid * grid * RingSum(ring)) as real
  {
    var n := |ring| - 1;
    CrossInSteps(steps, ring, grid, n);
    LastSide(steps, ring, grid);
    assert ring[..n + 1] == ring;
    Factored(grid * grid, OpenSum(Cross, ring), Cross(ring[n], ring[0]));
  }

  lemma LastSide(steps: seq<Vertex>, ring: seq<Point>, grid: nat)
    requires InStepsOf(steps, ring, grid) && ring != []
    ensures CrossSum(steps, |steps|)
            == CrossSum(steps, |ring| - 1) + (grid * grid * Cross(ring[|ring| - 1], ring[0])) as real
  {
    SideInSteps(steps[|ring| - 1], steps[0], grid, ring[|ring| - 1], ring[0]);
  }

  lemma AreaInSteps(grid: nat, size: nat)
    ensures (grid * grid * (2 * size)) as real == 2.0 * (grid * grid * size) as real
  {
    assert grid * grid * (2 * size) == 2 * (grid * grid * size);
  }

  lemma TraceShows(name: string, s: Settings, region: set<Point>, part: set<Point>, ring: seq<Point>,
                   filled: set<Point>)
    requires IsPiece(region, part) && HasShare(region, part, s.piece) && IsFilled(part, filled)
             && Encloses(ring, filled)
    ensures ShowsPart(Outline(name, InSteps(ring, s.grid as real)), region, s, part)
  {
    var o := Outline(name, InSteps(ring, s.grid as real));
    InStepsIs(ring, s.grid);
    EmptyRing();
    assert ring != [];
    WholeCross(o.ring, ring, s.grid);
    AreaInSteps(s.grid, |filled|);
    assert ShowsFilled(o, s, part, ring, filled);
  }

  lemma EmptyRing()
    ensures RingSum([]) == 0
  {
  }

  lemma InStepsIs(ring: seq<Point>, grid: nat)
    ensures InStepsOf(InSteps(ring, grid as real), ring, grid)
  {
    forall i | 0 <= i < |ring|
      ensures InSteps(ring, grid as real)[i] == Vertex((grid * ring[i].x) as real, (grid * ring[i].y) as real)
    {
      assert ring[i].x as real * grid as real == (grid * ring[i].x) as real;
      assert ring[i].y as real * grid as real == (grid * ring[i].y) as real;
    }
  }

  /** The outlines of one block show its parts, those drawn and no others. */
  lemma BlockShows(names: seq<string>, regions: seq<set<Point>>, s: Settings, k: nat, rings: seq<seq<Point>>,
                   shows: Shower, drawn: (nat, set<Point>) -> bool) returns (parts: seq<set<Point>>)
    requires k < |names| && k < |regions| && TracesOf(regions[k], s.piece, rings)
    requires shows == Showing(names, regions, s) && drawn == Drawing(regions, s)
    ensures ListsOne(shows, Larger(), drawn, k, Named(names[k], rings, s.grid as real), parts)
  {
    var pieces :| PiecesOf(regions[k], s.piece, pieces) && AllEnclose(rings, pieces);
    var all :| LargeFilled(regions[k], all, s.piece, pieces);
    parts := Large(all, s.piece, |all|);
    LargeIsShare(regions[k], all, s.piece);
    var outlines := Named(names[k], rings, s.grid as real);
    PartsStand(names, regions, s, k, rings, pieces, parts, outlines, shows);
    PartsBelong(regions, s, k, parts, drawn);
  }

  lemma PartsStand(names: seq<string>, regions: seq<set<Point>>, s: Settings, k: nat, rings: seq<seq<Point>>,
                   pieces: seq<set<Point>>, parts: seq<set<Point>>, outlines: seq<Outline>, shows: Shower)
    requires k < |names| && k < |regions| && shows == Showing(names, regions, s)
    requires HaveShare(regions[k], s.piece, parts) && FilledParts(parts, pieces) && AllEnclose(rings, pieces)
    requires outlines == Named(names[k], rings, s.grid as real)
    ensures forall i :: 0 <= i < |outlines| ==> shows(outlines[i], k, parts[i])
  {
    forall i | 0 <= i < |parts| ensures shows(outlines[i], k, parts[i]) {
      PartStands(names, regions, s, k, rings, pieces, parts, i, shows);
    }
  }

  lemma PartStands(names: seq<string>, regions: seq<set<Point>>, s: Settings, k: nat, rings: seq<seq<Point>>,
                   pieces: seq<set<Point>>, parts: seq<set<Point>>, i: nat, shows: Shower)
    requires k < |names| && k < |regions| && shows == Showing(names, regions, s)
    requires HaveShare(regions[k], s.piece, parts) && FilledParts(parts, pieces) && AllEnclose(rings, pieces)
    requires i < |parts|
    ensures shows(Outline(names[k], InSteps(rings[i], s.grid as real)), k, parts[i])
  {
    PartShows(regions[k], s, parts, pieces, rings, i, names[k]);
  }

  lemma PartsBelong(regions: seq<set<Point>>, s: Settings, k: nat, parts: seq<set<Point>>,
                    drawn: (nat, set<Point>) -> bool)
    requires k < |regions| && drawn == Drawing(regions, s) && HaveShare(regions[k], s.piece, parts)
    ensures forall part :: drawn(k, part) ==> part in parts
    ensures forall i, j :: 0 <= i < j < |parts| ==> Larger()(parts[i], parts[j])
  {
  }

  lemma PartShows(region: set<Point>, s: Settings, parts: seq<set<Point>>, pieces: seq<set<Point>>,
                  rings: seq<seq<Point>>, i: nat, name: string)
    requires HaveShare(region, s.piece, parts) && FilledParts(parts, pieces) && AllEnclose(rings, pieces) && i < |parts|
    ensures ShowsPart(Outline(name, InSteps(rings[i], s.grid as real)), region, s, parts[i])
  {
    assert parts[i] in parts;
    TraceShows(name, s, region, parts[i], rings[i], pieces[i]);
  }

  /** What each block's outlines show. */
  ghost predicate EachBlockShows(names: seq<string>, s: Settings, blocks: seq<seq<seq<Point>>>, shows: Shower,
                                 drawn: (nat, set<Point>) -> bool, n: nat, parts: seq<seq<set<Point>>>)
    requires n <= |names| && n <= |blocks|
  {
    && |parts| == n
    && forall k: nat :: k < n ==>
         ListsOne(shows, Larger(), drawn, k, Named(names[k], blocks[k], s.grid as real), parts[k])
  }

  lemma {:induction false} AllShow(names: seq<string>, regions: seq<set<Point>>, s: Settings,
                                   blocks: seq<seq<seq<Point>>>, n: nat, shows: Shower,
                                     drawn: (nat, set<Point>) -> bool)
    returns (parts: seq<seq<set<Point>>>)
    requires n <= |names| && n <= |regions| && n <= |blocks|
    requires forall k :: 0 <= k < n ==> TracesOf(regions[k], s.piece, blocks[k])
    requires shows == Showing(names, regions, s) && drawn == Drawing(regions, s)
    ensures EachBlockShows(names, s, blocks, shows, drawn, n, parts)
  {
    parts := [];
    if n > 0 {
      var before := AllShow(names, regions, s, blocks, n - 1, shows, drawn);
      var these := BlockShows(names, regions, s, n - 1, blocks[n - 1], shows, drawn);
      OneMoreShows(names, s, blocks, shows, drawn, n - 1, before, these);
      parts := before + [these];
    }
  }

  lemma OneMoreShows(names: seq<string>, s: Settings, blocks: seq<seq<seq<Point>>>, shows: Shower,
                     drawn: (nat, set<Point>) -> bool, k: nat, parts: seq<seq<set<Point>>>, these: seq<set<Point>>)
    requires k < |names| && k < |blocks| && EachBlockShows(names, s, blocks, shows, drawn, k, parts)
    requires ListsOne(shows, Larger(), drawn, k, Named(names[k], blocks[k], s.grid as real), these)
    ensures EachBlockShows(names, s, blocks, shows, drawn, k + 1, parts + [these])
  {
  }

  /** All outlines, block by block. */
  lemma OutlinesShow(names: seq<string>, s: Settings, blocks: seq<seq<seq<Point>>>, shows: Shower,
                     drawn: (nat, set<Point>) -> bool, n: nat, lists: seq<seq<set<Point>>>)
    returns (which: seq<nat>, parts: seq<set<Point>>)
    requires n <= |names| && n <= |blocks| && EachBlockShows(names, s, blocks, shows, drawn, n, lists)
    ensures Lists(shows, Larger(), drawn, n, AllNamed(names, blocks, s.grid as real, n), which, parts)
  {
    var items := seq(n, k requires 0 <= k < n => Named(names[k], blocks[k], s.grid as real));
    FlatIsNamed(names, blocks, s.grid as real, items, n);
    which := ListsAll(shows, Larger(), drawn, n, items, lists);
    parts := Flat(lists, n);
  }

  lemma {:induction false} FlatIsNamed(names: seq<string>, blocks: seq<seq<seq<Point>>>, grid: real,
                                       items: seq<seq<Outline>>, n: nat)
    requires n <= |names| && n <= |blocks| && n <= |items|
    requires forall k :: 0 <= k < n ==> items[k] == Named(names[k], blocks[k], grid)
    ensures Flat(items, n) == AllNamed(names, blocks, grid, n)
  {
    if n > 0 { FlatIsNamed(names, blocks, grid, items, n - 1); }
  }

  lemma {:induction false} MacroCount(cells: seq<Raster.Cell>, n: nat, c: Raster.Cell)
    requires n <= |cells|
    ensures multiset(Macros(cells, n))[c] == if c.block == SRAM then multiset(cells[..n])[c] else 0
  {
    if n > 0 {
      MacroCount(cells, n - 1, c);
      assert cells[..n] == cells[..n - 1] + [cells[n - 1]];
    }
  }

  lemma SortedMacros(cells: seq<Raster.Cell>, macros: seq<Raster.Cell>)
    requires Ordering.IsSorted(MacroKey, Macros(cells, |cells|), macros)
    ensures AreMacros(cells, macros)
  {
    assert cells[..|cells|] == cells;
    forall c: Raster.Cell ensures multiset(macros)[c] == if c.block == SRAM then multiset(cells)[c] else 0 {
      MacroCount(cells, |cells|, c);
    }
    forall i, j | 0 <= i < j < |macros| ensures BoxBefore(macros[i], macros[j]) {
      KeyIsBox(macros[i], macros[j]);
    }
  }

  lemma KeyIsBox(a: Raster.Cell, b: Raster.Cell)
    requires Ordering.NotAfter(MacroKey(a), MacroKey(b))
    ensures BoxBefore(a, b)
  {
    var k, l := MacroKey(a)[0], MacroKey(b)[0];
    assert MacroKey(a)[1..] == [] && MacroKey(b)[1..] == [];
    if k == l {
      assert k[0] == l[0] && k[1] == l[1] && k[2] == l[2] && k[3] == l[3];
    } else {
      FirstDiffers(k, l);
    }
  }

  lemma FirstDiffers(k: seq<int>, l: seq<int>)
    requires |k| == |l| == 4 && Ordering.Lex(k, l)
    ensures || k[0] < l[0]
            || (k[0] == l[0] && (k[1] < l[1] || (k[1] == l[1] && (k[2] < l[2] || (k[2] == l[2] && k[3] <= l[3])))))
  {
    Ordering.LexIs(k, l);
  }

  lemma BoxesShown(die: (nat, nat), macros: seq<Raster.Cell>, rest: seq<Outline>, found: seq<Outline>)
    requires found == [Tile(die)] + MacroOutlines(macros) + rest
    ensures ShowsBoxes(die, macros, found) && found[1 + |macros|..] == rest
  {
    forall i | 0 <= i < |macros|
      ensures found[1 + i].name == SRAM && IsBox(found[1 + i].ring, macros[i].x, macros[i].y, macros[i].w, macros[i].h)
    {
      assert found[1 + i] == MacroOutlines(macros)[i];
      MacroIsBox(macros[i]);
    }
    assert found[0] == Tile(die);
  }

  lemma MacroIsBox(c: Raster.Cell)
    ensures IsBox(MacroOutline(c).ring, c.x, c.y, c.w, c.h)
  {
  }

  lemma ShownSo(die: (nat, nat), cells: seq<Raster.Cell>, s: Settings, labels: Owners, macros: seq<Raster.Cell>,
                which: seq<nat>, parts: seq<set<Point>>, found: seq<Outline>, shows: Shower,
                drawn: (nat, set<Point>) -> bool)
    requires s.grid > 0 && Raster.IsRaster(die, cells, s.grid, s.blur, s.cover, labels) && AreMacros(cells, macros)
    requires ShowsBoxes(die, macros, found)
    requires shows == Showing(Raster.DRAWN, RegionsOf(labels), s) && drawn == Drawing(RegionsOf(labels), s)
    requires Lists(shows, Larger(), drawn, BLOCKS, found[1 + |macros|..], which, parts)
    ensures ShowDie(die, cells, s, found)
  {
    assert Shows(die, cells, s, labels, macros, which, parts, found);
  }

  lemma JoinedShows(die: (nat, nat), cells: seq<Raster.Cell>, s: Settings, labels: Owners, macros: seq<Raster.Cell>,
                    blocks: seq<seq<seq<Point>>>, found: seq<Outline>)
    requires s.grid > 0 && Joined(die, cells, s, labels, macros, blocks, found)
    ensures ShowDie(die, cells, s, found)
  {
    var regions := RegionsOf(labels);
    var shows, drawn := Showing(Raster.DRAWN, regions, s), Drawing(regions, s);
    TracedRegions(labels, s, blocks);
    var lists := AllShow(Raster.DRAWN, regions, s, blocks, BLOCKS, shows, drawn);
    var which, parts := OutlinesShow(Raster.DRAWN, s, blocks, shows, drawn, BLOCKS, lists);
    SortedMacros(cells, macros);
    BoxesShown(die, macros, AllNamed(Raster.DRAWN, blocks, s.grid as real, BLOCKS), found);
    ShownSo(die, cells, s, labels, macros, which, parts, found, shows, drawn);
  }

  lemma TracedRegions(labels: Owners, s: Settings, blocks: seq<seq<seq<Point>>>)
    requires AllTraced(Raster.DRAWN, labels, s.piece, BLOCKS, blocks)
    ensures forall k :: 0 <= k < BLOCKS ==> TracesOf(RegionsOf(labels)[k], s.piece, blocks[k])
  {
    forall k | 0 <= k < BLOCKS ensures TracesOf(RegionsOf(labels)[k], s.piece, blocks[k]) {
      assert Traces(labels, Raster.DRAWN[k], s.piece, blocks[k]);
    }
  }

  /** Whatever the regions of a die are, they show it: the tile, each macro, and each part of a drawn
      block of the share. */
  lemma RegionsShow(die: (nat, nat), cells: seq<Raster.Cell>, s: Settings, found: seq<Outline>)
    requires s.grid > 0 && IsRegions(die, cells, s, found)
    ensures ShowDie(die, cells, s, found)
  {
    var labels: Owners, macros, blocks :| Joined(die, cells, s, labels, macros, blocks, found);
    JoinedShows(die, cells, s, labels, macros, blocks, found);
  }

  method FindMacros(cells: seq<Raster.Cell>) returns (macros: seq<Raster.Cell>)
    ensures Ordering.IsSorted(MacroKey, Macros(cells, |cells|), macros)
  {
    var found := [];
    for n := 0 to |cells|
      invariant found == Macros(cells, n)
    {
      if cells[n].block == SRAM { found := found + [cells[n]]; }
    }
    macros := Ordering.Sort(MacroKey, found);
  }

  method TraceBlocks(labels: Owners, piece: real, grid: real)
    returns (found: seq<Outline>, ghost blocks: seq<seq<seq<Point>>>)
    ensures AllTraced(Raster.DRAWN, labels, piece, BLOCKS, blocks)
            && found == AllNamed(Raster.DRAWN, blocks, grid, BLOCKS)
  {
    found, blocks := [], [];
    for n := 0 to BLOCKS
      invariant AllTraced(Raster.DRAWN, labels, piece, n, blocks) && found == AllNamed(Raster.DRAWN, blocks, grid, n)
    {
      var rings, parts, pieces := BlockRings(labels, Some(Raster.DRAWN[n]), piece);
      assert Traces(labels, Raster.DRAWN[n], piece, rings);
      NamedStay(blocks, rings, grid, n);
      blocks, found := blocks + [rings], found + Named(Raster.DRAWN[n], rings, grid);
    }
  }

  lemma {:induction false} NamedStay(blocks: seq<seq<seq<Point>>>, rings: seq<seq<Point>>, grid: real, n: nat)
    requires n <= |blocks| && n <= BLOCKS
    ensures AllNamed(Raster.DRAWN, blocks + [rings], grid, n) == AllNamed(Raster.DRAWN, blocks, grid, n)
  {
    if n > 0 { NamedStay(blocks, rings, grid, n - 1); }
  }

  /** Every outline of the die, not simplified yet. */
  method FindRegions(die: (nat, nat), cells: seq<Raster.Cell>, s: Settings) returns (found: seq<Outline>)
    requires s.grid > 0 && die.1 > 0
    ensures IsRegions(die, cells, s, found) && found != [] && found[0] == Tile(die)
    ensures ShowDie(die, cells, s, found)
  {
    var macros := FindMacros(cells);
    var labels: Owners := Raster.Rasterise(die, cells, s.grid, s.blur, s.cover);
    var traces, blocks := TraceBlocks(labels, s.piece, s.grid as real);
    found := [Tile(die)] + MacroOutlines(macros) + traces;
    assert Joined(die, cells, s, labels, macros, blocks, found);
    RegionsShow(die, cells, s, found);
  }

  // there is only one answer

  lemma TracesAreOne(labels: Owners, name: string, piece: real, a: seq<seq<Point>>, b: seq<seq<Point>>)
    requires Traces(labels, name, piece, a) && Traces(labels, name, piece, b)
    ensures a == b
  {
    var p :| PiecesOf(Region(labels, Some(name)), piece, p) && AllEnclose(a, p);
    var q :| PiecesOf(Region(labels, Some(name)), piece, q) && AllEnclose(b, q);
    PiecesAreOne(Region(labels, Some(name)), piece, p, q);
    EnclosingIsOne(a, b, p);
  }

  lemma EnclosingIsOne(a: seq<seq<Point>>, b: seq<seq<Point>>, pieces: seq<set<Point>>)
    requires AllEnclose(a, pieces) && AllEnclose(b, pieces)
    ensures a == b
  {
    forall k | 0 <= k < |a| ensures a[k] == b[k] {
      assert Encloses(a[k], pieces[k]) && Encloses(b[k], pieces[k]);
    }
  }

  /** The cells of the die determine its outlines, to the order of the pieces and of every ring's
      corners. */
  lemma RegionsAreOne(die: (nat, nat), cells: seq<Raster.Cell>, s: Settings, a: seq<Outline>, b: seq<Outline>)
    requires s.grid > 0 && IsRegions(die, cells, s, a) && IsRegions(die, cells, s, b)
    ensures a == b
  {
    var labels: Owners, macros, blocks :| Joined(die, cells, s, labels, macros, blocks, a);
    var labels2: Owners, macros2, blocks2 :| Joined(die, cells, s, labels2, macros2, blocks2, b);
    Raster.RasterIsOne(die, cells, s.grid, s.blur, s.cover, labels, labels2);
    Ordering.SortedIsOne(MacroKey, Macros(cells, |cells|), macros, macros2);
    forall k | 0 <= k < BLOCKS ensures blocks[k] == blocks2[k] {
      TracesAreOne(labels, Raster.DRAWN[k], s.piece, blocks[k], blocks2[k]);
    }
    assert blocks == blocks2;
  }
}
