/** The whole of demo/draw.py's main: from the cells of the die to its outlines, to pen strokes, to
    the bytes of the mouse, to what the host draws and how far that is off. */
module Journey {
  import opened Wrappers
  import opened Squares
  import opened Polyline
  import opened Outlines
  import opened Regions
  import opened Circuits
  import opened PenPath
  import opened Mouse
  import opened Drift
  import Raster

  ghost predicate AreLines(strokes: seq<seq<Point>>) {
    forall i :: 0 <= i < |strokes| ==> |strokes[i]| >= 3
  }

  /** Every stroke goes round a ring of two corners or more. */
  lemma StrokesAreLines(todo: seq<Loop>, strokes: seq<seq<Point>>)
    requires DrawsNearest(todo, ORIGIN, strokes)
    ensures AreLines(strokes)
  {
    var picks := DrawsEachOnce(todo, ORIGIN, strokes);
    forall i | 0 <= i < |strokes| ensures |strokes[i]| >= 3 {
      assert Picked(picks[i], strokes[i]);
    }
  }

  /** What is drawn, the bytes for it, what the host makes of them, and the worst error. */
  datatype Drawing = Drawing(strokes: seq<seq<Point>>, data: seq<Byte>, screen: Screen, error: Error2)

  /** The host replays the bytes of the strokes to as many polylines and comes back to where it
      began; the worst error is within the square root of a half. */
  ghost predicate Plays(strokes: seq<Line>, wait: Byte, data: seq<Byte>, screen: Screen, error: Error2) {
    && data == [wait] + Flat(AllReports(Lines(strokes))) && Replayed(data) == Some(screen)
    && screen.at == ORIGIN && |screen.drawn| == |strokes|
    && error == Squared(Drift2(strokes, screen.drawn, ORIGIN)) && error.d <= 0.5
    && AllNear(strokes, screen.drawn, ORIGIN, 0.5)
  }

  function Lines(strokes: seq<Line>): (lines: seq<Stroke>)
    ensures lines == strokes
  {
    strokes
  }

  method PlayStrokes(strokes: seq<Line>, wait: Byte) returns (data: seq<Byte>, screen: Screen, error: Error2)
    ensures Plays(strokes, wait, data, screen, error)
  {
    data := Encode(Lines(strokes), wait);
    EncodedReplays(Lines(strokes), wait);
    var played := Replay(data);
    screen := played.value;
    EncodedDrift(strokes, screen);
    EncodedNear(strokes, screen);
    error := DriftOf(strokes, screen.drawn, screen.at);
  }

  /** The strokes draw the rings, the nearest next, and are played so. */
  ghost predicate Draws(rings: seq<seq<Vertex>>, dieWidth: real, dieHeight: real, width: nat, wait: Byte, d: Drawing)
    requires dieWidth > 0.0
  {
    && DrawsNearest(PenPath.Rings(rings, dieHeight, width as real / dieWidth), ORIGIN, d.strokes)
    && DrawsWideRings(rings, dieHeight, width as real / dieWidth, ORIGIN, d.strokes)
    && AreLines(d.strokes) && Plays(d.strokes, wait, d.data, d.screen, d.error)
  }

  /** Any rings at all can be drawn so. */
  method DrawRings(rings: seq<seq<Vertex>>, dieWidth: real, dieHeight: real, width: nat, wait: Byte)
    returns (d: Drawing)
    requires dieWidth > 0.0
    ensures Draws(rings, dieWidth, dieHeight, width, wait, d)
  {
    var path := DrawPath(rings, dieWidth, dieHeight, width);
    StrokesAreLines(PenPath.Rings(rings, dieHeight, width as real / dieWidth), path);
    var data, screen, error := PlayStrokes(path, wait);
    d := Drawing(path, data, screen, error);
  }

  // from the cells

  function RingsOf(outlines: seq<Outline>): (rings: seq<seq<Vertex>>)
    ensures |rings| == |outlines|
  {
    seq(|outlines|, i requires 0 <= i < |outlines| => outlines[i].ring)
  }

  /** The regions of these cells, simplified by the smallest tolerance that leaves at most
      `segments` edges, and drawn. */
  ghost predicate DrawnAt(die: (nat, nat), s: Settings, segments: int, width: nat, wait: Byte, found: seq<Outline>,
                          h: int, d: Drawing)
    requires die.0 > 0 && s.grid > 0
  {
    && IsSmallest(found, segments, s.grid as real, h)
    && Draws(RingsOf(At(found, h, s.grid as real)), die.0 as real, die.1 as real, width, wait, d)
  }

  lemma {:induction false} AtFirst(found: seq<Outline>, h: int, grid: real)
    requires found != []
    ensures At(found, h, grid) != [] && At(found, h, grid)[0] == OneAt(found[0], h, grid)
  {
    if |found| > 1 { AtFirst(found[..|found| - 1], h, grid); }
  }

  lemma {:induction false} CountIsCorners(outlines: seq<Outline>)
    ensures Count(outlines) == CornersOf(RingsOf(outlines))
  {
    if outlines != [] {
      CountIsCorners(outlines[..|outlines| - 1]);
      assert RingsOf(outlines)[..|outlines| - 1] == RingsOf(outlines[..|outlines| - 1]);
    }
  }

  /** A drawing has no more segments than were asked for; if it is wide at all it starts with the
      tile, from the pointer's start. */
  lemma DrawnWithin(die: (nat, nat), s: Settings, segments: int, width: nat, wait: Byte, found: seq<Outline>, h: int,
                    d: Drawing)
    requires die.0 > 0 && die.1 > 0 && s.grid > 0
    requires found != [] && found[0] == Tile(die) && DrawnAt(die, s, segments, width, wait, found, h, d)
    ensures Segments(d.strokes) <= segments
    ensures width > 0 ==> d.strokes != [] && d.strokes[0][0] == ORIGIN
    ensures width > 0 ==> exists pick: Pick :: Picked(pick, d.strokes[0])
                                            && pick.ring == Pixels(Tile(die).ring, die.1 as real,
                                                                   width as real / die.0 as real)
  {
    var outlines, scale := At(found, h, s.grid as real), width as real / die.0 as real;
    var rings := RingsOf(outlines);
    SegmentsAreCorners(PenPath.Rings(rings, die.1 as real, scale), ORIGIN, d.strokes);
    CornersAtMost(rings, die.1 as real, scale);
    CountIsCorners(outlines);
    AtFirst(found, h, s.grid as real);
    if width > 0 { TileFirst(rings, die.0 as real, die.1 as real, width, d.strokes); }
  }

  /** Fails exactly if the guard does; otherwise ends with the drawing. */
  method DrawDie(die: (nat, nat), cells: seq<Raster.Cell>, s: Settings, segments: int, width: nat, wait: Byte)
    returns (r: Result<Drawing, Outlines.Error>, ghost found: seq<Outline>)
    requires die.0 > 0 && die.1 > 0 && s.grid > 0
    ensures IsRegions(die, cells, s, found)
    ensures r.Failure? <==> Least(found) > segments
    ensures r.Success? ==> exists h :: DrawnAt(die, s, segments, width, wait, found, h, r.value)
    ensures r.Success? ==> Segments(r.value.strokes) <= segments
    ensures r.Success? && width > 0 ==> r.value.strokes != [] && r.value.strokes[0][0] == ORIGIN
  {
    var regions := FindRegions(die, cells, s);
    found := regions;
    var outlines := SmallestOutlines(regions, segments, s.grid as real);
    if outlines.Failure? {
      return Failure(outlines.error), found;
    }
    var drawing := DrawRings(RingsOf(outlines.value), die.0 as real, die.1 as real, width, wait);
    ghost var h :| IsSmallest(regions, segments, s.grid as real, h) && outlines.value == At(regions, h, s.grid as real);
    assert DrawnAt(die, s, segments, width, wait, regions, h, drawing);
    DrawnWithin(die, s, segments, width, wait, regions, h, drawing);
    r := Success(drawing);
  }

  /** The output is deterministic: the same cells give the same drawing. */
  lemma DrawingIsOne(die: (nat, nat), cells: seq<Raster.Cell>, s: Settings, segments: int, width: nat, wait: Byte,
                     found: seq<Outline>, h: int, d: Drawing, again: seq<Outline>, g: int, e: Drawing)
    requires die.0 > 0 && s.grid > 0 && IsRegions(die, cells, s, found) && IsRegions(die, cells, s, again)
    requires DrawnAt(die, s, segments, width, wait, found, h, d) && DrawnAt(die, s, segments, width, wait, again, g, e)
    ensures found == again && h == g && d == e
  {
    RegionsAreOne(die, cells, s, found, again);
    SmallestIsThreshold(found, segments, s.grid as real, h, g);
    SmallestIsThreshold(found, segments, s.grid as real, g, h);
    var rings := RingsOf(At(found, h, s.grid as real));
    DrawnIsOne(PenPath.Rings(rings, die.1 as real, width as real / die.0 as real), ORIGIN, d.strokes, e.strokes);
  }
}
