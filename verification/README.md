# What the demos' Python promises, proved

A Dafny model of the host-side code of a two-engine protocol chip: the die drawn with a simulated
mouse, the check sums of its outside demos, the host's conversation with the chip's fifos and with
the demo board, its SPI frames and CAN frames at the pins, the labelling of the die's cells, and
the comparison of two readings of a specification. `dafny verify dfyconfig.toml` checks all of it.

Loops, worklists and objects are methods and classes, each proved against a specification function
or predicate; what the source's documentation promises is then proved about those for all inputs.
Coordinates, areas and distances are exact integers and reals, and distances are compared as their
squares.

## The parts

- **Outline** (`Blur`, `Raster`, `Squares`, `Boundary`, `Winding`, `Area`, `Rings`, `Trace`,
  `Filling`, `Enclosure`, `Pieces`, `Polyline`, `DouglasPeucker`, `StrayRing`, `Outlines`,
  `Circuits`, `PenPath`, `Listing`, `Regions`, `Journey`). A block's cells are shared out exactly
  among the squares of a grid and blurred with a table of sums; its squares are split into 4-connected components and
  filled; each is traced. The walk of `trace` is the orbit of a permutation of the boundary edges,
  so it never lacks an edge and closes at its start. That it takes every boundary edge of a filled
  piece is proved by winding numbers: they are constant on the squares inside and on those outside,
  which meet up round the margin. The ring that is left then winds once round each of the piece's
  squares and round no other, and its sides are the piece's boundary edges. `simplify` is a nest of
  split points that do not depend on the tolerance, which makes the edge count monotone and the
  bisection in `outlines` exact. From cells to mouse bytes the whole is deterministic, though sets
  come in no particular order.
- **Drawing** (`Mouse`, `Played`, `Drift`, `Rounding`, `Bresenham`, `Canvas`). Strokes as three-byte
  reports, the host that plays them, the drift between the two, and Bresenham's line on a pixel
  buffer.
- **Stopping** (`ReportQueue`). The queue of reports as a state machine over every run of the host,
  the laptop and the check that ends it.
- **Check sums** (`Gf2`, `Words`, `Crc`). Four registers in three styles, all one division of
  polynomials over GF(2): Dallas CRC-8, the CRC-16 of section 8.3.5 of the USB 2.0 specification,
  the CRC-15 of section 3.1.1 of Bosch CAN 2.0 Part A, and AUTOSAR's CRC-8.
- **Host and chip** (`Exchange`, `Loads`, `BoardHost`). Credit flow control against an engine that runs
  whenever it likes, and the compacted log that rebuilds the chip after another design ran.
- **Pins and words** (`SpiFrames`, `CanFrames`, `CanListen`). What the host clocks out is what is
  read from the levels; CAN frames do not depend on how polls cut the stream.
- **Graphs and matching** (`Spread`, `Spreading`, `Near`, `Rows`, `FirstCome`, `Pairing`,
  `Disputes`, `Comparing`, `Rulings`, `Ordering`). Layered voting over the netlist; the matching of
  two readings' rows, which is four rounds of first come, first served; what becomes of each field of
  a pair; a person's rulings; and the sort by a key.

`Wrappers`, `Numbers` and `Reach` hold options and results, the smaller and the greater number, and
paths of a relation.

## Where the code does less than it says

Each of these is a statement about the code as it is, with the exact condition where there is one.

- `simplify` says that it keeps at least three corners. A ring of one or two it returns as it is,
  and of more than three that all coincide it returns two; otherwise it keeps three
  (`DouglasPeucker.ThreeCorners`).
- Where the recursion of `simplify` keeps only two corners it puts one back, which can leave a
  dropped corner farther from its new chord than the tolerance, also on a ring traced from a piece
  (`StrayRing.PutBackMayStray`). All dropped corners are near if and only if three corners are kept
  or those of the half with the put-back corner are near its two new chords
  (`DouglasPeucker.DroppedNearExactly`); and three are kept if and only if some corner lies beyond
  the tolerance from the chord between the first corner and the farthest, on either side
  (`DouglasPeucker.ThreeKept`).
- `DemoBoardSpi.select` notes the enable count before it looks at the DIP switches. If it stops at
  those, the next `ensure` takes the chip for loaded though it was just powered up
  (`BoardHost.PinHighStrands`): after any run of calls, exactly if one of them stopped there and all
  after it left the chip alone (`BoardHost.EnsureAfter` with `BoardHost.StrandedExactly`).
- `listen` stops at the poll that brings the fourth frame. That poll may bring more, so how polls
  cut the stream makes no difference exactly when it has no more than four frames
  (`CanListen.CutsMatter`).
- An error seen by `listen` drops all words of its poll: frames are lost exactly when the words hold
  a whole one (`CanListen.ErrorDropsPoll`), as in `CanListen.WholeFrameDropped`
  and at one poll in `CanListen.WholeFrameDroppedOnce`.
- `spread` does not always label "every allowed cell reachable". One that bars all labels of the
  labelled cells that lead to it is left out (`Spreading.LabelledUnlessBarred`), and so may be the
  cells behind it (`Spreading.BehindIsCutOff`); barring one of several labels may do no harm
  (`Spreading.AnotherLabelWillDo`). All reachable cells are labelled, whatever labels the seeds
  carry, if and only if no reachable cell but a seed bars any (`Spreading.AllReachedWhateverSeeds`).
- A ruling written next to a dispute whose symbol has neither a letter nor a digit raises KeyError,
  as the file has no column for the parameter, and with it the whole file is lost
  (`Rulings.ReadRulings`). That is so exactly for rows with such a symbol, unless it is empty and the
  parameter stands in for it (`Rulings.RulingFindsField`).

## Model

| member | source | states |
|---|---|---|
| Blur.SumTable | demo/outline.py:80-83 | Entry (j, i) of the table of sums is the sum of the window from the table's corner to it. |
| Blur.BoxBlur | demo/outline.py:77-91 | At every entry and for every radius, the direct sum of the window around the entry, with zeros outside the edges. |
| Blur.WindowClamped | demo/outline.py:85-87 | What a window has outside the table adds nothing, so cutting it to the table leaves its sum. |
| Blur.WindowFromCorners | demo/outline.py:85-87 | A window's sum is that of four windows at the table's corner, two added and two taken off. |
| Raster.RangeTouches | demo/outline.py:55-56 | The loops over a cell's squares visit exactly the squares its interior meets. |
| Raster.AddCell | demo/outline.py:54-64 | One cell adds its exact share to every square it touches and to no other; a macro marks them instead. |
| Raster.Covers | demo/outline.py:51-64 | Each square's cover by a block is the sum of the block's cells' shares of it; the marked squares are those a macro touches. |
| Raster.CoverConserved | demo/outline.py:51-64 | The covers of all squares add up to the areas of the cells: a cell inside the die is split into squares without rest. |
| Raster.Rasterise | demo/outline.py:47-74 | A square has no owner exactly if a macro touches it, the blurred cover of all blocks is below the threshold, or no drawn block covers it; otherwise its owner has the most blurred cover, the first of equals. |
| Pieces.Flood | demo/outline.py:103-112 | From an unseen square the stack loop finds exactly its 4-connected component. |
| Pieces.Split | demo/outline.py:97-113 | The parts found are exactly the 4-connected components of the block's squares, each once. |
| Pieces.PiecesApart | demo/outline.py:94-115 | Two components are the same or share no square. |
| Pieces.Sort | demo/outline.py:114 | The parts in order of size, then of least square; the same parts. |
| Pieces.FindPieces | demo/outline.py:94-115 | The pieces are the components of at least the given share of every component's size, the larger before the smaller and of equals the one with the least square first, each filled. |
| Pieces.LargeIsShare | demo/outline.py:114-115 | The share of the first part in order is that of every component: the list holds exactly these, each once. |
| Pieces.Fill | demo/outline.py:118-135 | The flood with a stack leaves exactly the squares the frame's corner cannot reach by 8-steps. |
| Filling.FilledFits | demo/outline.py:118-135 | Filling contains its input and stays inside its extent. |
| Filling.FilledHoleFree | demo/outline.py:118-135 | Every square that filling omits reaches the margin by 8-steps. |
| Filling.FilledTwice | demo/outline.py:118-135 | Filling is idempotent. |
| Filling.FillKeepsHoleFree | demo/outline.py:118-135 | A piece without holes is left as it is. |
| Filling.FilledConnected | demo/outline.py:118-135 | Filling a connected piece leaves it connected. |
| Boundary.Balance | demo/outline.py:143-149 | At every corner as many boundary edges leave as arrive. |
| Boundary.NextBounds | demo/outline.py:152-164 | At the end of a boundary edge there always is one to go on with, with a square on its left and none on its right. |
| Boundary.NextInjective | demo/outline.py:152-164 | No two edges go on with the same edge. |
| Boundary.FreshNext | demo/outline.py:152-164 | A walk that is not back at its start has an edge to go on with that it has not used. |
| Boundary.WalkClosed | demo/outline.py:152-166 | The walk is one whole cycle: it takes an edge exactly if it takes the edge after it. |
| Boundary.WalkSameSide | demo/outline.py:138-141 | All walked edges run along squares joined by their sides to the first one, so pieces that only touch at a corner are kept apart. |
| Boundary.TwoWaysGoLeft | demo/outline.py:155-162 | At a corner with two ways on, the walk turns left. |
| Trace.BuildLists | demo/outline.py:143-149 | The lists hold exactly the boundary edges, each by its start and once. |
| Trace.PickIsOnward | demo/outline.py:152-162 | The corner looked up is listed, and the end picked there is where the walk goes on by an unused edge. |
| Trace.WalkRound | demo/outline.py:150-166 | The loop never looks up a missing corner, uses each edge at most once and stops back at its start with the whole walk. |
| Trace.Corners | demo/outline.py:167 | The corners left are those where the walk turns. |
| Trace.Trace | demo/outline.py:138-167 | For any finite non-empty set of squares, in whatever order they come, the ring of the walk from its least corner. |
| Area.BoundaryArea | demo/outline.py:143-149 | The cross products of a set's boundary edges add up to twice its size. |
| Area.WalkArea | demo/outline.py:150-166 | The walked edges' cross products and those of the edges left over are together twice the number of squares. |
| Rings.RingCorners | demo/outline.py:167-171 | Dropping collinear corners leaves no straight corner and the same cross-product sum. |
| Rings.RingArea | demo/outline.py:138-171 | The ring's sum and that of the boundary edges not walked are together twice the number of squares. |
| Winding.WindingOfBoundary | demo/outline.py:138-167 | Over a boundary edge the winding number of a cycle of the walk rises by one exactly if the cycle holds the edge. |
| Winding.WalkIsWholeBoundary | demo/outline.py:138-167 | Around a connected piece without holes the walk takes every boundary edge. |
| Rings.PieceArea | demo/outline.py:138-171 | The ring of a connected piece without holes has the piece's area and runs counterclockwise. |
| Enclosure.WholeWalkWinds | demo/outline.py:138-167 | A walk that takes every boundary edge once winds once round each square of the piece and not at all round any other. |
| Enclosure.BoundaryWinds | demo/outline.py:143-149 | The boundary edges that a ray from a square to the right crosses, up less down, are one exactly for the piece's squares. |
| Enclosure.RingWinds | demo/outline.py:138-171 | The sides of the ring, counted by themselves, wind once round each square of the piece and not at all round any other. |
| Enclosure.RingSides | demo/outline.py:138-171 | A unit edge lies on exactly one side of the ring if it is a boundary edge of the piece, and else on none. |
| Enclosure.PieceEnclosed | demo/outline.py:138-171 | The ring of a connected piece without holes encloses exactly it: winding numbers, sides, area, and no straight corner. |
| Pieces.PieceTraced | demo/outline.py:94-167 | Whatever piece of a block is filled and traced, its ring winds once round exactly the filled squares, and its sides are exactly their boundary edges. |
| Pieces.PiecesAreOne | demo/outline.py:94-115 | A block has only one sequence of pieces, in whatever order sets and stacks are gone through. |
| Regions.BlockRings | demo/outline.py:227-228 | A block's traces: for each large component the ring of it and its holes, which winds round exactly these squares along exactly their boundary edges. |
| Regions.FindRegions | demo/outline.py:219-229 | The tile's and the macros' rectangles corner by corner, the macros in order; then each drawn block's outlines, block by block and by size: one for each component of the share, whose corners are the grid times those of the ring that encloses it with its holes, and whose cross products come to twice the grid's square times the squares. |
| Regions.RegionsShow | demo/outline.py:219-229 | Whatever the regions of a die are, they show it so. |
| Regions.WholeCross | demo/outline.py:228 | The cross products of an outline in steps are the grid's square times those of its ring in squares. |
| Regions.RegionsAreOne | demo/outline.py:5 | The cells determine all of that. |
| Raster.RasterIsOne | demo/outline.py:47-74 | The cells determine every square's label. |
| Polyline.SegmentNearest | demo/outline.py:206-212 | No point of the segment is nearer than `segment_distance` says. |
| DouglasPeucker.SplitsShrink | demo/outline.py:183-193 | Within a stretch a larger tolerance keeps a subset of the split points. |
| DouglasPeucker.SplitsNear | demo/outline.py:183-193 | A corner dropped within a stretch is within the tolerance of the chord of the kept corners around it. |
| DouglasPeucker.SimplifiedShrinks | demo/outline.py:174-199 | A larger tolerance never leaves more corners, put-back corner included. |
| DouglasPeucker.DroppedAreNear | demo/outline.py:174-199 | If the recursion keeps three corners, every dropped one is within the tolerance of the chord of the two returned corners around it. |
| DouglasPeucker.ThreeCorners | demo/outline.py:174-199 | At least three corners are returned if and only if the ring has three, or more that do not all coincide; of more that coincide two are. |
| DouglasPeucker.FarIsFirst | demo/outline.py:179 | The corner farthest from the first is the first exactly if all corners coincide. |
| DouglasPeucker.DroppedNearExactly | demo/outline.py:174-199 | For more than three corners, every dropped one is near the chord of the returned corners around it if and only if the recursion keeps three, or those of the half that the put-back corner splits are near its two new chords. |
| DouglasPeucker.ThreeKept | demo/outline.py:182-194 | The recursion keeps three corners if and only if a corner of one half of the ring lies beyond the tolerance from the half's chord. |
| StrayRing.PutBackMayStray | demo/outline.py:194-198 | A table of labels with a block of eight squares, whose trace has, at a tolerance in hundredths, a corner that the put-back one leaves beyond the tolerance. |
| DouglasPeucker.Half | demo/outline.py:182-193 | The stack loop adds exactly the recursion's split points, whatever the order of the stack. |
| DouglasPeucker.Simplify | demo/outline.py:174-199 | The stack loops, the put-back and the selection return the corners the recursion keeps, in order. |
| Outlines.CountFalls | demo/outline.py:239-251 | More tolerance never makes more edges. |
| Outlines.EnoughLeavesLeast | demo/outline.py:234-251 | From some hundredth on every traced ring has at most three corners, which is what the guard counts and the doubling loop runs into. |
| Outlines.SmallestOutlines | demo/outline.py:232-257 | Fails exactly if the guard does; otherwise ends with every ring at the smallest hundredth from SMOOTH that leaves at most the given edges. |
| Outlines.SmallestIsThreshold | demo/outline.py:232-257 | Any other hundredth from SMOOTH fits the budget if and only if it is no smaller. |
| Circuits.BuildPixels | demo/outline.py:275-280 | The corners in pixels without those that round onto the one before, nor the last ones that round onto the first. |
| Circuits.AtPixelIsScreen | demo/outline.py:271-272 | A corner's pixel is the nearest in both directions, halves to even, x right and y down. |
| Circuits.ClosedGoesRound | demo/outline.py:275-292 | The stroke passes the pixels of all of the ring's corners, in their order round the ring from the first at its start, and no other pixel. |
| Circuits.WideHasTwo | demo/outline.py:275-282 | Two pixels are left exactly of a ring with corners in different pixels. |
| PenPath.FindNearest | demo/outline.py:285-288 | The ring and corner nearest to the pen, the first of equals. |
| PenPath.NearestUnique | demo/outline.py:285-288 | There is only one such ring and corner. |
| PenPath.DrawPath | demo/outline.py:264-294 | One stroke goes round each ring that has corners in different pixels, and round no other; each starts at the corner nearest to the pen of all the rings still to come, the first of equals. |
| PenPath.DrawsAllWide | demo/outline.py:282-293 | Drawing the loops left, the nearest next, draws the rings so. |
| PenPath.DrawsEachOnce | demo/outline.py:283-293 | Every ring is drawn exactly once. |
| PenPath.DrawnIsOne | demo/outline.py:264-294 | There is only one drawing of the rings. |
| PenPath.SegmentsAreCorners | demo/draw.py:277 | As many segments are drawn as the rings have corners in pixels. |
| PenPath.TileFirst | demo/outline.py:264-268 | The tile comes first, from its top left corner, on any canvas at least one pixel wide. |
| Mouse.RoundedNearest | python/demo_draw.py:23-33 | No whole number is nearer to where the move should be than the rounded one. |
| Mouse.LineStep | python/demo_draw.py:23-33 | Every report of a move carries its step exactly as two signed bytes, and neither is -128. |
| Mouse.FewestSteps | python/demo_draw.py:23-26 | A move takes one report at least, and no more than its longer side takes 127 at a time. |
| Mouse.Line | python/demo_draw.py:23-33 | The reports of a move: the differences of the rounded points. |
| Mouse.Encode | python/demo_draw.py:36-51 | The wait, then for every stroke a move, a press, its segments and a release, then the way back. |
| Mouse.PlayMove | demo/draw.py:49-66 | A move with the button up takes the pointer exactly from one point to another. |
| Mouse.PlayStroke | demo/draw.py:49-66 | A stroke's reports draw one polyline and leave the button up at its last corner. |
| Mouse.ReplayUndoesEncode | demo/draw.py:49-66 | Played from blank, the reports of all strokes draw one polyline each, in order, and end at the origin with the button up. |
| Mouse.Replay | demo/draw.py:49-66 | The loop over the bytes is the host's play of the reports; it fails exactly if one moves -128 or is cut short. |
| Played.ReplayedIs | demo/draw.py:49-66 | Replaying any whole reports fails exactly if one moves -128; else it leaves what the next row says. |
| Played.PlayIs | demo/draw.py:49-66 | Any reports leave the pointer at the sum of their moves, a polyline for each press with one point for each report that holds the button, in order, and the moves with it up that go somewhere. |
| Played.CutShortFails | demo/draw.py:55-56 | Bytes that end within a report fail. |
| Mouse.EncodedReplays | demo/draw.py:49-66 | What encode writes always replays, to the strokes. |
| Drift.CornersDrawn | demo/draw.py:49-66 | The polyline drawn for a stroke passes exactly through every corner, in order. |
| Drift.StepNear | python/demo_draw.py:23-33 | Each point a report leaves the pointer at is within the square root of a half of its segment. |
| Drift.DistanceIs | demo/draw.py:69-70 | A point is within a distance of a polyline exactly if it is within that distance of a point of it. |
| Drift.DriftOf | demo/draw.py:73-83 | Infinite exactly if the counts differ; else within a distance exactly if the end is within it of the start, every drawn point of a point of its stroke and every corner of a point of its drawing. |
| Drift.DriftReached | demo/draw.py:73-83 | The drift is one of these distances. |
| Drift.StrokeDriftBound | demo/draw.py:73-83 | Nothing drawn for a stroke is farther than the square root of a half from it, and no corner is off the drawing. |
| Drift.EncodedDrift | demo/draw.py:73-83 | The whole drift is never above the square root of a half. |
| Drift.EncodedNear | demo/draw.py:73-83 | So the end, every drawn point and every corner are within the square root of a half of where they should be. |
| Journey.DrawRings | demo/draw.py:264-267 | From any rings: a stroke round each that is wide, the nearest next; the bytes of the strokes, which replay to as many polylines with the pointer back at the origin; and nothing farther off than the square root of a half. |
| Journey.DrawnWithin | demo/draw.py:257-277 | A drawing has at most the segments asked for, and if it is at least a pixel wide starts from the pointer's start with the tile. |
| Journey.DrawDie | demo/draw.py:257-267 | From the cells of a die: fails exactly if the guard does; otherwise the regions, at the smallest tolerance that fits, are drawn so. |
| Journey.DrawingIsOne | demo/outline.py:5 | The drawing is deterministic: regions, tolerance, strokes, bytes, replay and drift. |
| Bresenham.MinorNear | demo/draw.py:99-116 | The shorter side's coordinate is within half a step of the ideal line at every step. |
| Bresenham.StepAt | demo/draw.py:108-116 | The comparisons with the doubled error take the next step: the longer side always, the shorter where its rounded coordinate moves on. |
| Bresenham.EndAt | demo/draw.py:106-107 | The walk is at the end after as many steps as the longer side has, and not before. |
| Drawing.LineEnds | demo/draw.py:99-116 | The line starts on its first pixel and is on its last after max(dx, dy) steps and not before. |
| Drawing.LineStays | demo/draw.py:99-116 | Each step moves the longer side by one; every pixel is within half a pixel of the straight line the other way. |
| Drawing.PenIsSquare | demo/draw.py:99-116 | The pen is a square of weight pixels with as many before its pixel as after it, or one fewer. |
| Drawing.CutTouches | demo/draw.py:91-93 | The coordinates an interval is cut to hold exactly those it touches. |
| Drawing.CoversInside | demo/draw.py:91-97 | A rectangle with an inside touches exactly the pixels that share a point of it. |
| Drawing.Canvas.Rect | demo/draw.py:91-97 | Fills the pixels the rectangle touches, clipped, and no others. |
| Drawing.Canvas.Line | demo/draw.py:99-116 | Ends, with the pen's square around each of the line's pixels inked and no other pixel changed. |
| ReportQueue.Reports.Len | python/demo_draw.py:67-70 | The reports left, none before the start. |
| ReportQueue.LengthIsLeft | python/demo_draw.py:67-70 | Before the start 0; from then on the number of reports put back and of those left in draw.bin. |
| ReportQueue.HandsOutAfterWait | python/demo_draw.py:67-77 | In every run a report is handed out only once the wait from the first start is over, or after a stop. |
| ReportQueue.Reports.Pop | python/demo_draw.py:79-86 | A report put back first, else the next three bytes; its buttons are held. |
| ReportQueue.Reports.Insert | python/demo_draw.py:88-89 | The report comes out next. |
| ReportQueue.Reports.Stop | python/demo_draw.py:91-95 | The rest is dropped, but for one release if the last report held a button. |
| ReportQueue.TakesPrefix | python/demo_draw.py:58-95 | In every run that is not stopped the laptop takes a prefix of the reports in order: none lost, none twice. |
| ReportQueue.TakesPrefixThenRelease | python/demo_draw.py:58-95 | In every run at all it takes a prefix and then at most one release. |
| ReportQueue.DrainedIsUp | python/demo_draw.py:58-62 | In every run that is stopped and drained, the button is up. |
| ReportQueue.RestOfEncoded | python/demo_draw.py:36-51 | The reports it takes are those that were encoded. |
| ReportQueue.Stopping.Check | python/demo_draw.py:102-121 | When the console is polled, when the queue is stopped, and that serve ends exactly if everything is taken or the release time is over. |
| ReportQueue.EndedIsUp | python/demo_draw.py:98-121 | In every run in which a check ended serve saying that everything was taken, the queue was stopped and the button is up. |
| Gf2.RunIsRemainder | demo/traffic.py:66-74 | Clocking a register divides the message by the generator: some quotient, and the register as remainder. |
| Gf2.RemainderUnique | demo/traffic.py:66-74 | There is only one quotient and remainder. |
| Gf2.RunLinear | demo/traffic.py:66-74 | The register of a sum of messages is the sum of the registers. |
| Gf2.XorInFirst | demo/learn_prepare.py:105-111 | A width of message xored in at once and then shifted through is the same as bit by bit. |
| Gf2.Residue | demo/traffic.py:66-74 | A tail as wide as the register empties it if and only if it is the register's contents. |
| Gf2.ResidueTold | demo/usb_fs_check.py:41-46 | The complement of the register, and no other tail, leaves one constant, whatever the message. |
| Gf2.BurstDetected | demo/traffic.py:66-74 | Messages that differ only within a span of the register's width leave it different. |
| Crc.Crc8 | python/demo_ds18b20.py:28-39 | The loops compute the Dallas register. |
| Crc.Crc16 | demo/usb_fs_check.py:41-46 | The loops compute USB's register, preset and complemented. |
| Crc.Crc15 | demo/traffic.py:66-74 | The loop computes CAN's register. |
| Crc.Crc8Autosar | demo/learn_prepare.py:105-111 | A byte xored in and eight shifts compute AUTOSAR's register. |
| Crc.Crc8IsRemainder | python/demo_ds18b20.py:28-39 | A byte is the CRC-8 if and only if it is the remainder of the message, lowest bits first. |
| Crc.Crc16IsRemainder | demo/usb_fs_check.py:41-46 | Sixteen bits are the CRC-16 if and only if their complement is the remainder of the message preset with ones. |
| Crc.Crc15IsRemainder | demo/traffic.py:66-74 | Fifteen bits are the CRC-15 if and only if they are the remainder. |
| Crc.AutosarIsRemainder | demo/learn_prepare.py:105-111 | A byte is the CRC if and only if its complement is the remainder of the message, highest bits first, preset with ones. |
| Crc.Crc8Closes | python/demo_ds18b20.py:28-39 | The CRC over data and one more byte is 0 exactly if that byte is the data's CRC. |
| Crc.Crc15Closes | demo/traffic.py:66-74 | The CRC over bits and fifteen more is 0 exactly if those are the bits' CRC. |
| Crc.Crc16Closes | demo/usb_fs_check.py:41-46 | The CRC over data and two more bytes is one constant, whatever the data, exactly if those two joined are the data's CRC, low byte first. |
| Crc.AutosarCloses | demo/learn_prepare.py:105-111 | The CRC over data and one more byte is one constant exactly if that byte is the data's CRC. |
| Crc.Crc8Burst | python/demo_ds18b20.py:28-39 | Two messages of one length that differ in a burst of at most 8 bits have different CRCs. |
| Crc.Crc16Burst | demo/usb_fs_check.py:41-46 | The same for bursts of at most 16 bits. |
| Crc.Crc15Burst | demo/traffic.py:66-74 | The same for bursts of at most 15 bits. |
| Crc.AutosarBurst | demo/learn_prepare.py:105-111 | The same for bursts of at most 8 bits. |
| Crc.MirroredGenerators | python/demo_ds18b20.py:28-39 | The constants of the shift-right registers are the printed generators mirrored. |
| Exchange.Chip.Run | python/bench.py:45-48 | However long the engine runs, it never finds rx full while no more than the depth is under way; left for long enough it has answered everything. |
| Exchange.Chip.Accounted | python/bench.py:45-61 | Words in tx, in work and in rx are those sent less the replies received. |
| Exchange.Poll | python/bench.py:51-58 | One poll sends what there is room for and takes the next replies, with nothing popped or pushed past a fifo. |
| Exchange.Exchange | python/bench.py:45-61 | Under every schedule of the engine, no more than the depth is under way, and a normal return gives the replies to all words in order; an engine that keeps up is never given up on. |
| BoardHost.LastConfigCounts | python/demo_board.py:179-181 | Configuring again writes every field, so only the last configuration counts. |
| Loads.LandedIs | python/protocol_emulator.py:114-123 | After a load every place that it writes, wrapped at 512 words, holds the last word it writes there, a program load's zeros included; the others hold what they did. |
| Loads.CompactedReplays | python/demo_board.py:183-189 | Replaying the log with loads dropped at each load at 0 gives the memory that the full history does. |
| Loads.AfterIs | python/demo_board.py:195-205 | After a log of loads a place holds the word of the last load that wrote it, whatever the memory held before. |
| Loads.AfterTold | python/demo_board.py:183-189 | A word that some load wrote, with its words or its zeros and wrapped or not, is the same whatever the memory held before. |
| BoardHost.HeldIsTold | python/demo_board.py:195-205 | Of a chip that holds its history, every program and data word that some load wrote is the word of the last such load, and every register that of the last configuration. |
| BoardHost.LoadedChipIs | python/protocol_emulator.py:114-118 | A program load changes the selected engine's program, where its words and zeros land, and nothing else. |
| BoardHost.HoldsTells | python/demo_board.py:164-216 | From the calls themselves: the words written last to each engine's program and to the data, the registers of each engine's last configuration, and the engine selected last. |
| BoardHost.Board.Enable | python/demo_board.py:46-58 | Every enable is counted, whoever asks for it. |
| BoardHost.DemoBoardSpi.Select | python/demo_board.py:99-134 | What select leaves on each way it ends; the count is noted before the pins are checked. |
| BoardHost.DemoBoardHost.Configure | python/demo_board.py:179-181 | The log stays the compacted history; of a clocked chip every field lands in the selected engine's register, 0 where it is left out, and nothing else changes. |
| BoardHost.DemoBoardHost.LoadProgram | python/demo_board.py:183-189 | The log stays the compacted history, one load at 0 replacing the earlier ones; a clocked chip takes the load, of any words from any address. |
| BoardHost.DemoBoardHost.LoadData | python/demo_board.py:191-193 | The log grows; of a clocked chip only the data changes, where the words land. |
| BoardHost.DemoBoardHost.Reload | python/demo_board.py:195-205 | On a chip in reset, the log leaves every configuration, program, data word and the selection that the history asks for. |
| BoardHost.DemoBoardHost.Ensure | python/demo_board.py:211-216 | Returns whether it reloaded; the chip then holds the history unless it was stranded before. |
| BoardHost.EnsureAfter | python/demo_board.py:164-216 | After any run of calls mixed with other designs and failing selects, ensure leaves the chip enabled and as if nothing had intervened, if and only if the calls did not strand it; it then holds the words, registers and engine that the calls wrote last. |
| BoardHost.StrandedExactly | python/demo_board.py:99-121 | Calls strand the chip if and only if one of them made a select that stopped at the pins and each later one either made none or stopped there too. |
| BoardHost.PinHighStrands | python/demo_board.py:99-121 | That exception happens: ensure returns False with the chip as it powered up. |
| SpiFrames.AsyncHost.Transfer | demo/live_die_stimulus.py:38-49 | The levels of a transfer, cycle by cycle, and each reply byte as sampled when the clock rises. |
| SpiFrames.AsyncHost.Write | demo/live_die_stimulus.py:51-55 | The levels of a write: the marked register, then two bytes a word. |
| SpiFrames.AsyncHost.Read | demo/live_die_stimulus.py:57-60 | The levels of a read, and its words from the sampled bytes after the first. |
| SpiFrames.BytesOfBits | demo/live_die.py:186 | Bytes come back from their bits. |
| SpiFrames.WordsOfBytes | demo/live_die.py:188 | Words come back from their bytes, cut to 16 bits. |
| SpiFrames.Sent | demo/live_die_stimulus.py:51-58 | The bytes of a read or a write mean its register, its direction and, cut to 16 bits, its words. |
| SpiFrames.Read | demo/live_die.py:174-196 | The scan over the levels is the reader's run; it fails exactly if a frame has no whole byte. |
| SpiFrames.TransferRead | demo/live_die.py:174-196 | Reading a transfer's levels adds one frame with its first and last cycle and its bytes, whatever came before. |
| SpiFrames.ReadRun | demo/live_die.py:174-196 | Every frame of every sequence of reads and writes comes back in order with its cycles, register, direction and words, whatever the pins do in between, and no other. |
| CanFrames.Frames | python/demo_can_node.py:43-61 | The loop finds the frames at the front of the words and leaves the words after them. |
| CanFrames.ChunksJoin | python/demo_can_node.py:43-61 | Parsing a and b together is parsing a, then what it left followed by b. |
| CanFrames.Laid | python/demo_can_node.py:43-47 | A frame laid out as the receiver does is one whole frame, which reads back and leaves nothing. |
| CanFrames.LaidComeBack | python/demo_can_node.py:43-47 | Frames laid out as the receiver does come back exactly, and leave what follows them. |
| CanFrames.ErrorStays | python/demo_can_node.py:46-47 | A frame that an error ended stays in front whatever comes after it. |
| CanFrames.OneWordOneFrame | python/demo_can_node.py:43-61 | One more word ends at most one frame. |
| CanListen.Listen | python/demo_can_node.py:69-91 | The loop hears what its polls bring until enough frames have come; an error drops the words. |
| CanListen.HeardInOrder | python/demo_can_node.py:69-91 | However polls cut an error-free stream, its frames are heard in order from the first on: all, or at least four; all if there are no more. |
| CanListen.CutsMatter | python/demo_can_node.py:69-91 | The cuts make no difference if and only if the stream has at most four frames. |
| CanListen.ErrorDropsPoll | python/demo_can_node.py:79-83 | With an error all words are dropped; no frame is lost if and only if they hold no whole one. |
| CanListen.WholeFrameDropped | python/demo_can_node.py:79-83 | Any frame that came whole in the poll where an error cut off the next one is not heard; without the error it is. |
| CanListen.WholeFrameDroppedOnce | python/demo_can_node.py:79-83 | Such a poll: three bytes from 0x0A1, then the ID and control words of a frame from 0x6B1. |
| Spread.CountVotes | demo/die.py:205-209 | Each counter is the number of edges from the frontier's cells with that label to the cell, of labels it does not bar. |
| Spread.Winner | demo/die.py:211 | The label counted most often, the first of equals. |
| Spread.RoundGrows | demo/die.py:204-212 | A round keeps it all: seeds stand, each new cell is elected by the round before and barred the labels of all earlier neighbours, and what earlier rounds could label is labelled. |
| Spread.Spread | demo/die.py:199-213 | Ends; seeds keep their labels, every other labelled cell is allowed and elected in its round, and no labelled cell could label another one. |
| Spreading.SpreadIsUnique | demo/die.py:199-213 | These conditions have one answer: the labels do not depend on the order of cells and edges. |
| Spreading.LabelCameAlong | demo/die.py:199-213 | A label reaches its cell from a seed in as many hops as rounds, through allowed cells that all carry it and do not bar it. |
| Spreading.LabelledUnlessBarred | demo/die.py:207-208 | An allowed cell is left out if and only if it bars the labels of all labelled cells that lead to it. |
| Spreading.RoundIsDistance | demo/die.py:199-213 | With nothing barred a cell is labelled if and only if it is reachable, in the round equal to its shortest distance. |
| Spreading.AllReachedWhateverSeeds | demo/die.py:199-213 | Every labelling of the seeds, with however many labels, reaches every reachable cell if and only if no reachable cell but a seed bars any label. |
| Spreading.SpreadExists | demo/die.py:199-213 | Every net has labels that keep the conditions. |
| Spreading.BehindIsCutOff | demo/die.py:207-208 | A net where a cell that bars nothing and is reachable stays without a label, behind one that bars. |
| Spreading.AnotherLabelWillDo | demo/die.py:207-208 | A net where a cell bars a label that comes to it and is labelled all the same. |
| Near.Near | demo/extract.py:178-183 | True exactly for strings at Levenshtein distance at most 1. |
| Near.NearIsOneEdit | demo/extract.py:178-183 | The same as differing by at most one inserted, dropped or changed character. |
| Rows.MeetsIs | demo/extract.py:209-214 | What each round compares, column by column. |
| Pairing.KeysServe | demo/extract.py:191-208 | Taking the row with one's own counted key is first come, first served: each row in order takes the first row left with its key. |
| Pairing.MatchKeys | demo/extract.py:191-208 | The dictionary of counted keys makes the first round: pairs, rows left and their order. |
| FirstCome.ChoiceIsOne | demo/extract.py:209-221 | First come, first served has only one outcome. |
| FirstCome.RoundLeaves | demo/extract.py:209-221 | After a round no two rows left meet by its rule. |
| FirstCome.RoundAccounts | demo/extract.py:209-221 | A round loses no row and makes up none. |
| Pairing.MatchTwins | demo/extract.py:216-221 | One round of a twin rule, with rows removed from the lists by their value: each row left, in order, takes the first row left that is its twin. |
| Pairing.PairRows | demo/extract.py:186-222 | Four rounds, by key and then by the twin rules in order, each on what the one before left; then the rows left alone. |
| FirstCome.PairsAreOne | demo/extract.py:186-222 | That has only one answer: which row gets which partner, and the order of the pairs. |
| FirstCome.ServedIsPaired | demo/extract.py:186-222 | Every row of either reading is in exactly one pair, no pair is empty, every match is by key or a twin rule, and no two unmatched rows are partners. |
| Comparing.Restated | demo/extract.py:225-233 | A row is dropped if and only if an earlier kept row has its key and numbers; the others stay in order. |
| Comparing.RestatesIs | demo/extract.py:231-232 | Key and numbers are symbol, condition, min, typ and max. |
| Comparing.TallyAccounts | demo/extract.py:249-303 | Every outcome is counted once, as agreed, disputed or settled. |
| Comparing.KeptRowIsSettled | demo/extract.py:278-300 | A kept row that is not just typical holds in every field what both readings agree on or what was ruled, and no absent row. |
| Comparing.Compare | demo/extract.py:249-303 | compared = agreed + disputes + settled + 5 typical, over the pairing of the rows not restated. A row of one reader is kept as typical, marked and counted, exactly if neither its min nor its max is a bound and nothing in it is ruled; of every other pair each field that is not the same in both is among the disputes, or with its ruling among the settled; both of these hold nothing else. A row is kept exactly if it is typical or each field is agreed or ruled and none absent. The disputes are in order of pages, symbol, condition and field. |
| Comparing.OutcomesTell | demo/extract.py:258-303 | That follows of whatever rows were paired; a dispute shows symbol or parameter, condition, what the first and the second reading say, and their pages. |
| Ordering.Sort | demo/extract.py:301-302 | In order of the key, the same items, equal keys in the order they had. |
| Ordering.SortedIsOne | demo/extract.py:301-302 | There is only one such order. |
| Ordering.LexIs | demo/extract.py:301-302 | Of two lists the one comes first that is smaller where they first differ, or ends there. |
| Rulings.ReadRulings | demo/extract.py:240-246 | The whole file fails if and only if a ruled row's symbol has no letter or digit; otherwise each key has its last ruling. |
| Rulings.RulingFindsField | demo/extract.py:236-246 | A ruling written beside a dispute has the key of the dispute's field if the row's symbol has a letter or digit, or is empty and the parameter has; otherwise, and only then, it makes the file fail. |
| Rulings.RulingSettles | demo/extract.py:284-300 | With a file that can be read, a field with a ruling beside it is not disputed again: it is agreed, or settled as the last row for it says. |

## Left out

- Rulings.ReadRulings: the file's cells are given as text and its field column as a known field; csv's quoting and short rows are left out.
- Comparing.Compare: takes the cell rules (keys, sameness of numbers, pages, dates) as parameters; the text patterns behind them are not modelled.
- Mouse.Encode: strokes have at least one corner, as the source indexes the first.
- Drift.DriftOf: strokes have two corners or more, since on a single corner the source has no segment to measure to and raises; `pen_path` makes strokes of three or more (`Journey.StrokesAreLines`).
- Raster.Rasterise: die sizes are at least one row high, as the source indexes the first row; covers are exact integers.
- Journey.DrawDie: the die has a width and a height, as the source divides by the one and indexes the first row of squares; writing the files and printing is left out.
- Spread.Spread: labels are totally ordered; a mixture of names and None, which the source cannot sort, is not part of this model.
- BoardHost.EnsureAfter: the callback chain of `watch_enables` is a count of one for each enable.
- ReportQueue.Reports.Pop: the report ID byte in front of each report is left off, and serve's use of the queue is every sequence of starts, hand-outs, takes, put-backs and checks with at most one report pending; the rest of `demo_usb.serve` is not part of this model.
- SpiFrames.Read: gives a frame's register and words instead of their text; the names of the registers are not part of this model.
- DouglasPeucker.Simplify: where several corners that are not kept lie equally far from the first split's chord, the put-back corner is the one with the least index; the source takes whichever its set yields first, so that there `Journey.DrawingIsOne` rests on a set of small numbers being gone through in order.
- Floating-point rounding: every number is exact, and distances are compared as squares.
- Pixels are one colour each rather than three bytes; PNG and SVG output is left out.
- The kernel, its load checker and the RTL: their sources are not part of this model, nor are certificates.
- Bench plumbing: processes, serial ports, the analyser, evidence folders, Pico pins, PIO and clocks.
- A running engine that ignores configuration and load writes; the board host model has the engines halted.
- `crc5` and other finite tables, reading of DEF, LEF, Verilog and VCD files, and the choice of seeds in `label`.
