/** What `replay` of demo/draw.py makes of any reports at all: where the pointer goes, what is drawn and
    what is not. */
module Played {
  import opened Wrappers
  import opened Squares
  import opened Mouse

  predicate IsHeld(r: Report) {
    r.buttons % 2 == 1
  }

  /** Where the pointer is after the first k reports. */
  function At(reports: seq<Report>, k: nat): Point
    requires k <= |reports|
  {
    if k == 0 then Point(0, 0)
    else
      var p, r := At(reports, k - 1), reports[k - 1];
      Point(p.x + (if r.dx < 128 then r.dx else r.dx - 256), p.y + if r.dy < 128 then r.dy else r.dy - 256)
  }

  /** Report k presses the button. */
  predicate Presses(reports: seq<Report>, k: nat) {
    k < |reports| && IsHeld(reports[k]) && (k == 0 || !IsHeld(reports[k - 1]))
  }

  /** Of the first k reports, how many press the button. */
  function PressCount(reports: seq<Report>, k: nat): nat
    requires k <= |reports|
  {
    if k == 0 then 0 else PressCount(reports, k - 1) + if Presses(reports, k - 1) then 1 else 0
  }

  /** How many reports before k, one after the other, hold the button. */
  function HeldBefore(reports: seq<Report>, k: nat): nat
    requires k <= |reports|
  {
    if k == 0 || !IsHeld(reports[k - 1]) then 0 else HeldBefore(reports, k - 1) + 1
  }

  /** How many of the first k hold it. */
  function HeldCount(reports: seq<Report>, k: nat): nat
    requires k <= |reports|
  {
    if k == 0 then 0 else HeldCount(reports, k - 1) + if IsHeld(reports[k - 1]) then 1 else 0
  }

  function PointCount(drawn: seq<Stroke>): nat {
    if drawn == [] then 0 else PointCount(drawn[..|drawn| - 1]) + |drawn[|drawn| - 1]|
  }

  /** A polyline for each press; of the reports that hold the button each adds the point it goes to, to the
      polyline of the press before it and after those since then; and there are no other points. */
  ghost predicate Draws(reports: seq<Report>, n: nat, drawn: seq<Stroke>)
    requires n <= |reports|
  {
    && |drawn| == PressCount(reports, n) && PointCount(drawn) == HeldCount(reports, n)
    && forall k: nat :: k < n && IsHeld(reports[k]) ==> DrawsPoint(reports, k, drawn)
  }

  ghost predicate DrawsPoint(reports: seq<Report>, k: nat, drawn: seq<Stroke>)
    requires k < |reports|
  {
    var line, i := PressCount(reports, k + 1) - 1, HeldBefore(reports, k);
    0 <= line < |drawn| && i < |drawn[line]| && drawn[line][i] == At(reports, k + 1)
  }

  /** The moves without the button, those that go somewhere. */
  function Lifts(reports: seq<Report>, n: nat): seq<(Point, Point)>
    requires n <= |reports|
  {
    if n == 0 then []
    else
      var from, to := At(reports, n - 1), At(reports, n);
      if IsHeld(reports[n - 1]) || from == to then Lifts(reports, n - 1) else Lifts(reports, n - 1) + [(from, to)]
  }

  ghost predicate NoneTooFar(reports: seq<Report>, n: nat)
    requires n <= |reports|
  {
    forall k :: 0 <= k < n ==> reports[k].dx != 128 && reports[k].dy != 128
  }

  /** What the host has after the first n reports. */
  ghost predicate HasPlayed(reports: seq<Report>, n: nat, s: Screen)
    requires n <= |reports|
  {
    && s.at == At(reports, n) && Draws(reports, n, s.drawn) && s.lifted == Lifts(reports, n)
    && (s.held <==> n > 0 && IsHeld(reports[n - 1]))
    && (s.held ==> s.drawn != [] && |s.drawn[|s.drawn| - 1]| == HeldBefore(reports, n))
  }

  lemma MovesTo(reports: seq<Report>, n: nat, s: Screen)
    requires n < |reports| && s.at == At(reports, n) && reports[n].dx != 128 && reports[n].dy != 128
    ensures Play(s, reports[n]).Some? && Play(s, reports[n]).value.at == At(reports, n + 1)
  {
  }

  lemma PointsMore(drawn: seq<Stroke>, more: Stroke)
    ensures PointCount(drawn + [more]) == PointCount(drawn) + |more|
  {
    assert (drawn + [more])[..|drawn|] == drawn;
  }

  lemma PressMore(reports: seq<Report>, n: nat, drawn: seq<Stroke>)
    requires n < |reports| && Draws(reports, n, drawn) && Presses(reports, n)
    ensures Draws(reports, n + 1, drawn + [[At(reports, n + 1)]])
  {
    var more := drawn + [[At(reports, n + 1)]];
    PointsMore(drawn, [At(reports, n + 1)]);
    assert HeldBefore(reports, n) == 0;
    forall k: nat | k < n + 1 && IsHeld(reports[k]) ensures DrawsPoint(reports, k, more) {
      if k < n { assert DrawsPoint(reports, k, drawn); }
    }
  }

  lemma HoldMore(reports: seq<Report>, n: nat, drawn: seq<Stroke>)
    requires n < |reports| && Draws(reports, n, drawn) && IsHeld(reports[n]) && n > 0 && IsHeld(reports[n - 1])
    requires drawn != [] && |drawn[|drawn| - 1]| == HeldBefore(reports, n)
    ensures Draws(reports, n + 1, drawn[..|drawn| - 1] + [drawn[|drawn| - 1] + [At(reports, n + 1)]])
  {
    var front, last := drawn[..|drawn| - 1], drawn[|drawn| - 1];
    var more := front + [last + [At(reports, n + 1)]];
    assert drawn == front + [last];
    PointsMore(front, last);
    PointsMore(front, last + [At(reports, n + 1)]);
    forall k: nat | k < n + 1 && IsHeld(reports[k]) ensures DrawsPoint(reports, k, more) {
      if k < n {
        assert DrawsPoint(reports, k, drawn);
        PointStays(reports, k, drawn, front, last, At(reports, n + 1));
      }
    }
  }

  lemma PointStays(reports: seq<Report>, k: nat, drawn: seq<Stroke>, front: seq<Stroke>, last: Stroke, p: Point)
    requires k < |reports| && drawn == front + [last] && DrawsPoint(reports, k, drawn)
    ensures DrawsPoint(reports, k, front + [last + [p]])
  {
  }

  lemma DrawsStill(reports: seq<Report>, n: nat, drawn: seq<Stroke>)
    requires n < |reports| && Draws(reports, n, drawn) && !IsHeld(reports[n])
    ensures Draws(reports, n + 1, drawn)
  {
  }

  lemma PlayedMore(reports: seq<Report>, n: nat, s: Screen)
    requires n < |reports| && HasPlayed(reports, n, s) && reports[n].dx != 128 && reports[n].dy != 128
    ensures Play(s, reports[n]).Some? && HasPlayed(reports, n + 1, Play(s, reports[n]).value)
  {
    MovesTo(reports, n, s);
    if !IsHeld(reports[n]) {
      DrawsStill(reports, n, s.drawn);
    } else if s.held {
      HoldMore(reports, n, s.drawn);
    } else {
      PressMore(reports, n, s.drawn);
    }
  }

  /** Playing any reports fails exactly if one of them moves -128, and else leaves this. */
  lemma {:induction false} PlayIs(reports: seq<Report>, n: nat)
    requires n <= |reports|
    ensures PlayAll(BLANK, reports[..n]).Some? <==> NoneTooFar(reports, n)
    ensures NoneTooFar(reports, n) ==> HasPlayed(reports, n, PlayAll(BLANK, reports[..n]).value)
  {
    if n > 0 {
      PlayIs(reports, n - 1);
      assert reports[..n][..n - 1] == reports[..n - 1];
      if NoneTooFar(reports, n) { PlayedMore(reports, n - 1, PlayAll(BLANK, reports[..n - 1]).value); }
    }
  }

  /** The reports that the bytes after the first are, three by three. */
  ghost predicate AreReports(data: seq<Byte>, reports: seq<Report>) {
    && |data| == 1 + 3 * |reports|
    && forall k :: 0 <= k < |reports| ==> reports[k] == Report(data[3 * k + 1], data[3 * k + 2], data[3 * k + 3])
  }

  lemma {:induction false} ReportsAre(data: seq<Byte>, n: nat)
    requires n == 0 || 1 + 3 * n <= |data|
    ensures var reports := ReportsIn(data, n);
      && |reports| == n
      && forall k :: 0 <= k < n ==> reports[k] == Report(data[3 * k + 1], data[3 * k + 2], data[3 * k + 3])
  {
    if n > 0 { ReportsAre(data, n - 1); }
  }

  /** Replaying fails exactly if a report is cut short or one moves -128; else the host has played the
      bytes' reports. */
  lemma ReplayedIs(data: seq<Byte>, reports: seq<Report>)
    requires AreReports(data, reports)
    ensures Replayed(data).Some? <==> NoneTooFar(reports, |reports|)
    ensures Replayed(data).Some? ==> HasPlayed(reports, |reports|, Replayed(data).value)
  {
    ReportsAre(data, Whole(data));
    assert ReportsIn(data, Whole(data)) == reports;
    PlayIs(reports, |reports|);
    assert reports[..|reports|] == reports;
  }

  lemma CutShortFails(data: seq<Byte>)
    ensures data != [] && (|data| - 1) % 3 != 0 ==> Replayed(data) == None
    ensures data == [] ==> Replayed(data) == Some(BLANK)
  {
  }
}
