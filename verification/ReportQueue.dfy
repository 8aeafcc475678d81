/** class `Reports` and `stopping` of python/demo_draw.py, and the laptop that takes the
    reports: `demo_usb.serve` pops one only when none is pending, and it is then taken, or put
    back by a bus reset. */
module ReportQueue {
  import opened Wrappers
  import opened Mouse

  /** The queue's fields: the next byte of draw.bin, the reports put back, when to start, the
      buttons of the last report handed out, and whether it was stopped. */
  datatype Queue = Queue(at: nat, back: seq<Report>, startMs: Option<int>, held: Byte, stopped: bool)

  const FRESH: Queue := Queue(1, [], None, 0, false)

  /** The reports of draw.bin from byte `at` on. */
  function Rest(data: seq<Byte>, at: nat): (rest: seq<Report>)
    decreases |data| - at
  {
    if at + 3 > |data| then []
    else [Report(data[at], data[at + 1], data[at + 2])] + Rest(data, at + 3)
  }

  function Length(data: seq<Byte>, q: Queue, now: int): int {
    if q.startMs == None || now - q.startMs.value < 0 then 0
    else |q.back| + (|data| - q.at) / 3
  }

  function Started(q: Queue, now: int, waitMs: int): Queue {
    if q.startMs == None then q.(startMs := Some(now + waitMs)) else q
  }

  function Popped(data: seq<Byte>, q: Queue): (Report, Queue)
    requires q.back != [] || q.at + 3 <= |data|
  {
    if q.back != [] then (q.back[0], q.(back := q.back[1..], held := q.back[0].buttons))
    else
      var r := Report(data[q.at], data[q.at + 1], data[q.at + 2]);
      (r, q.(at := q.at + 3, held := r.buttons))
  }

  function PutBack(q: Queue, r: Report): Queue {
    q.(back := [r] + q.back)
  }

  function Stopped(data: seq<Byte>, q: Queue, now: int): Queue {
    q.(at := |data|, stopped := true, startMs := Some(now), back := if q.held != 0 then [RELEASE] else q.back)
  }

  /** The queue as the Pico keeps it. */
  class Reports {
    const data: seq<Byte>
    var at: nat
    var back: seq<Report>
    var startMs: Option<int>
    var held: Byte
    var stopped: bool

    function State(): Queue
      reads this
    {
      Queue(at, back, startMs, held, stopped)
    }

    constructor (data: seq<Byte>)
      ensures this.data == data && State() == FRESH
    {
      this.data := data;
      at, back, startMs, held, stopped := 1, [], None, 0, false;
    }

    method Len(now: int) returns (length: int)
      ensures length == Length(data, State(), now)
    {
      if startMs == None || now - startMs.value < 0 { return 0; }
      return |back| + (|data| - at) / 3;
    }

    method Start(now: int, waitMs: int)
      modifies this`startMs
      ensures State() == Started(old(State()), now, waitMs)
    {
      if startMs == None { startMs := Some(now + waitMs); }
    }

    method Pop() returns (report: Report)
      requires back != [] || at + 3 <= |data|
      modifies this`back, this`at, this`held
      ensures (report, State()) == Popped(data, old(State()))
    {
      if back != [] {
        report, back := back[0], back[1..];
      } else {
        report := Report(data[at], data[at + 1], data[at + 2]);
        at := at + 3;
      }
      held := report.buttons;
    }

    method Insert(report: Report)
      modifies this`back
      ensures State() == PutBack(old(State()), report)
    {
      back := [report] + back;
    }

    method Stop(now: int)
      modifies this
      ensures State() == Stopped(data, old(State()), now)
    {
      at, stopped := |data|, true;
      if held != 0 { back := [Report(0, 0, 0)]; }
      startMs := Some(now);
    }
  }

  // the check that ends serve

  const RELEASE_MS: int := 1000
  const POLL_MS: int := 20

  datatype Outcome = GoesOn | Ended(taken: bool)

  /** Since when it is interrupted, and when the console was last polled. */
  datatype Checking = Checking(since: Option<int>, polled: Option<int>)

  predicate Polls(k: Checking, now: int) {
    k.since == None && (k.polled == None || now - k.polled.value >= POLL_MS)
  }

  function Checked(k: Checking, now: int, interrupted: bool): Checking {
    if Polls(k, now) then Checking(if interrupted then Some(now) else None, Some(now)) else k
  }

  /** The queue after a check: stopped if the console is polled and says so. */
  function QueueChecked(data: seq<Byte>, q: Queue, k: Checking, now: int, stopMs: int, interrupted: bool): Queue {
    if Polls(k, now) && interrupted then Stopped(data, q, stopMs) else q
  }

  /** Whether it ends serve, and whether it then says that everything was taken. */
  function CheckEnds(data: seq<Byte>, q: Queue, k: Checking, now: int, lenMs: int, pending: bool): Outcome {
    var taken := Length(data, q, lenMs) <= 0 && !pending;
    if k.since.Some? && (taken || now - k.since.value > RELEASE_MS) then Ended(taken) else GoesOn
  }

  /** `stopping`'s check: polls the console, stops the queue once interrupted, and ends serve when
      the laptop has taken everything or has had RELEASE_MS to. */
  class Stopping {
    const queue: Reports
    var since: Option<int>
    var polled: Option<int>

    constructor (queue: Reports)
      ensures this.queue == queue && since == None && polled == None
    {
      this.queue, since, polled := queue, None, None;
    }

    /** The clock is read on entry, when the queue is stopped and for its length, in that order;
        `interrupted` is what the console says if it is polled. */
    method Check(now: int, stopMs: int, lenMs: int, interrupted: bool, pending: bool) returns (outcome: Outcome)
      requires now <= stopMs <= lenMs && queue.at <= |queue.data|
      modifies this, queue
      ensures var k := Checked(old(Checking(since, polled)), now, interrupted);
        && Checking(since, polled) == k
        && queue.State() == QueueChecked(queue.data, old(queue.State()), old(Checking(since, polled)), now, stopMs,
                                         interrupted)
        && outcome == CheckEnds(queue.data, queue.State(), k, now, lenMs, pending)
      ensures old(since).Some? ==> since == old(since) && polled == old(polled) && queue.State() == old(queue.State())
      ensures old(since) == None && old(polled).Some? && now - old(polled).value < POLL_MS ==>
                since == None && polled == old(polled) && queue.State() == old(queue.State()) && outcome == GoesOn
      ensures old(since) == None && (old(polled) == None || now - old(polled).value >= POLL_MS) ==>
                polled == Some(now) && since == (if interrupted then Some(now) else None)
                && queue.State() == if interrupted then Stopped(queue.data, old(queue.State()), stopMs)
                  else old(queue.State())
      ensures outcome.Ended? <==>
                since.Some? && ((Length(queue.data, queue.State(), lenMs) <= 0 && !pending)
                                || now - since.value > RELEASE_MS)
      ensures outcome.Ended? ==> (outcome.taken <==> Length(queue.data, queue.State(), lenMs) <= 0 && !pending)
    {
      if since == None && (polled == None || now - polled.value >= POLL_MS) {
        polled := Some(now);
        if interrupted {
          since := Some(now);
          queue.Stop(stopMs);
        }
      }
      if since.Some? {
        var length := queue.Len(lenMs);
        var taken := length <= 0 && !pending;
        if taken || now - since.value > RELEASE_MS { return Ended(taken); }
      }
      return GoesOn;
    }
  }

  /** Nothing before the start; from then on all reports that are left, those put back and those of draw.bin. */
  lemma {:induction false} LengthIsLeft(data: seq<Byte>, q: Queue, now: int)
    requires q.at <= |data|
    ensures q.startMs == None || now < q.startMs.value ==> Length(data, q, now) == 0
    ensures q.startMs.Some? && now >= q.startMs.value ==> Length(data, q, now) == |q.back| + |Rest(data, q.at)|
    decreases |data| - q.at
  {
    if q.at + 3 <= |data| {
      LengthIsLeft(data, q.(at := q.at + 3), now);
    }
  }

  // the queue, the laptop and the check

  /** The queue, the report handed out and not yet taken or put back, those taken, the clock, what the
      check knows, and what it ended serve with. */
  datatype Desk = Desk(queue: Queue, pending: Option<Report>, taken: seq<Report>, clock: int,
                       checking: Checking, outcome: Outcome)

  const START: Desk := Desk(FRESH, None, [], 0, Checking(None, None), GoesOn)

  /** What happens, so long after what happened before; a check reads the clock three times. */
  datatype Event =
    | Begin(after: nat, waitMs: int) | HandOut(after: nat) | Take | Reset
    | Check(after: nat, toStop: nat, toLen: nat, interrupted: bool)

  /** What happens on each event; one that cannot happen now changes nothing, and once serve has ended
      the laptop can only take what is pending. */
  function Happens(data: seq<Byte>, d: Desk, e: Event): Desk {
    if d.outcome.Ended? && !e.Take? then d
    else
      match e
      case Begin(after, waitMs) => var now := d.clock + after; d.(clock := now, queue := Started(d.queue, now, waitMs))
      case HandOut(after) =>
        var now := d.clock + after;
        if d.pending == None && CanPop(data, d.queue, now) then
          var (r, q) := Popped(data, d.queue); d.(clock := now, queue := q, pending := Some(r))
        else d.(clock := now)
      case Take =>
        if d.pending.Some? then d.(pending := None, taken := d.taken + [d.pending.value]) else d
      case Reset =>
        if d.pending.Some? then d.(pending := None, queue := PutBack(d.queue, d.pending.value)) else d
      case Check(after, toStop, toLen, interrupted) =>
        var now := d.clock + after;
        var stopMs := now + toStop;
        var q := QueueChecked(data, d.queue, d.checking, now, stopMs, interrupted);
        var k := Checked(d.checking, now, interrupted);
        d.(clock := stopMs + toLen, queue := q, checking := k,
           outcome := CheckEnds(data, q, k, now, stopMs + toLen, d.pending.Some?))
  }

  predicate CanPop(data: seq<Byte>, q: Queue, now: int) {
    Length(data, q, now) > 0 && (q.back != [] || q.at + 3 <= |data|)
  }

  function Runs(data: seq<Byte>, events: seq<Event>): Desk {
    if events == [] then START
    else Happens(data, Runs(data, events[..|events| - 1]), events[|events| - 1])
  }

  function PendingOf(d: Desk): seq<Report> {
    if d.pending.Some? then [d.pending.value] else []
  }

  /** Every report handed out, in order: taken, pending or put back. */
  function HandedOut(d: Desk): seq<Report> {
    d.taken + PendingOf(d) + d.queue.back
  }

  function LastButtons(reports: seq<Report>): Byte {
    if reports == [] then 0 else reports[|reports| - 1].buttons
  }

  /** What holds until the stop: nothing is lost, doubled or out of order. */
  ghost predicate Intact(data: seq<Byte>, d: Desk) {
    && !d.queue.stopped && d.queue.at >= 1 && d.checking.since == None && d.outcome == GoesOn
    && HandedOut(d) + Rest(data, d.queue.at) == Rest(data, 1)
    && |PendingOf(d)| + |d.queue.back| <= 1
    && d.queue.held == LastButtons(HandedOut(d))
  }

  /** What holds after it: what has been handed out is a prefix, then at most the one release,
      and its last report has the button up. */
  ghost predicate Ending(data: seq<Byte>, d: Desk, prefix: seq<Report>, released: bool) {
    && d.queue.stopped && d.queue.at == |data| && d.queue.startMs.Some? && d.queue.startMs.value <= d.clock
    && d.checking.since.Some? && (d.outcome == Ended(true) ==> d.pending == None && d.queue.back == [])
    && prefix <= Rest(data, 1)
    && HandedOut(d) == (if released then prefix + [RELEASE] else prefix)
    && LastButtons(HandedOut(d)) == 0
    && (d.queue.held == 0 || |d.taken + PendingOf(d)| <= |prefix|)
  }

  lemma IntactHandOut(data: seq<Byte>, d: Desk, after: nat)
    requires Intact(data, d)
    ensures Intact(data, Happens(data, d, HandOut(after)))
  {
    var e := Happens(data, d, HandOut(after));
    if d.pending == None && CanPop(data, d.queue, d.clock + after) {
      if d.queue.back == [] {
        assert HandedOut(e) == HandedOut(d) + [e.pending.value];
        assert HandedOut(e) + Rest(data, e.queue.at) == HandedOut(d) + Rest(data, d.queue.at);
      } else {
        assert HandedOut(e) == HandedOut(d);
      }
    }
  }

  /** A check that stops the queue. */
  predicate StopsNow(d: Desk, e: Event) {
    e.Check? && e.interrupted && d.outcome == GoesOn && Polls(d.checking, d.clock + e.after)
  }

  lemma IntactStep(data: seq<Byte>, d: Desk, e: Event)
    requires Intact(data, d) && !StopsNow(d, e)
    ensures Intact(data, Happens(data, d, e))
  {
    match e
    case HandOut(after) => IntactHandOut(data, d, after);
    case Begin(_, _) =>
    case Check(_, _, _, _) =>
    case Take => assert HandedOut(Happens(data, d, e)) == HandedOut(d);
    case Reset => assert HandedOut(Happens(data, d, e)) == HandedOut(d);
  }

  lemma StopIntact(data: seq<Byte>, d: Desk, e: Event) returns (prefix: seq<Report>, released: bool)
    requires Intact(data, d) && StopsNow(d, e)
    ensures Ending(data, Happens(data, d, e), prefix, released)
  {
    var f := Happens(data, d, e);
    released := d.queue.held != 0;
    prefix := if released then d.taken + PendingOf(d) else HandedOut(d);
    assert prefix <= HandedOut(d) <= Rest(data, 1);
    assert HandedOut(f) == if released then prefix + [RELEASE] else prefix;
    EndsEmpty(data, d, e);
  }

  /** When a check ends serve with everything taken, nothing is left to hand out: the wait is over
      once the queue has been stopped. */
  lemma EndsEmpty(data: seq<Byte>, d: Desk, e: Event)
    requires e.Check? && d.outcome == GoesOn
    requires var f := Happens(data, d, e);
             f.queue.at == |data| && f.queue.startMs.Some? && f.queue.startMs.value <= f.clock
    ensures var f := Happens(data, d, e); f.outcome == Ended(true) ==> f.pending == None && f.queue.back == []
  {
  }

  lemma EndingStep(data: seq<Byte>, d: Desk, e: Event, prefix: seq<Report>, released: bool)
    requires Ending(data, d, prefix, released)
    ensures Ending(data, Happens(data, d, e), prefix, released)
  {
    EndingKeeps(data, d, e);
    EndingHeld(data, d, e, prefix, released);
    if e.Check? && d.outcome == GoesOn { EndsEmpty(data, d, e); }
  }

  lemma EndingKeeps(data: seq<Byte>, d: Desk, e: Event)
    requires d.queue.at == |data| && d.checking.since.Some?
    ensures HandedOut(Happens(data, d, e)) == HandedOut(d)
  {
  }

  lemma EndingHeld(data: seq<Byte>, d: Desk, e: Event, prefix: seq<Report>, released: bool)
    requires Ending(data, d, prefix, released)
    ensures var f := Happens(data, d, e);
      f.queue.held == 0 || |f.taken + PendingOf(f)| <= |prefix|
  {
    var f := Happens(data, d, e);
    if e.HandOut? && f.pending.Some? && d.pending == None {
      assert f.pending.value == HandedOut(d)[|d.taken|];
      assert f.queue.held == f.pending.value.buttons;
    }
  }

  lemma {:induction false} RunHolds(data: seq<Byte>, events: seq<Event>) returns (prefix: seq<Report>, released: bool)
    requires data != []
    ensures var d := Runs(data, events); if d.queue.stopped then Ending(data, d, prefix, released) else Intact(data, d)
  {
    if events == [] {
      prefix, released := [], false;
      assert HandedOut(START) + Rest(data, 1) == Rest(data, 1);
    } else {
      var n := |events| - 1;
      var d := Runs(data, events[..n]);
      prefix, released := RunHolds(data, events[..n]);
      if d.queue.stopped {
        EndingStep(data, d, events[n], prefix, released);
      } else if StopsNow(d, events[n]) {
        prefix, released := StopIntact(data, d, events[n]);
      } else {
        IntactStep(data, d, events[n]);
      }
    }
  }

  /** Of the events, event i is the first that starts the queue. */
  ghost predicate StartsFirst(events: seq<Event>, i: nat) {
    i < |events| && events[i].Begin? && forall j :: 0 <= j < i ==> !events[j].Begin?
  }

  /** When the queue's wait is over: so long after it was started first. */
  ghost predicate WaitOver(data: seq<Byte>, events: seq<Event>, i: nat, at: int) {
    StartsFirst(events, i) && at == Runs(data, events[..i + 1]).clock + events[i].waitMs
  }

  /** Until a stop the start is set once. */
  lemma StartStays(data: seq<Byte>, d: Desk, e: Event)
    requires d.outcome == GoesOn && !Happens(data, d, e).queue.stopped
    ensures var f := Happens(data, d, e);
      && !d.queue.stopped
      && f.queue.startMs == if d.queue.startMs == None && e.Begin? then Some(f.clock + e.waitMs) else d.queue.startMs
  {
  }

  ghost predicate NeverStarts(events: seq<Event>) {
    forall j :: 0 <= j < |events| ==> !events[j].Begin?
  }

  /** The start is the end of the wait from the first start, if there is one. */
  ghost predicate StartedSo(data: seq<Byte>, events: seq<Event>, start: Option<int>) {
    if start == None then NeverStarts(events) else exists i: nat :: WaitOver(data, events, i, start.value)
  }

  lemma {:induction false} StartIsFirst(data: seq<Byte>, events: seq<Event>)
    requires data != [] && !Runs(data, events).queue.stopped
    ensures StartedSo(data, events, Runs(data, events).queue.startMs)
  {
    if events != [] {
      var n := |events| - 1;
      var prefix, released := RunHolds(data, events[..n]);
      StartStays(data, Runs(data, events[..n]), events[n]);
      StartIsFirst(data, events[..n]);
      StartMore(data, events, Runs(data, events[..n]).queue.startMs);
    }
  }

  lemma StartMore(data: seq<Byte>, events: seq<Event>, start: Option<int>)
    requires events != [] && StartedSo(data, events[..|events| - 1], start)
    ensures var e := events[|events| - 1];
      StartedSo(data, events, if start == None && e.Begin? then Some(Runs(data, events).clock + e.waitMs) else start)
  {
    var n := |events| - 1;
    assert events == events[..n] + [events[n]];
    if start.Some? {
      var i: nat :| WaitOver(data, events[..n], i, start.value);
      StartsStill(data, events[..n], events[n], i, start.value);
    } else if events[n].Begin? {
      assert events[..n + 1] == events;
      assert WaitOver(data, events, n, Runs(data, events).clock + events[n].waitMs);
    }
  }

  lemma StartsStill(data: seq<Byte>, events: seq<Event>, e: Event, i: nat, at: int)
    requires WaitOver(data, events, i, at)
    ensures WaitOver(data, events + [e], i, at)
  {
    assert (events + [e])[..i + 1] == events[..i + 1];
  }

  /** A report is handed out only once the wait is over, that runs from the first start, or after a stop. */
  lemma HandsOutAfterWait(data: seq<Byte>, events: seq<Event>, after: nat)
    requires data != [] && Runs(data, events).pending == None
    requires Runs(data, events + [HandOut(after)]).pending.Some?
    ensures Runs(data, events).queue.stopped
            || exists i: nat, over: int :: WaitOver(data, events, i, over) && over <= Runs(data, events).clock + after
  {
    assert (events + [HandOut(after)])[..|events|] == events;
    if !Runs(data, events).queue.stopped {
      StartIsFirst(data, events);
      var start := Runs(data, events).queue.startMs;
      assert start.Some? && start.value <= Runs(data, events).clock + after;
    }
  }

  /** Until it is stopped the laptop takes a prefix of draw.bin's reports, in order. */
  lemma TakesPrefix(data: seq<Byte>, events: seq<Event>)
    requires data != [] && !Runs(data, events).queue.stopped
    ensures Runs(data, events).taken <= Rest(data, 1)
  {
    var prefix, released := RunHolds(data, events);
    var d := Runs(data, events);
    assert d.taken <= HandedOut(d) + Rest(data, d.queue.at);
  }

  /** In every run at all it takes a prefix, and then at most one release. */
  lemma TakesPrefixThenRelease(data: seq<Byte>, events: seq<Event>) returns (prefix: seq<Report>)
    requires data != []
    ensures prefix <= Rest(data, 1)
    ensures var taken := Runs(data, events).taken; taken == prefix || taken == prefix + [RELEASE]
  {
    var whole, released := RunHolds(data, events);
    var d := Runs(data, events);
    if d.queue.stopped {
      assert d.taken <= HandedOut(d);
      prefix := if |d.taken| <= |whole| then d.taken else whole;
    } else {
      TakesPrefix(data, events);
      prefix := d.taken;
    }
  }

  /** Once it is stopped and everything handed out has been taken, the button is up. */
  lemma DrainedIsUp(data: seq<Byte>, events: seq<Event>)
    requires data != []
    requires var d := Runs(data, events); d.queue.stopped && d.pending == None && d.queue.back == []
    ensures LastButtons(Runs(data, events).taken) == 0
  {
    var prefix, released := RunHolds(data, events);
    var d := Runs(data, events);
    assert HandedOut(d) == d.taken;
  }

  /** In every run in which a check ended serve saying that everything was taken, it was stopped, and
      the button is up. */
  lemma EndedIsUp(data: seq<Byte>, events: seq<Event>)
    requires data != [] && Runs(data, events).outcome == Ended(true)
    ensures Runs(data, events).queue.stopped && LastButtons(Runs(data, events).taken) == 0
  {
    var prefix, released := RunHolds(data, events);
    DrainedIsUp(data, events);
  }

  /** The reports it takes are those that draw.bin was encoded from. */
  lemma RestOfEncoded(wait: Byte, reports: seq<Report>)
    ensures Rest([wait] + Flat(reports), 1) == reports
  {
    ReportsOfFlat(wait, reports);
    RestIsReportsIn([wait] + Flat(reports), |reports|, 0);
  }

  lemma {:induction false} RestIsReportsIn(data: seq<Byte>, n: nat, k: nat)
    requires |data| == 1 + 3 * n && k <= n
    ensures |ReportsIn(data, n)| == n && Rest(data, 1 + 3 * k) == ReportsIn(data, n)[k..]
    decreases n - k
  {
    ReportsInAt(data, n);
    if k < n {
      RestIsReportsIn(data, n, k + 1);
    }
  }

  lemma {:induction false} ReportsInAt(data: seq<Byte>, n: nat)
    requires n == 0 || 1 + 3 * n <= |data|
    ensures |ReportsIn(data, n)| == n
    ensures forall k :: 0 <= k < n ==>
            ReportsIn(data, n)[k] == Report(data[3 * k + 1], data[3 * k + 2], data[3 * k + 3])
  {
    if n > 0 {
      ReportsInAt(data, n - 1);
    }
  }
}
