/** The V2 battery scheduler: `Battery::schedule_set_current` and the background thread.

    Clock readings are parameters. Each locked region is one atomic step. The state machine at
    value level (`Scheduled`, `Woken`) is what the methods of class `Battery` are proved against;
    the theorems are about the state machine and its runs.
 */
module BatteryScheduler {
  import opened Options
  import opened EventQueue

  /** A requested current, with the sense in which it is meant. */
  datatype Setpoint = Setpoint(current: int, isGreaterThan: bool)

  const REFRESH_SEQUENCE_NUMBER: nat := 2147483647
  /** The smallest staleness that allows background refresh, in clock ticks. */
  const MIN_BACKGROUND_STALENESS: nat := 100

  type Delay = (int, int) -> nat

  datatype State = State(
    queue: seq<Event>,
    now: Setpoint,
    nextSequence: nat,
    active: bool,
    maxStaleness: nat,
    clock: int)  // no clock reading so far was later than this

  /** A `schedule_set_current` call, with the three clock readings it takes. */
  datatype Request = Request(
    target: Setpoint, from: int, until: int,
    readAt: int, beginAdded: int, endAdded: int)

  /** A wake-up of the background thread: the last clock reading of the drain loop, the driver's
      answer if it is asked, and the two readings for the next refresh event if there is one. */
  datatype Wakeup = Wakeup(at: int, driverOk: bool, refreshAt: int, refreshAdded: int)

  // ----- the timeline of a battery -----

  /** What the battery will be asked to deliver at time `t`. */
  function Profile(q: seq<Event>, now: Setpoint, t: int): (r: Setpoint)
  {
    match InForce(q, 0, t)
    case None => now
    case Some(e) => Setpoint(e.current, e.isGreaterThan)
  }

  /** What every event of the queue satisfies. */
  ghost predicate Admissible(e: Event, nextSequence: nat, clock: int)
  {
    && e.timeAdded <= clock && e.child == 0 && !e.func.CancelEvent?
    && (if e.func.Refresh? then e.current == 0 else e.sequenceNumber < nextSequence)
  }

  ghost predicate GoodQueue(q: seq<Event>, nextSequence: nat, clock: int)
  {
    Sorted(q) && forall e :: e in q ==> Admissible(e, nextSequence, clock)
  }

  ghost predicate WellFormed(st: State)
  {
    GoodQueue(st.queue, st.nextSequence, st.clock)
  }

  // ----- scheduling -----

  /** The current estimated for the instant before `from`, which picks the first delay. The scan
      does not skip refresh events here, whose current is 0. */
  function BeforeSet(q: seq<Event>, base: int, from: int, until: int): (r: int)
  {
    if q == [] then base
    else
      var next := if q[0].timepoint <= from then q[0].current else base;
      if q[0].timepoint > until then next else BeforeSet(q[1..], next, from, until)
  }

  function EffectiveFrom(st: State, delay: Delay, rq: Request): (r: int)
  {
    rq.from - delay(BeforeSet(st.queue, st.now.current, rq.from, rq.until), rq.target.current)
  }

  function EffectiveUntil(st: State, delay: Delay, rq: Request): (r: int)
  {
    rq.until - delay(rq.target.current, Profile(st.queue, st.now, rq.until).current)
  }

  function BeginEvent(st: State, delay: Delay, rq: Request): (r: Event)
  {
    Event(EffectiveFrom(st, delay, rq), rq.beginAdded, st.nextSequence, SetCurrent,
          rq.target.current, rq.target.isGreaterThan, 0)
  }

  /** The end event resumes whatever the timeline held at the end of the interval. */
  function EndEvent(st: State, delay: Delay, rq: Request): (r: Event)
  {
    var until := EffectiveUntil(st, delay, rq);
    var resume := Profile(st.queue, st.now, until);
    Event(until, rq.endAdded, st.nextSequence + 1, SetCurrentEnd, resume.current, resume.isGreaterThan, 0)
  }

  predicate Accepts(rq: Request)
  {
    rq.from >= rq.readAt
  }

  function Scheduled(st: State, delay: Delay, rq: Request): (r: State)
  {
    if !Accepts(rq) then st.(clock := rq.readAt)
    else
      st.(queue := Rescheduled(st.queue, BeginEvent(st, delay, rq), EndEvent(st, delay, rq)),
          nextSequence := st.nextSequence + 2,
          clock := rq.endAdded)
  }

  ghost predicate InTime(st: State, rq: Request)
  {
    st.clock <= rq.readAt <= rq.beginAdded <= rq.endAdded
  }

  // ----- the background thread -----

  /** The set-current events of a stretch of the queue, in order. */
  function SetEvents(q: seq<Event>): (r: seq<Event>)
  {
    if q == [] then []
    else
      var last := q[|q| - 1];
      SetEvents(q[..|q| - 1]) + if last.func.SetCurrent? || last.func.SetCurrentEnd? then [last] else []
  }

  predicate HasRefresh(q: seq<Event>)
  {
    q != [] && (q[|q| - 1].func.Refresh? || HasRefresh(q[..|q| - 1]))
  }

  function RefreshEvent(at: int, added: int): (r: Event)
  {
    Event(at, added, REFRESH_SEQUENCE_NUMBER, Refresh, 0, false, 0)
  }

  /** The state after the first `n` events are taken out and acted on. */
  function Taken(st: State, n: nat, w: Wakeup): (r: State)
    requires n <= |st.queue|
  {
    var now' := if w.driverOk then Profile(st.queue[..n], st.now, w.at) else st.now;
    if st.active && HasRefresh(st.queue[..n]) then
      st.(queue := Emplace(st.queue[n..], RefreshEvent(w.refreshAt + st.maxStaleness, w.refreshAdded)),
          now := now', clock := w.refreshAdded)
    else
      st.(queue := st.queue[n..], now := now', clock := w.at)
  }

  function Woken(st: State, w: Wakeup): (r: State)
  {
    Taken(st, DueCount(st.queue, w.at), w)
  }

  ghost predicate WakeInTime(st: State, w: Wakeup)
  {
    st.clock <= w.at <= w.refreshAt <= w.refreshAdded
  }

  function RefreshStarted(st: State, readAt: int, added: int): (r: State)
  {
    if st.maxStaleness < MIN_BACKGROUND_STALENESS then st
    else
      st.(active := true, clock := added,
          queue := Emplace(st.queue, RefreshEvent(readAt + st.maxStaleness, added)))
  }

  // ----- every step keeps the queue well formed -----

  lemma FreshPair(st: State, delay: Delay, rq: Request)
    requires WellFormed(st) && InTime(st, rq)
    ensures Fresh(st.queue, BeginEvent(st, delay, rq), EndEvent(st, delay, rq))
  {
  }

  lemma ScheduledWellFormed(st: State, delay: Delay, rq: Request)
    requires WellFormed(st) && InTime(st, rq)
    ensures WellFormed(Scheduled(st, delay, rq))
  {
    if Accepts(rq) {
      FreshPair(st, delay, rq);
      RescheduledContents(st.queue, BeginEvent(st, delay, rq), EndEvent(st, delay, rq));
    }
  }

  lemma GoodSuffix(q: seq<Event>, n: nat, nextSequence: nat, clock: int, later: int)
    requires GoodQueue(q, nextSequence, clock) && n <= |q| && clock <= later
    ensures GoodQueue(q[n..], nextSequence, later)
  {
    forall e | e in q[n..] ensures Admissible(e, nextSequence, later) {
      assert Admissible(e, nextSequence, clock);
    }
  }

  lemma GoodEmplace(q: seq<Event>, r: Event, nextSequence: nat, clock: int)
    requires GoodQueue(q, nextSequence, clock) && Admissible(r, nextSequence, clock)
    ensures GoodQueue(Emplace(q, r), nextSequence, clock)
  {
    EmplaceKeepsOrder(q, r);
  }

  lemma TakenWellFormed(st: State, n: nat, w: Wakeup)
    requires WellFormed(st) && WakeInTime(st, w) && n <= |st.queue|
    ensures WellFormed(Taken(st, n, w))
  {
    if st.active && HasRefresh(st.queue[..n]) {
      GoodSuffix(st.queue, n, st.nextSequence, st.clock, w.refreshAdded);
      GoodEmplace(st.queue[n..], RefreshEvent(w.refreshAt + st.maxStaleness, w.refreshAdded),
                  st.nextSequence, w.refreshAdded);
    } else {
      GoodSuffix(st.queue, n, st.nextSequence, st.clock, w.at);
    }
  }

  lemma RefreshStartedWellFormed(st: State, readAt: int, added: int)
    requires WellFormed(st) && st.clock <= readAt <= added
    ensures WellFormed(RefreshStarted(st, readAt, added))
  {
    GoodSuffix(st.queue, 0, st.nextSequence, st.clock, added);
    assert st.queue[0..] == st.queue;
    GoodEmplace(st.queue, RefreshEvent(readAt + st.maxStaleness, added), st.nextSequence, added);
  }

  // ----- what one request does to the timeline -----

  /** The specification: the target inside [from, until), the old timeline outside. */
  function Overlaid(st: State, delay: Delay, rq: Request, t: int): (r: Setpoint)
  {
    if EffectiveFrom(st, delay, rq) <= t < EffectiveUntil(st, delay, rq) then rq.target
    else Profile(st.queue, st.now, t)
  }

  /** An ordered request is exactly an overlay, at every time. */
  lemma OrderedRequestOverlays(st: State, delay: Delay, rq: Request, t: int)
    requires WellFormed(st) && InTime(st, rq) && Accepts(rq)
    requires EffectiveFrom(st, delay, rq) <= EffectiveUntil(st, delay, rq)
    ensures Profile(Scheduled(st, delay, rq).queue, st.now, t) == Overlaid(st, delay, rq, t)
  {
    FreshPair(st, delay, rq);
    RescheduledInForce(st.queue, BeginEvent(st, delay, rq), EndEvent(st, delay, rq), t);
    if EffectiveUntil(st, delay, rq) <= t {
      InForceEarlier(st.queue, 0, EffectiveUntil(st, delay, rq), t);
    }
  }

  /** A request that ends before it begins is never undone: from its start on the target stays
      until the next event that was already queued. */
  lemma MisorderedRequestSticks(st: State, delay: Delay, rq: Request, t: int)
    requires WellFormed(st) && InTime(st, rq) && Accepts(rq)
    requires EffectiveFrom(st, delay, rq) > EffectiveUntil(st, delay, rq)
    ensures Profile(Scheduled(st, delay, rq).queue, st.now, t) ==
              if EffectiveFrom(st, delay, rq) <= t &&
                 InForce(st.queue, 0, t) == InForce(st.queue, 0, EffectiveFrom(st, delay, rq))
              then rq.target
              else Profile(st.queue, st.now, t)
  {
    var from, until := EffectiveFrom(st, delay, rq), EffectiveUntil(st, delay, rq);
    FreshPair(st, delay, rq);
    MisorderedInForce(st.queue, BeginEvent(st, delay, rq), EndEvent(st, delay, rq), t);
    if until <= t {
      InForceEarlier(st.queue, 0, until, t);
    }
    if from <= t {
      InForceEarlier(st.queue, 0, from, t);
      InForceIsLatest(st.queue, 0, from);
    }
  }

  /** Exactly when `schedule_set_current` meets its specification at every time: the interval, after
      the delays, is ordered, or the target is what the timeline already held at its start. */
  lemma OverlayExactly(st: State, delay: Delay, rq: Request)
    requires WellFormed(st) && InTime(st, rq) && Accepts(rq)
    ensures (forall t :: Profile(Scheduled(st, delay, rq).queue, st.now, t) == Overlaid(st, delay, rq, t))
            <==>
            (|| EffectiveFrom(st, delay, rq) <= EffectiveUntil(st, delay, rq)
             || Profile(st.queue, st.now, EffectiveFrom(st, delay, rq)) == rq.target)
  {
    var from, until := EffectiveFrom(st, delay, rq), EffectiveUntil(st, delay, rq);
    if from <= until {
      forall t ensures Profile(Scheduled(st, delay, rq).queue, st.now, t) == Overlaid(st, delay, rq, t) {
        OrderedRequestOverlays(st, delay, rq, t);
      }
    } else {
      forall t
        ensures Profile(Scheduled(st, delay, rq).queue, st.now, t) ==
                  if from <= t && InForce(st.queue, 0, t) == InForce(st.queue, 0, from)
                  then rq.target else Profile(st.queue, st.now, t)
      {
        MisorderedRequestSticks(st, delay, rq, t);
      }
      assert Profile(Scheduled(st, delay, rq).queue, st.now, from) == rq.target;
      assert Overlaid(st, delay, rq, from) == Profile(st.queue, st.now, from);
    }
  }

  /** A concrete failure: on an idle battery, a request for [5, 3) is in force for ever from 5 on. */
  lemma MisorderedRequestExample(delay: Delay, t: int)
    requires delay(0, 7) == 0 && delay(7, 0) == 0 && t >= 5
    ensures var st := Initial(1000, 0);
            var rq := Request(Setpoint(7, true), 5, 3, 0, 0, 0);
            Accepts(rq) && Profile(Scheduled(st, delay, rq).queue, st.now, t) == Setpoint(7, true)
  {
    var st := Initial(1000, 0);
    var rq := Request(Setpoint(7, true), 5, 3, 0, 0, 0);
    MisorderedRequestSticks(st, delay, rq, t);
  }

  /** The delays can turn an interval around that was ordered when the caller asked: a request for [5, 6) on an idle battery
      that needs 4 ticks to go back to 0 is in force for ever from 5 on. */
  lemma DelaysTurnAround(delay: Delay, t: int)
    requires delay(0, 7) == 0 && delay(7, 0) == 4 && t >= 5
    ensures var st := Initial(1000, 0);
            var rq := Request(Setpoint(7, true), 5, 6, 0, 0, 0);
            && Accepts(rq) && rq.from < rq.until
            && Profile(Scheduled(st, delay, rq).queue, st.now, t) == Setpoint(7, true)
  {
    var st := Initial(1000, 0);
    MisorderedRequestSticks(st, delay, Request(Setpoint(7, true), 5, 6, 0, 0, 0), t);
  }

  // ----- the current that picks the first delay -----

  /** How many events the first scan lets pick the delay: those up to the start, as far as the scan gets. It stops behind the
      first event past the end, which only matters when the end is before the start. */
  function Seen(q: seq<Event>, from: int, until: int): (n: nat)
    ensures n <= |q|
  {
    var m := DueCount(q, until);
    if from <= until then DueCount(q, from)
    else if m < |q| && q[m].timepoint <= from then m + 1
    else m
  }

  /** The scan ends with the current of the last event it sees, be it a refresh event. */
  lemma {:induction false} BeforeSetIsLast(q: seq<Event>, base: int, from: int, until: int)
    requires Sorted(q)
    ensures var n := Seen(q, from, until);
            BeforeSet(q, base, from, until) == if n == 0 then base else q[n - 1].current
  {
    if q != [] {
      var next := if q[0].timepoint <= from then q[0].current else base;
      if q[0].timepoint <= until {
        BeforeSetIsLast(q[1..], next, from, until);
      }
      if q[0].timepoint > from {
        SortedByTime(q, 0, from);
        BeforeSetLate(q, base, from, until);
      }
    }
  }

  /** The current that picks the first delay is the timeline's at the start if and only if the last event up to the start
      is not a refresh event, or the timeline holds 0 there anyway. */
  lemma BeforeSetIsProfile(st: State, from: int, until: int)
    requires WellFormed(st) && from <= until
    ensures var n, current := DueCount(st.queue, from), Profile(st.queue, st.now, from).current;
            BeforeSet(st.queue, st.now.current, from, until) == current <==>
            n == 0 || !st.queue[n - 1].func.Refresh? || current == 0
  {
    var q, n := st.queue, DueCount(st.queue, from);
    BeforeSetIsLast(q, st.now.current, from, until);
    if n < |q| {
      SortedByTime(q, n, from);
    }
    InForcePrefix(q, n, 0, from);
    if n > 0 {
      assert Admissible(q[n - 1], st.nextSequence, st.clock);
    }
  }

  /** So a request starts as early as the delay from the timeline's own current to the target asks for, whatever the delays
      are, under exactly that condition. */
  lemma DelayedStartExactly(st: State, rq: Request)
    requires WellFormed(st) && rq.from <= rq.until
    ensures var n, current := DueCount(st.queue, rq.from), Profile(st.queue, st.now, rq.from).current;
            (forall delay: Delay :: EffectiveFrom(st, delay, rq) == rq.from - delay(current, rq.target.current)) <==>
            n == 0 || !st.queue[n - 1].func.Refresh? || current == 0
  {
    var current := Profile(st.queue, st.now, rq.from).current;
    var before := BeforeSet(st.queue, st.now.current, rq.from, rq.until);
    BeforeSetIsProfile(st, rq.from, rq.until);
    if before != current {
      var delay: Delay := (a, b) => if a == before then 1 else 0;
      assert EffectiveFrom(st, delay, rq) == rq.from - 1;
    }
  }

  /** A refresh event in the way: with background refresh started at 0 and 7 requested for [10, 5000), a request for 3 on
      [2000, 3000) takes the delay from 0 to 3 for that from 7 to 3, and sets the battery to 3 before it was asked to. */
  lemma RefreshPicksDelay(delay: Delay)
    requires delay(0, 3) == 100 && delay(0, 7) == 0 && delay(7, 0) == 0 && delay(7, 3) == 0 && delay(3, 7) == 0
    ensures var steps := [StartRefresh(0, 0), Schedule(Request(Setpoint(7, true), 10, 5000, 0, 0, 0))];
            var st := Run(Initial(1000, 0), delay, steps);
            var rq := Request(Setpoint(3, true), 2000, 3000, 0, 0, 0);
            && LegalRun(Initial(1000, 0), delay, steps + [Schedule(rq)])
            && EffectiveFrom(st, delay, rq) == 1900
            && Profile(st.queue, st.now, 1950) == Setpoint(7, true)
            && Profile(Scheduled(st, delay, rq).queue, st.now, 1950) == Setpoint(3, true)
  {
    var init := Initial(1000, 0);
    var first, second := StartRefresh(0, 0), Schedule(Request(Setpoint(7, true), 10, 5000, 0, 0, 0));
    var rq := Request(Setpoint(3, true), 2000, 3000, 0, 0, 0);
    var steps := [first, second];
    assert steps[..1] == [first] && [first][..0] == [] && (steps + [Schedule(rq)])[..2] == steps;
    var st1 := RefreshStarted(init, 0, 0);
    var st := Scheduled(st1, delay, second.rq);
    assert Run(init, delay, [first]) == st1 && Run(init, delay, steps) == st;
    RefreshQueued(delay);
    assert LegalRun(init, delay, []) && LegalRun(init, delay, [first]) && LegalRun(init, delay, steps);
    hide Scheduled, Run, RefreshStarted, Profile, EffectiveFrom, EffectiveUntil;
    StartTooEarly(delay, st1, second.rq, st, rq);
  }

  /** The effect of the second request on the state that the refresh and the first request leave. */
  lemma StartTooEarly(delay: Delay, st1: State, first: Request, st: State, rq: Request)
    requires delay(0, 3) == 100 && delay(0, 7) == 0 && delay(7, 0) == 0 && delay(7, 3) == 0 && delay(3, 7) == 0
    requires st1 == RefreshStarted(Initial(1000, 0), 0, 0) && st == Scheduled(st1, delay, first)
    requires first == Request(Setpoint(7, true), 10, 5000, 0, 0, 0) && rq == Request(Setpoint(3, true), 2000, 3000, 0, 0, 0)
    ensures WellFormed(st) && EffectiveFrom(st, delay, rq) == 1900 && EffectiveUntil(st, delay, rq) == 3000
    ensures Profile(st.queue, st.now, 1950) == Setpoint(7, true)
    ensures Profile(Scheduled(st, delay, rq).queue, st.now, 1950) == Setpoint(3, true)
  {
    RefreshQueued(delay);
    RefreshAhead(delay);
    ScheduledWellFormed(st1, delay, first);
    hide RefreshStarted;
    forall t | 10 <= t < 5000 ensures Profile(st.queue, st.now, t) == Setpoint(7, true) {
      OrderedRequestOverlays(st1, delay, first, t);
    }
    BeforeSetIsLast(st.queue, 0, 2000, 3000);
    assert st.now == Setpoint(0, false);
    hide Scheduled, Seen, BeforeSet;
    OrderedRequestOverlays(st, delay, rq, 1950);
  }

  lemma RefreshQueued(delay: Delay)
    requires delay(0, 7) == 0 && delay(7, 0) == 0
    ensures var st := RefreshStarted(Initial(1000, 0), 0, 0);
            var rq := Request(Setpoint(7, true), 10, 5000, 0, 0, 0);
            && WellFormed(st) && st.queue == [RefreshEvent(1000, 0)] && st.now == Setpoint(0, false) && st.clock == 0
            && EffectiveFrom(st, delay, rq) == 10 && EffectiveUntil(st, delay, rq) == 5000
  {
    RefreshStartedWellFormed(Initial(1000, 0), 0, 0);
    var r := RefreshEvent(1000, 0);
    assert Emplace([], r) == [r];
    assert [r][1..] == [] && [r][..0] == [];
    assert InForce([r], 0, 5000).None?;
  }

  /** The refresh event at 1000 lies between the two events of the first request. */
  lemma RefreshAhead(delay: Delay)
    requires delay(0, 7) == 0 && delay(7, 0) == 0
    ensures var st1 := RefreshStarted(Initial(1000, 0), 0, 0);
            var st := Scheduled(st1, delay, Request(Setpoint(7, true), 10, 5000, 0, 0, 0));
            Seen(st.queue, 2000, 3000) == 2 && st.queue[1] == RefreshEvent(1000, 0)
  {
    RefreshQueued(delay);
    var st1, r := RefreshStarted(Initial(1000, 0), 0, 0), RefreshEvent(1000, 0);
    var rq := Request(Setpoint(7, true), 10, 5000, 0, 0, 0);
    var begin, end := BeginEvent(st1, delay, rq), EndEvent(st1, delay, rq);
    hide EffectiveFrom, EffectiveUntil, RefreshStarted, Profile;
    assert Overlapped([r], 0, 10, 5000) == {};
    EraseNothing([r]);
    assert [r][1..] == [] && [begin, r][1..] == [r];
    assert Emplace([r], begin) == [begin, r];
    assert Emplace([begin, r], end) == [begin, r, end];
    CountTwo([begin, r, end], 2000);
  }

  lemma CountTwo(q: seq<Event>, at: int)
    requires |q| == 3 && q[0].timepoint <= at && q[1].timepoint <= at < q[2].timepoint
    ensures DueCount(q, at) == 2
  {
  }

  lemma {:induction false} BeforeSetLate(q: seq<Event>, base: int, from: int, until: int)
    requires forall e :: e in q ==> e.timepoint > from
    ensures BeforeSet(q, base, from, until) == base
  {
    if q != [] {
      assert q[0] in q;
      BeforeSetLate(q[1..], base, from, until);
    }
  }

  // ----- what one wake-up does to the timeline -----

  /** Past the instant of a drain, the remaining events overlay the value drained up to then. */
  lemma DrainedProfile(q: seq<Event>, now: Setpoint, at: int, t: int)
    requires Sorted(q) && at <= t
    ensures var n := DueCount(q, at);
            && Sorted(q[n..])
            && Profile(q[..n], now, at) == Profile(q, now, at)
            && Profile(q, now, t) == Profile(q[n..], Profile(q, now, at), t)
  {
    DrainSplits(q, at, 0, t);
  }

  /** Whether or not the next refresh is queued, the remaining timeline is that of the rest. */
  lemma WokenProfile(st: State, w: Wakeup, base: Setpoint, t: int)
    requires Sorted(st.queue[DueCount(st.queue, w.at)..])
    ensures Profile(Woken(st, w).queue, base, t) == Profile(st.queue[DueCount(st.queue, w.at)..], base, t)
  {
    var rest := st.queue[DueCount(st.queue, w.at)..];
    var next := RefreshEvent(w.refreshAt + st.maxStaleness, w.refreshAdded);
    assert Woken(st, w).queue in [rest, Emplace(rest, next)];
    RefreshIsInvisible(rest, next, 0, t);
  }

  /** A wake-up whose driver call succeeds applies the timeline's value at its last clock reading and
      leaves the timeline alone from there on. */
  lemma WakeKeepsTimeline(st: State, w: Wakeup, t: int)
    requires WellFormed(st) && WakeInTime(st, w) && w.driverOk && w.at <= t
    ensures Woken(st, w).now == Profile(st.queue, st.now, w.at)
    ensures Profile(Woken(st, w).queue, Woken(st, w).now, t) == Profile(st.queue, st.now, t)
  {
    DrainedProfile(st.queue, st.now, w.at, t);
    WokenProfile(st, w, Woken(st, w).now, t);
  }

  /** When the driver refuses, the timeline survives exactly if nothing needed to change. */
  lemma RefusedWakeKeepsTimeline(st: State, w: Wakeup)
    requires WellFormed(st) && WakeInTime(st, w) && !w.driverOk
    ensures (forall t :: w.at <= t ==>
               Profile(Woken(st, w).queue, Woken(st, w).now, t) == Profile(st.queue, st.now, t))
            <==> Profile(st.queue, st.now, w.at) == st.now
  {
    var n := DueCount(st.queue, w.at);
    var st' := Woken(st, w);
    forall t | w.at <= t
      ensures Profile(st'.queue, st'.now, t) == Profile(st.queue[n..], st.now, t)
      ensures Profile(st.queue, st.now, t) ==
                Profile(st.queue[n..], Profile(st.queue, st.now, w.at), t)
    {
      DrainedProfile(st.queue, st.now, w.at, t);
      WokenProfile(st, w, st.now, t);
    }
    if n < |st.queue| {
      SortedByTime(st.queue, n, w.at);
    }
    InForcePrefix(st.queue[n..], 0, 0, w.at);
    assert Profile(st'.queue, st'.now, w.at) == st.now;
  }

  /** A driver that refuses once: the request for 7 on [5, 9) is due at 5, the driver refuses, and the battery stays idle
      at 6 although nothing else was asked of it. */
  lemma RefusedWakeExample(delay: Delay)
    requires delay(0, 7) == 0 && delay(7, 0) == 0
    ensures var st := Scheduled(Initial(1000, 0), delay, Request(Setpoint(7, false), 5, 9, 0, 0, 0));
            var st' := Woken(st, Wakeup(5, false, 5, 5));
            Profile(st.queue, st.now, 6) == Setpoint(7, false) && Profile(st'.queue, st'.now, 6) == Setpoint(0, false)
  {
    var rq := Request(Setpoint(7, false), 5, 9, 0, 0, 0);
    var begin, end := BeginEvent(Initial(1000, 0), delay, rq), EndEvent(Initial(1000, 0), delay, rq);
    var st := Scheduled(Initial(1000, 0), delay, rq);
    assert Overlapped([], 0, 5, 9) == {};
    assert Rescheduled([], begin, end) == [begin, end];
    OrderedRequestOverlays(Initial(1000, 0), delay, rq, 6);
    assert st.queue[1..] == [end] && [end][1..] == [] && [end][..0] == [];
    assert DueCount(st.queue, 5) == 1;
  }

  // ----- runs -----

  datatype Step =
    | Schedule(rq: Request)
    | Wake(w: Wakeup)
    | StartRefresh(readAt: int, added: int)
    | StopRefresh

  function Apply(st: State, delay: Delay, step: Step): (r: State)
  {
    match step
    case Schedule(rq) => Scheduled(st, delay, rq)
    case Wake(w) => Woken(st, w)
    case StartRefresh(readAt, added) => RefreshStarted(st, readAt, added)
    case StopRefresh => st.(active := false)
  }

  /** Clock readings do not go back, effective intervals are ordered, the driver does its work. */
  ghost predicate Legal(st: State, delay: Delay, step: Step)
  {
    match step
    case Schedule(rq) =>
      InTime(st, rq) && (Accepts(rq) ==> EffectiveFrom(st, delay, rq) <= EffectiveUntil(st, delay, rq))
    case Wake(w) => WakeInTime(st, w) && w.driverOk
    case StartRefresh(readAt, added) => st.clock <= readAt <= added
    case StopRefresh => true
  }

  function Initial(maxStaleness: nat, clock: int): (r: State)
  {
    State([], Setpoint(0, false), 0, false, maxStaleness, clock)
  }

  function Run(st: State, delay: Delay, steps: seq<Step>): (r: State)
  {
    if steps == [] then st
    else Apply(Run(st, delay, steps[..|steps| - 1]), delay, steps[|steps| - 1])
  }

  ghost predicate LegalRun(st: State, delay: Delay, steps: seq<Step>)
  {
    steps != [] ==>
      && LegalRun(st, delay, steps[..|steps| - 1])
      && Legal(Run(st, delay, steps[..|steps| - 1]), delay, steps[|steps| - 1])
  }

  /** A request as the caller meant it. */
  datatype Overlay = Overlay(from: int, until: int, target: Setpoint)

  /** The requests so far, with the one accepted in this step, if any. */
  function Recorded(os: seq<Overlay>, st: State, delay: Delay, step: Step): (r: seq<Overlay>)
  {
    if step.Schedule? && Accepts(step.rq) then
      os + [Overlay(EffectiveFrom(st, delay, step.rq), EffectiveUntil(st, delay, step.rq), step.rq.target)]
    else os
  }

  /** The accepted requests of a run, in call order. */
  function Overlays(st: State, delay: Delay, steps: seq<Step>): (r: seq<Overlay>)
  {
    if steps == [] then []
    else
      var front := steps[..|steps| - 1];
      Recorded(Overlays(st, delay, front), Run(st, delay, front), delay, steps[|steps| - 1])
  }

  /** The reference: the latest call whose interval covers `t` wins; otherwise the battery is idle. */
  function Requested(os: seq<Overlay>, t: int): (r: Setpoint)
  {
    if os == [] then Setpoint(0, false)
    else
      var last := os[|os| - 1];
      if last.from <= t < last.until then last.target else Requested(os[..|os| - 1], t)
  }

  ghost predicate AfterWakes(steps: seq<Step>, t: int)
  {
    forall i :: 0 <= i < |steps| && steps[i].Wake? ==> steps[i].w.at <= t
  }

  lemma {:induction false} RunInvariant(maxStaleness: nat, clock: int, delay: Delay, steps: seq<Step>)
    requires LegalRun(Initial(maxStaleness, clock), delay, steps)
    ensures WellFormed(Run(Initial(maxStaleness, clock), delay, steps))
    ensures AfterWakes(steps, Run(Initial(maxStaleness, clock), delay, steps).clock)
  {
    if steps != [] {
      var front, last := steps[..|steps| - 1], steps[|steps| - 1];
      RunInvariant(maxStaleness, clock, delay, front);
      var st := Run(Initial(maxStaleness, clock), delay, front);
      match last
      case Schedule(rq) => ScheduledWellFormed(st, delay, rq);
      case Wake(w) => TakenWellFormed(st, DueCount(st.queue, w.at), w);
      case StartRefresh(readAt, added) => RefreshStartedWellFormed(st, readAt, added);
      case StopRefresh =>
    }
  }

  /** One step keeps the queue standing for the requests, from the wake-up on if it is one. */
  lemma StepFollowsRequests(st: State, delay: Delay, step: Step, os: seq<Overlay>, t: int)
    requires WellFormed(st) && Legal(st, delay, step)
    requires step.Wake? ==> step.w.at <= t
    requires Profile(st.queue, st.now, t) == Requested(os, t)
    ensures var st' := Apply(st, delay, step);
            Profile(st'.queue, st'.now, t) == Requested(Recorded(os, st, delay, step), t)
  {
    match step
    case Schedule(rq) =>
      if Accepts(rq) {
        OrderedRequestOverlays(st, delay, rq, t);
        var os' := Recorded(os, st, delay, step);
        assert os'[..|os'| - 1] == os;
      }
    case Wake(w) => WakeKeepsTimeline(st, w, t);
    case StartRefresh(readAt, added) =>
      RefreshIsInvisible(st.queue, RefreshEvent(readAt + st.maxStaleness, added), 0, t);
    case StopRefresh =>
  }

  /** Over every run, from the last wake-up on, the queue stands for the requests in call order. */
  lemma {:induction false} RunFollowsRequests(
    maxStaleness: nat, clock: int, delay: Delay, steps: seq<Step>, t: int)
    requires LegalRun(Initial(maxStaleness, clock), delay, steps)
    requires AfterWakes(steps, t)
    ensures var st := Run(Initial(maxStaleness, clock), delay, steps);
            Profile(st.queue, st.now, t) == Requested(Overlays(Initial(maxStaleness, clock), delay, steps), t)
  {
    if steps != [] {
      var init, front := Initial(maxStaleness, clock), steps[..|steps| - 1];
      RunFollowsRequests(maxStaleness, clock, delay, front, t);
      RunInvariant(maxStaleness, clock, delay, front);
      StepFollowsRequests(Run(init, delay, front), delay, steps[|steps| - 1], Overlays(init, delay, front), t);
    }
  }

  /** After every wake-up the battery's current is the call-order overlay of all requests so far,
      read at the clock reading that ended the drain. */
  lemma WakeAppliesRequests(maxStaleness: nat, clock: int, delay: Delay, steps: seq<Step>, w: Wakeup)
    requires LegalRun(Initial(maxStaleness, clock), delay, steps + [Wake(w)])
    ensures Run(Initial(maxStaleness, clock), delay, steps + [Wake(w)]).now ==
            Requested(Overlays(Initial(maxStaleness, clock), delay, steps), w.at)
  {
    assert (steps + [Wake(w)])[..|steps|] == steps;
    RunInvariant(maxStaleness, clock, delay, steps);
    RunFollowsRequests(maxStaleness, clock, delay, steps, w.at);
    WakeKeepsTimeline(Run(Initial(maxStaleness, clock), delay, steps), w, w.at);
  }

  // ----- background refresh goes on -----

  /** A refresh event is queued, at the latest one staleness from the last clock reading on. */
  ghost predicate Refreshing(st: State)
  {
    exists t :: t <= st.clock + st.maxStaleness && RefreshAt(st.queue, t)
  }

  /** Starting background refresh queues one refresh event, one staleness after the clock reading. */
  lemma StartQueuesRefresh(st: State, readAt: int, added: int, t: int)
    requires WellFormed(st) && st.maxStaleness >= MIN_BACKGROUND_STALENESS
    ensures RefreshStarted(st, readAt, added).active
    ensures RefreshAt(RefreshStarted(st, readAt, added).queue, t) <==>
            RefreshAt(st.queue, t) || t == readAt + st.maxStaleness
  {
    RefreshEmplaced(st.queue, RefreshEvent(readAt + st.maxStaleness, added));
  }

  lemma {:induction false} HasRefreshIs(q: seq<Event>)
    ensures HasRefresh(q) <==> exists i :: 0 <= i < |q| && q[i].func.Refresh?
  {
    if q != [] {
      HasRefreshIs(q[..|q| - 1]);
      assert q[..|q| - 1] + [q[|q| - 1]] == q;
    }
  }

  /** A wake-up takes out exactly the refresh events that are due; if there are any and background refresh is on, it queues
      one more, one staleness after its own reading. */
  lemma WakeQueuesRefresh(st: State, w: Wakeup, t: int)
    requires WellFormed(st)
    ensures RefreshAt(Woken(st, w).queue, t) <==>
            || (t > w.at && RefreshAt(st.queue, t))
            || (st.active && t == w.refreshAt + st.maxStaleness && exists s :: s <= w.at && RefreshAt(st.queue, s))
  {
    var q, n := st.queue, DueCount(st.queue, w.at);
    assert RefreshAt(q[n..], t) <==> t > w.at && RefreshAt(q, t) by {
      LaterRefreshes(q, w.at, t);
    }
    assert HasRefresh(q[..n]) <==> exists s :: s <= w.at && RefreshAt(q, s) by {
      DueRefreshes(q, w.at);
    }
    GoodSuffix(q, n, st.nextSequence, st.clock, st.clock);
    hide RefreshAt, HasRefresh, Emplace, DueCount;
    RefreshEmplaced(q[n..], RefreshEvent(w.refreshAt + st.maxStaleness, w.refreshAdded));
  }

  lemma DueRefreshes(q: seq<Event>, at: int)
    requires Sorted(q)
    ensures HasRefresh(q[..DueCount(q, at)]) <==> exists s :: s <= at && RefreshAt(q, s)
  {
    var n := DueCount(q, at);
    HasRefreshIs(q[..n]);
    if HasRefresh(q[..n]) {
      var i :| 0 <= i < n && q[..n][i].func.Refresh?;
      assert RefreshAt(q, q[i].timepoint);
    }
    if s :| s <= at && RefreshAt(q, s) {
      var i :| 0 <= i < |q| && q[i].func.Refresh? && q[i].timepoint == s;
      if i >= n {
        SortedByTime(q, n, at);
      }
      assert q[..n][i] == q[i];
    }
  }

  lemma ScheduledKeepsRefreshes(st: State, delay: Delay, rq: Request, t: int)
    requires WellFormed(st) && InTime(st, rq)
    ensures RefreshAt(Scheduled(st, delay, rq).queue, t) <==> RefreshAt(st.queue, t)
  {
    if Accepts(rq) {
      FreshPair(st, delay, rq);
      RescheduledRefreshes(st.queue, BeginEvent(st, delay, rq), EndEvent(st, delay, rq), t);
    }
  }

  lemma StepKeepsRefreshing(st: State, delay: Delay, step: Step)
    requires WellFormed(st) && Legal(st, delay, step) && (st.active ==> Refreshing(st))
    ensures var st' := Apply(st, delay, step);
            && st'.maxStaleness == st.maxStaleness && st'.clock >= st.clock
            && (st'.active ==> Refreshing(st'))
  {
    hide RefreshAt, Emplace, DueCount, Rescheduled, EffectiveFrom, EffectiveUntil;
    var st' := Apply(st, delay, step);
    assert st'.active ==> Refreshing(st') by {
      match step
      case Schedule(rq) =>
        if st.active {
          var t :| t <= st.clock + st.maxStaleness && RefreshAt(st.queue, t);
          ScheduledKeepsRefreshes(st, delay, rq, t);
        }
      case Wake(w) =>
        if st.active {
          var t :| t <= st.clock + st.maxStaleness && RefreshAt(st.queue, t);
          WakeQueuesRefresh(st, w, t);
          WakeQueuesRefresh(st, w, w.refreshAt + st.maxStaleness);
          DueRefreshes(st.queue, w.at);
        }
      case StartRefresh(readAt, added) =>
        if st.maxStaleness >= MIN_BACKGROUND_STALENESS {
          StartQueuesRefresh(st, readAt, added, readAt + st.maxStaleness);
        }
      case StopRefresh =>
    }
  }

  /** Over every run, as long as background refresh is on, the next refresh is queued, at the latest one staleness after the
      last clock reading; so it never dies out. */
  lemma {:induction false} RunKeepsRefreshing(maxStaleness: nat, clock: int, delay: Delay, steps: seq<Step>)
    requires LegalRun(Initial(maxStaleness, clock), delay, steps)
    ensures var st := Run(Initial(maxStaleness, clock), delay, steps);
            && st.maxStaleness == maxStaleness
            && (st.active ==> Refreshing(st))
  {
    hide Legal, Apply, Refreshing;
    if steps != [] {
      var init, front := Initial(maxStaleness, clock), steps[..|steps| - 1];
      RunKeepsRefreshing(maxStaleness, clock, delay, front);
      RunInvariant(maxStaleness, clock, delay, front);
      StepKeepsRefreshing(Run(init, delay, front), delay, steps[|steps| - 1]);
    }
  }

  // ----- which currents pick the delays -----

  /** The end of a request is moved by the delay from its target to the current that the calls so far, in call order, ask for
      at its end. */
  lemma DelayedEndFollowsRequests(maxStaleness: nat, clock: int, delay: Delay, steps: seq<Step>, rq: Request)
    requires LegalRun(Initial(maxStaleness, clock), delay, steps) && AfterWakes(steps, rq.until)
    ensures var init := Initial(maxStaleness, clock);
            EffectiveUntil(Run(init, delay, steps), delay, rq) ==
              rq.until - delay(rq.target.current, Requested(Overlays(init, delay, steps), rq.until).current)
  {
    RunFollowsRequests(maxStaleness, clock, delay, steps, rq.until);
  }

  /** Its start is moved, for all delays there could be, by the delay from the current that they ask for at its start to its
      target if and only if the last event up to the start is not a refresh event or that current is 0. */
  lemma DelayedStartFollowsRequests(maxStaleness: nat, clock: int, delay: Delay, steps: seq<Step>, rq: Request)
    requires LegalRun(Initial(maxStaleness, clock), delay, steps)
    requires AfterWakes(steps, rq.from) && rq.from <= rq.until
    ensures var init := Initial(maxStaleness, clock);
            var st, current := Run(init, delay, steps), Requested(Overlays(init, delay, steps), rq.from).current;
            var n := DueCount(st.queue, rq.from);
            (forall d: Delay :: EffectiveFrom(st, d, rq) == rq.from - d(current, rq.target.current)) <==>
            n == 0 || !st.queue[n - 1].func.Refresh? || current == 0
  {
    hide Profile, EffectiveFrom, Requested, Overlays, LegalRun;
    RunInvariant(maxStaleness, clock, delay, steps);
    RunFollowsRequests(maxStaleness, clock, delay, steps, rq.from);
    DelayedStartExactly(Run(Initial(maxStaleness, clock), delay, steps), rq);
  }

  /** What the timeline is after one more request: its target from its delayed start to its delayed end, and what the calls
      asked for before otherwise. Both delays are those of the currents that the calls asked for. */
  lemma RequestAfterRun(maxStaleness: nat, clock: int, delay: Delay, steps: seq<Step>, rq: Request, t: int)
    requires LegalRun(Initial(maxStaleness, clock), delay, steps + [Schedule(rq)])
    requires Accepts(rq) && rq.from <= rq.until && AfterWakes(steps, t) && NoRefreshes(steps)
    ensures var init := Initial(maxStaleness, clock);
            var st, os := Run(init, delay, steps), Overlays(init, delay, steps);
            var from := rq.from - delay(Requested(os, rq.from).current, rq.target.current);
            var until := rq.until - delay(rq.target.current, Requested(os, rq.until).current);
            Profile(Scheduled(st, delay, rq).queue, st.now, t) ==
              if from <= t < until then rq.target else Requested(os, t)
  {
    var init := Initial(maxStaleness, clock);
    assert (steps + [Schedule(rq)])[..|steps|] == steps;
    hide Profile, EffectiveFrom, EffectiveUntil, Requested, Overlays, Scheduled, Run;
    RunInvariant(maxStaleness, clock, delay, steps);
    RequestedInterval(maxStaleness, clock, delay, steps, rq);
    RunFollowsRequests(maxStaleness, clock, delay, steps, t);
    OrderedRequestOverlays(Run(init, delay, steps), delay, rq, t);
  }

  /** Nobody starts background refresh. */
  ghost predicate NoRefreshes(steps: seq<Step>)
  {
    forall i :: 0 <= i < |steps| ==> !steps[i].StartRefresh?
  }

  ghost predicate OnlyRequests(q: seq<Event>)
  {
    forall e :: e in q ==> !e.func.Refresh?
  }

  lemma {:induction false} NothingToRefresh(q: seq<Event>)
    requires OnlyRequests(q)
    ensures !HasRefresh(q)
  {
    if q != [] {
      assert q[|q| - 1] in q;
      NothingToRefresh(q[..|q| - 1]);
    }
  }

  /** Then there are no refresh events. */
  lemma {:induction false} RunOnlyRequests(maxStaleness: nat, clock: int, delay: Delay, steps: seq<Step>)
    requires LegalRun(Initial(maxStaleness, clock), delay, steps) && NoRefreshes(steps)
    ensures OnlyRequests(Run(Initial(maxStaleness, clock), delay, steps).queue)
  {
    if steps != [] {
      var front, last := steps[..|steps| - 1], steps[|steps| - 1];
      RunOnlyRequests(maxStaleness, clock, delay, front);
      RunInvariant(maxStaleness, clock, delay, front);
      var st := Run(Initial(maxStaleness, clock), delay, front);
      match last
      case Schedule(rq) =>
        if Accepts(rq) {
          FreshPair(st, delay, rq);
          RescheduledContents(st.queue, BeginEvent(st, delay, rq), EndEvent(st, delay, rq));
        }
      case Wake(w) => NothingToRefresh(st.queue[..DueCount(st.queue, w.at)]);
      case StopRefresh =>
    }
  }

  /** Without background refresh both ends of an accepted request are moved by the delays that the calls ask for. */
  lemma RequestedInterval(maxStaleness: nat, clock: int, delay: Delay, steps: seq<Step>, rq: Request)
    requires LegalRun(Initial(maxStaleness, clock), delay, steps) && NoRefreshes(steps)
    requires InTime(Run(Initial(maxStaleness, clock), delay, steps), rq) && Accepts(rq) && rq.from <= rq.until
    ensures var init := Initial(maxStaleness, clock);
            var st, os := Run(init, delay, steps), Overlays(init, delay, steps);
            && EffectiveFrom(st, delay, rq) == rq.from - delay(Requested(os, rq.from).current, rq.target.current)
            && EffectiveUntil(st, delay, rq) == rq.until - delay(rq.target.current, Requested(os, rq.until).current)
  {
    hide Profile, EffectiveFrom, EffectiveUntil, Requested, Overlays, LegalRun, Run;
    RunInvariant(maxStaleness, clock, delay, steps);
    RunOnlyRequests(maxStaleness, clock, delay, steps);
    DelayedEndFollowsRequests(maxStaleness, clock, delay, steps, rq);
    DelayedStartFollowsRequests(maxStaleness, clock, delay, steps, rq);
  }

  /** The interval that one call adds to those so far. */
  function Referred(os: seq<Overlay>, delay: Delay, step: Step): (r: seq<Overlay>)
  {
    if step.Schedule? && Accepts(step.rq) then
      var rq := step.rq;
      os + [Overlay(rq.from - delay(Requested(os, rq.from).current, rq.target.current),
                    rq.until - delay(rq.target.current, Requested(os, rq.until).current), rq.target)]
    else os
  }

  /** The reference for delayed requests, from the calls alone: no queue and no battery. */
  function Reference(delay: Delay, steps: seq<Step>): (r: seq<Overlay>)
  {
    if steps == [] then []
    else Referred(Reference(delay, steps[..|steps| - 1]), delay, steps[|steps| - 1])
  }

  ghost predicate EndsAfterStart(step: Step)
  {
    step.Schedule? && Accepts(step.rq) ==> step.rq.from <= step.rq.until
  }

  lemma StepMeetsReference(maxStaleness: nat, clock: int, delay: Delay, front: seq<Step>, step: Step)
    requires LegalRun(Initial(maxStaleness, clock), delay, front) && NoRefreshes(front) && EndsAfterStart(step)
    requires Legal(Run(Initial(maxStaleness, clock), delay, front), delay, step)
    ensures var init := Initial(maxStaleness, clock);
            var os := Overlays(init, delay, front);
            Recorded(os, Run(init, delay, front), delay, step) == Referred(os, delay, step)
  {
    hide Requested, LegalRun, Run, EffectiveFrom, EffectiveUntil, Overlays;
    if step.Schedule? && Accepts(step.rq) {
      RequestedInterval(maxStaleness, clock, delay, front, step.rq);
    }
  }

  /** Over every run without background refresh, whose requests end after they start, the accepted intervals are those of the
      reference; so the timelines of `RunFollowsRequests` and the currents of `WakeAppliesRequests` are. */
  lemma {:induction false} RunMeetsReference(maxStaleness: nat, clock: int, delay: Delay, steps: seq<Step>)
    requires LegalRun(Initial(maxStaleness, clock), delay, steps) && NoRefreshes(steps)
    requires forall i :: 0 <= i < |steps| ==> EndsAfterStart(steps[i])
    ensures Overlays(Initial(maxStaleness, clock), delay, steps) == Reference(delay, steps)
  {
    hide Recorded, Referred, EndsAfterStart, Legal;
    if steps != [] {
      RunMeetsReference(maxStaleness, clock, delay, steps[..|steps| - 1]);
      StepMeetsReference(maxStaleness, clock, delay, steps[..|steps| - 1], steps[|steps| - 1]);
    }
  }

  /** So after every wake-up of such a run the battery has the current that the calls alone ask for. */
  lemma WakeMeetsReference(maxStaleness: nat, clock: int, delay: Delay, steps: seq<Step>, w: Wakeup)
    requires LegalRun(Initial(maxStaleness, clock), delay, steps + [Wake(w)]) && NoRefreshes(steps)
    requires forall i :: 0 <= i < |steps| ==> EndsAfterStart(steps[i])
    ensures Run(Initial(maxStaleness, clock), delay, steps + [Wake(w)]).now == Requested(Reference(delay, steps), w.at)
  {
    hide Run, Legal, Requested, Reference, Overlays, EndsAfterStart;
    assert (steps + [Wake(w)])[..|steps|] == steps;
    WakeAppliesRequests(maxStaleness, clock, delay, steps, w);
    RunMeetsReference(maxStaleness, clock, delay, steps);
  }

  // ----- the imperative form -----

  /** The last set-current event of a stretch that is all due is the one in force. */
  lemma {:induction false} SetEventsLast(q: seq<Event>, t: int)
    requires forall e :: e in q ==> e.timepoint <= t && e.child == 0 && !e.func.CancelEvent?
    ensures InForce(q, 0, t) == if SetEvents(q) == [] then None else Some(SetEvents(q)[|SetEvents(q)| - 1])
  {
    if q != [] {
      assert q[|q| - 1] in q;
      SetEventsLast(q[..|q| - 1], t);
    }
  }

  lemma DueSetpoint(q: seq<Event>, now: Setpoint, t: int)
    requires forall e :: e in q ==> e.timepoint <= t && e.child == 0 && !e.func.CancelEvent?
    ensures Profile(q, now, t) ==
              if SetEvents(q) == [] then now
              else var last := SetEvents(q)[|SetEvents(q)| - 1]; Setpoint(last.current, last.isGreaterThan)
  {
    SetEventsLast(q, t);
  }

  lemma TakenSetpoint(st: State, n: nat, at: int)
    requires WellFormed(st) && n <= |st.queue| && forall i :: 0 <= i < n ==> st.queue[i].timepoint <= at
    ensures var events := SetEvents(st.queue[..n]);
            Profile(st.queue[..n], st.now, at) ==
              if events == [] then st.now
              else Setpoint(events[|events| - 1].current, events[|events| - 1].isGreaterThan)
  {
    forall e | e in st.queue[..n] ensures e.timepoint <= at && e.child == 0 && !e.func.CancelEvent? {
      assert Admissible(e, st.nextSequence, st.clock);
    }
    DueSetpoint(st.queue[..n], st.now, at);
  }

  /** The drain loop of `background_func`: it reads the clock again after every event it takes.
      `reading(i)` is the i-th reading; the loop ends on reading number `taken`. */
  method Drain(queue: seq<Event>, reading: nat -> int)
    returns (rest: seq<Event>, hasRefresh: bool, hasCancel: bool, setEvents: seq<Event>, taken: nat)
    requires forall i: nat, j: nat :: i <= j ==> reading(i) <= reading(j)
    ensures taken == DueCount(queue, reading(taken))
    ensures rest == queue[taken..]
    ensures setEvents == SetEvents(queue[..taken])
    ensures hasRefresh == HasRefresh(queue[..taken])
    ensures hasCancel ==> exists i :: 0 <= i < taken && queue[i].func.CancelEvent?
  {
    rest, hasRefresh, hasCancel, setEvents, taken := queue, false, false, [], 0;
    var now := reading(0);
    while rest != []
      invariant taken <= |queue| && rest == queue[taken..] && now == reading(taken)
      invariant forall i :: 0 <= i < taken ==> queue[i].timepoint <= now
      invariant setEvents == SetEvents(queue[..taken])
      invariant hasRefresh == HasRefresh(queue[..taken])
      invariant hasCancel ==> exists i :: 0 <= i < taken && queue[i].func.CancelEvent?
      decreases |rest|
    {
      var top := rest[0];
      if top.timepoint > now {
        break;
      }
      assert queue[..taken + 1] == queue[..taken] + [top];
      match top.func {
        case Refresh => hasRefresh := true;
        case SetCurrentEnd => setEvents := setEvents + [top];
        case SetCurrent => setEvents := setEvents + [top];
        case CancelEvent => hasCancel := true; assert queue[taken] == top;
      }
      rest := rest[1..];
      taken := taken + 1;
      now := reading(taken);
    }
  }

  /** Erase through saved iterators, one after another. */
  method EraseEach(queue: seq<Event>, events: seq<Event>) returns (rest: seq<Event>)
    ensures rest == Erase(queue, EventsOf(events))
  {
    rest := queue;
    EraseNothing(queue);
    assert EventsOf(events[..0]) == {};
    var i := 0;
    while i < |events|
      invariant 0 <= i <= |events|
      invariant rest == Erase(queue, EventsOf(events[..i]))
    {
      EraseOneMore(queue, EventsOf(events[..i]), events[i]);
      assert events[..i + 1] == events[..i] + [events[i]];
      EventsOfNext(events[..i], events[i]);
      rest := Erase(rest, {events[i]});
      i := i + 1;
    }
    assert events[..i] == events;
  }

  class Battery {
    var eventQueue: seq<Event>
    var currentNow: int
    var isGreaterThanNow: bool
    var currentSequenceNumber: nat
    var refreshActive: bool
    const maxStaleness: nat
    const delay: Delay
    ghost var clock: int

    ghost function Value(): (st: State)
      reads this
    {
      State(eventQueue, Setpoint(currentNow, isGreaterThanNow), currentSequenceNumber, refreshActive,
            maxStaleness, clock)
    }

    ghost predicate Valid()
      reads this
    {
      WellFormed(Value())
    }

    constructor (maxStaleness: nat, delay: Delay, ghost clock: int)
      ensures Valid() && Value() == Initial(maxStaleness, clock) && this.delay == delay
    {
      this.maxStaleness := maxStaleness;
      this.delay := delay;
      this.clock := clock;
      eventQueue, currentNow, isGreaterThanNow := [], 0, false;
      currentSequenceNumber, refreshActive := 0, false;
    }

    /** The preview of `schedule_set_current`: which current precedes the interval, as far as the
        scan can tell, and which one has to be resumed at its end. */
    method Preview(from: int, until: int) returns (before: int, resume: int)
      requires Valid()
      ensures before == BeforeSet(eventQueue, currentNow, from, until)
      ensures resume == Profile(eventQueue, Setpoint(currentNow, isGreaterThanNow), until).current
    {
      before, resume := currentNow, currentNow;
      ghost var now := Setpoint(currentNow, isGreaterThanNow);
      var i := 0;
      while i < |eventQueue|
        invariant 0 <= i <= |eventQueue|
        invariant BeforeSet(eventQueue[i..], before, from, until) == BeforeSet(eventQueue, currentNow, from, until)
        invariant forall j :: 0 <= j < i ==> eventQueue[j].timepoint <= until
        invariant resume == Profile(eventQueue[..i], now, until).current
      {
        var event := eventQueue[i];
        assert Admissible(event, currentSequenceNumber, clock);
        assert eventQueue[i..][1..] == eventQueue[i + 1..];
        assert eventQueue[..i + 1][..i] == eventQueue[..i];
        if event.timepoint <= from {
          before := event.current;
        }
        if event.timepoint > until {
          SortedByTime(eventQueue, i, until);
          InForcePrefix(eventQueue, i, 0, until);
          return;
        }
        if !event.func.Refresh? {
          resume := event.current;
        }
        i := i + 1;
      }
      assert eventQueue[..i] == eventQueue;
    }

    /** The removal scan: the set-current events inside the interval, and the setpoint to resume. */
    method ScanInterval(from: int, until: int) returns (overlapped: seq<Event>, resume: Setpoint)
      requires Valid()
      ensures EventsOf(overlapped) == Overlapped(eventQueue, 0, from, until)
      ensures resume == Profile(eventQueue, Setpoint(currentNow, isGreaterThanNow), until)
    {
      overlapped, resume := [], Setpoint(currentNow, isGreaterThanNow);
      ghost var now := resume;
      var i := 0;
      while i < |eventQueue|
        invariant 0 <= i <= |eventQueue|
        invariant EventsOf(overlapped) == Overlapped(eventQueue[..i], 0, from, until)
        invariant resume == Profile(eventQueue[..i], now, until)
      {
        var event := eventQueue[i];
        assert Admissible(event, currentSequenceNumber, clock);
        assert eventQueue[..i + 1][..i] == eventQueue[..i];
        OverlappedNext(eventQueue, i, 0, from, until);
        if !event.func.Refresh? {
          if from <= event.timepoint <= until {
            EventsOfNext(overlapped, event);
            overlapped := overlapped + [event];
          } else if event.timepoint > until {
            SortedByTime(eventQueue, i, until);
            InForcePrefix(eventQueue, i, 0, until);
            OverlappedPrefix(eventQueue, i, 0, from, until);
            return;
          }
          resume := Setpoint(event.current, event.isGreaterThan);
        }
        i := i + 1;
      }
      assert eventQueue[..i] == eventQueue;
    }

    method Enqueue(timepoint: int, added: int, func: Function, setpoint: Setpoint)
      modifies this`eventQueue, this`currentSequenceNumber
      ensures eventQueue == Emplace(old(eventQueue),
                Event(timepoint, added, old(currentSequenceNumber), func,
                      setpoint.current, setpoint.isGreaterThan, 0))
      ensures currentSequenceNumber == old(currentSequenceNumber) + 1
    {
      eventQueue := Emplace(eventQueue,
        Event(timepoint, added, currentSequenceNumber, func, setpoint.current, setpoint.isGreaterThan, 0));
      currentSequenceNumber := currentSequenceNumber + 1;
    }

    /** The edit of the queue under the lock, once the request is accepted. */
    method ReplaceInterval(rq: Request)
      requires Valid()
      modifies this`eventQueue, this`currentSequenceNumber
      ensures currentSequenceNumber == old(currentSequenceNumber) + 2
      ensures eventQueue == Rescheduled(old(eventQueue), BeginEvent(old(Value()), delay, rq),
                                        EndEvent(old(Value()), delay, rq))
    {
      hide Emplace, Erase, Overlapped, EventsOf, Profile, BeforeSet, WellFormed;
      var before, resumed := Preview(rq.from, rq.until);
      var from := rq.from - delay(before, rq.target.current);
      var until := rq.until - delay(rq.target.current, resumed);
      var overlapped, resume := ScanInterval(from, until);
      eventQueue := EraseEach(eventQueue, overlapped);
      Enqueue(from, rq.beginAdded, SetCurrent, rq.target);
      Enqueue(until, rq.endAdded, SetCurrentEnd, resume);
    }

    /** `Battery::schedule_set_current`. */
    method ScheduleSetCurrent(rq: Request) returns (accepted: bool)
      requires Valid() && InTime(Value(), rq)
      modifies this
      ensures Valid()
      ensures accepted == (rq.from >= rq.readAt)
      ensures Value() == Scheduled(old(Value()), delay, rq)
    {
      ScheduledWellFormed(Value(), delay, rq);
      if rq.from < rq.readAt {
        clock := rq.readAt;
        return false;
      }
      ReplaceInterval(rq);
      clock := rq.endAdded;
      assert Value() == Scheduled(old(Value()), delay, rq);
      return true;
    }

    /** Act on the drained events: the driver is asked for the last setpoint, and the next refresh is
        queued in active mode. */
    method Act(hasRefresh: bool, hasCancel: bool, setEvents: seq<Event>, ghost taken: nat, ghost st: State,
               ghost at: int, driverOk: bool, refreshAt: int, refreshAdded: int)
      requires WellFormed(st) && taken <= |st.queue| && Value() == st.(queue := st.queue[taken..])
      requires forall i :: 0 <= i < taken ==> st.queue[i].timepoint <= at
      requires setEvents == SetEvents(st.queue[..taken])
      requires hasRefresh == HasRefresh(st.queue[..taken]) && !hasCancel
      modifies this
      ensures Value() == Taken(st, taken, Wakeup(at, driverOk, refreshAt, refreshAdded))
    {
      TakenSetpoint(st, taken, at);
      hide Emplace, SetEvents, HasRefresh, Profile, WellFormed;
      ApplyLast(hasCancel, setEvents, driverOk);
      QueueNextRefresh(hasRefresh && refreshActive, at, refreshAt, refreshAdded);
    }

    /** One pass of `background_func`. The driver's answer and the two clock readings for the next
        refresh event are inputs. */
    method WakeUp(reading: nat -> int, driverOk: bool, refreshAt: int, refreshAdded: int)
      returns (ghost at: int)
      requires Valid() && clock <= reading(0)
      requires forall i: nat, j: nat :: i <= j ==> reading(i) <= reading(j)
      requires forall i: nat :: reading(i) <= refreshAt
      requires refreshAt <= refreshAdded
      modifies this
      ensures Valid()
      ensures exists i: nat :: at == reading(i)
      ensures Value() == Woken(old(Value()), Wakeup(at, driverOk, refreshAt, refreshAdded))
    {
      ghost var st := Value();
      var rest, hasRefresh, hasCancel, setEvents, taken := Drain(eventQueue, reading);
      eventQueue := rest;
      at := reading(taken);
      assert !hasCancel by {
        forall i | 0 <= i < |st.queue| ensures !st.queue[i].func.CancelEvent? {
          assert Admissible(st.queue[i], st.nextSequence, st.clock);
        }
      }
      TakenWellFormed(st, taken, Wakeup(at, driverOk, refreshAt, refreshAdded));
      Act(hasRefresh, hasCancel, setEvents, taken, st, at, driverOk, refreshAt, refreshAdded);
    }

    method QueueNextRefresh(again: bool, ghost at: int, refreshAt: int, refreshAdded: int)
      modifies this`eventQueue, this`clock
      ensures eventQueue ==
                if again then Emplace(old(eventQueue), RefreshEvent(refreshAt + maxStaleness, refreshAdded))
                else old(eventQueue)
      ensures clock == if again then refreshAdded else at
    {
      clock := at;
      if again {
        eventQueue := Emplace(eventQueue, RefreshEvent(refreshAt + maxStaleness, refreshAdded));
        clock := refreshAdded;
      }
    }

    /** The driver is asked for the last set-current event only; its answer is `driverOk`. */
    method ApplyLast(hasCancel: bool, setEvents: seq<Event>, driverOk: bool)
      modifies this`currentNow, this`isGreaterThanNow
      ensures if !hasCancel && setEvents != [] && driverOk
              then currentNow == setEvents[|setEvents| - 1].current &&
                   isGreaterThanNow == setEvents[|setEvents| - 1].isGreaterThan
              else currentNow == old(currentNow) && isGreaterThanNow == old(isGreaterThanNow)
    {
      if !hasCancel && setEvents != [] {
        var last := setEvents[|setEvents| - 1];
        if driverOk {
          currentNow := last.current;
          isGreaterThanNow := last.isGreaterThan;
        }
      }
    }

    method StopBackgroundRefresh() returns (stopped: bool)
      requires Valid()
      modifies this`refreshActive
      ensures Valid() && stopped == old(refreshActive)
      ensures Value() == old(Value()).(active := false)
    {
      stopped := refreshActive;
      refreshActive := false;
    }

    method StartBackgroundRefresh(readAt: int, added: int) returns (started: bool)
      requires Valid() && clock <= readAt <= added
      modifies this
      ensures Valid()
      ensures started == (maxStaleness >= 100)
      ensures Value() == RefreshStarted(old(Value()), readAt, added)
    {
      RefreshStartedWellFormed(Value(), readAt, added);
      if maxStaleness < MIN_BACKGROUND_STALENESS {
        return false;
      }
      refreshActive := true;
      eventQueue := Emplace(eventQueue, RefreshEvent(readAt + maxStaleness, added));
      clock := added;
      return true;
    }
  }
}
