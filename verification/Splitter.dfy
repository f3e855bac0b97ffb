/** The V2 splitter policy's event handling (`BALSplitter::schedule_set_current_of`, `set_current`,
    and the splitter rule of the background thread).

    All children share one event queue, and each child has its own timeline in it. A request for one
    child is forwarded to the source as the total of all children.
 */
module Splitter {
  import opened Options
  import opened Reals
  import opened EventQueue
  import opened ChargeEstimate
  import BS = BatteryScheduler

  /** Under the proportional policy `scales` are the children's shares of the source's charge; the other policies do not
      use them. */
  datatype State = State(
    queue: seq<Event>,
    meters: seq<Meter>,
    nextSequence: nat,
    active: bool,
    maxStaleness: nat,
    scales: Option<seq<real>>,
    clock: int)

  /** A request for the child with index `child`, after the name lookup. */
  datatype Request = Request(
    child: nat, target: int, isGreaterThan: bool, from: int, until: int,
    readAt: int, beginAdded: int, endAdded: int)

  /** A wake-up: the last clock reading of the drain, the reading of the i-th `set_current`, the
      reading of the refresh if there is one, the source's charge that it sees, and the two readings for the next
      refresh event. */
  datatype Wakeup = Wakeup(
    at: int, stamp: nat -> int, estimateAt: int, sourceCharge: int, refreshAt: int, doneAt: int)

  ghost predicate Admissible(e: Event, children: nat, nextSequence: nat, clock: int)
  {
    && e.timeAdded <= clock && !e.func.CancelEvent?
    && (!e.func.Refresh? ==> e.sequenceNumber < nextSequence && e.child < children)
  }

  ghost predicate WellFormed(st: State)
  {
    Sorted(st.queue) && forall e :: e in st.queue ==> Admissible(e, |st.meters|, st.nextSequence, st.clock)
  }

  ghost predicate InTime(st: State, rq: Request)
  {
    st.clock <= rq.readAt <= rq.beginAdded <= rq.endAdded && rq.child < |st.meters|
  }

  // ----- the timelines -----

  /** What child `c` will be asked to deliver at time `t`. */
  function ChildAt(st: State, c: nat, t: int): (r: int)
    requires c < |st.meters|
  {
    CurrentAt(st.queue, c, st.meters[c].current, t)
  }

  /** The total over the first `n` children. */
  function TotalOf(st: State, n: nat, t: int): (r: int)
    requires n <= |st.meters|
  {
    if n == 0 then 0 else TotalOf(st, n - 1, t) + ChildAt(st, n - 1, t)
  }

  function Total(st: State, t: int): (r: int)
  {
    TotalOf(st, |st.meters|, t)
  }

  /** The total over everybody but child `c`. */
  function SiblingsAt(st: State, c: nat, t: int): (r: int)
    requires c < |st.meters|
  {
    Total(st, t) - ChildAt(st, c, t)
  }

  // ----- scheduling -----

  function Max(a: int, b: int): (r: int)
  {
    if a < b then b else a
  }

  function BeginEvent(st: State, rq: Request): (r: Event)
  {
    Event(rq.from, rq.beginAdded, st.nextSequence, SetCurrent, rq.target, rq.isGreaterThan, rq.child)
  }

  /** The preview runs on to the later of the two ends, and the end event carries the new request's
      sense rather than the resumed one. */
  function EndEvent(st: State, rq: Request): (r: Event)
    requires rq.child < |st.meters|
  {
    Event(rq.until, rq.endAdded, st.nextSequence + 1, SetCurrentEnd,
          ChildAt(st, rq.child, Max(rq.from, rq.until)), rq.isGreaterThan, rq.child)
  }

  function Scheduled(st: State, rq: Request): (r: State)
    requires rq.child < |st.meters|
  {
    st.(queue := Rescheduled(st.queue, BeginEvent(st, rq), EndEvent(st, rq)),
        nextSequence := st.nextSequence + 2,
        clock := rq.endAdded)
  }

  /** The current forwarded to the source for the whole interval. */
  function ForwardedTotal(st: State, rq: Request): (r: int)
    requires rq.child < |st.meters|
  {
    SiblingsAt(st, rq.child, rq.from) + rq.target
  }

  lemma FreshPair(st: State, rq: Request)
    requires WellFormed(st) && InTime(st, rq)
    ensures Fresh(st.queue, BeginEvent(st, rq), EndEvent(st, rq))
  {
    forall x | x in st.queue
      ensures x.timeAdded <= rq.beginAdded && (!x.func.Refresh? ==> x.sequenceNumber < st.nextSequence)
    {
      assert Admissible(x, |st.meters|, st.nextSequence, st.clock);
    }
  }

  lemma ScheduledWellFormed(st: State, rq: Request)
    requires WellFormed(st) && InTime(st, rq)
    ensures WellFormed(Scheduled(st, rq))
  {
    FreshPair(st, rq);
    RescheduledContents(st.queue, BeginEvent(st, rq), EndEvent(st, rq));
    forall e | e in Scheduled(st, rq).queue
      ensures Admissible(e, |st.meters|, st.nextSequence + 2, rq.endAdded)
    {
      if e in st.queue {
        assert Admissible(e, |st.meters|, st.nextSequence, st.clock);
      }
    }
  }

  /** Isolation: an ordered request overlays [from, until) on the named child's timeline and leaves
      every other child's timeline alone, at every time. */
  lemma RequestOverlaysOneChild(st: State, rq: Request, c: nat, t: int)
    requires WellFormed(st) && InTime(st, rq) && rq.from <= rq.until && c < |st.meters|
    ensures ChildAt(Scheduled(st, rq), c, t) ==
              if c == rq.child && rq.from <= t < rq.until then rq.target else ChildAt(st, c, t)
  {
    FreshPair(st, rq);
    if c == rq.child {
      RescheduledInForce(st.queue, BeginEvent(st, rq), EndEvent(st, rq), t);
      if rq.until <= t {
        InForceEarlier(st.queue, c, rq.until, t);
      }
    } else {
      RescheduledOthers(st.queue, BeginEvent(st, rq), EndEvent(st, rq), c, t);
    }
  }

  /** A request that ends before it begins: both of its events stay, each until the next event that
      the child had queued anyway. */
  lemma MisorderedRequest(st: State, rq: Request, t: int)
    requires WellFormed(st) && InTime(st, rq) && rq.from > rq.until
    ensures ChildAt(Scheduled(st, rq), rq.child, t) ==
              if rq.from <= t && InForce(st.queue, rq.child, t) == InForce(st.queue, rq.child, rq.from)
              then rq.target
              else if rq.until <= t < rq.from &&
                      InForce(st.queue, rq.child, t) == InForce(st.queue, rq.child, rq.until)
              then ChildAt(st, rq.child, rq.from)
              else ChildAt(st, rq.child, t)
  {
    FreshPair(st, rq);
    MisorderedInForce(st.queue, BeginEvent(st, rq), EndEvent(st, rq), t);
    if rq.until <= t {
      InForceEarlier(st.queue, rq.child, rq.until, t);
      InForceIsLatest(st.queue, rq.child, rq.until);
    }
    if rq.from <= t {
      InForceEarlier(st.queue, rq.child, rq.from, t);
      InForceIsLatest(st.queue, rq.child, rq.from);
    }
  }

  /** Exactly when a request is an overlay on its child at every time: the interval is ordered, or the
      target is what the child's timeline held at both ends already. */
  lemma OverlayExactly(st: State, rq: Request)
    requires WellFormed(st) && InTime(st, rq)
    ensures (forall t :: ChildAt(Scheduled(st, rq), rq.child, t) ==
                           if rq.from <= t < rq.until then rq.target else ChildAt(st, rq.child, t))
            <==>
            (|| rq.from <= rq.until
             || (ChildAt(st, rq.child, rq.from) == rq.target && ChildAt(st, rq.child, rq.until) == rq.target))
  {
    if rq.from <= rq.until {
      forall t ensures ChildAt(Scheduled(st, rq), rq.child, t) ==
                         if rq.from <= t < rq.until then rq.target else ChildAt(st, rq.child, t)
      {
        RequestOverlaysOneChild(st, rq, rq.child, t);
      }
    } else {
      MisorderedRequest(st, rq, rq.from);
      MisorderedRequest(st, rq, rq.until);
      if ChildAt(st, rq.child, rq.from) == rq.target && ChildAt(st, rq.child, rq.until) == rq.target {
        forall t ensures ChildAt(Scheduled(st, rq), rq.child, t) == ChildAt(st, rq.child, t) {
          MisorderedRequest(st, rq, t);
        }
      }
    }
  }

  /** The totals move with the one child that moved. */
  lemma {:induction false} TotalMoves(st: State, st': State, n: nat, c: nat, t: int)
    requires n <= |st.meters| == |st'.meters| && c < |st.meters|
    requires forall d :: 0 <= d < |st.meters| && d != c ==> ChildAt(st', d, t) == ChildAt(st, d, t)
    ensures TotalOf(st', n, t) - TotalOf(st, n, t) ==
              if c < n then ChildAt(st', c, t) - ChildAt(st, c, t) else 0
  {
    if n != 0 {
      TotalMoves(st, st', n - 1, c, t);
    }
  }

  lemma RequestTotal(st: State, rq: Request, t: int)
    requires WellFormed(st) && InTime(st, rq) && rq.from <= rq.until
    ensures Total(Scheduled(st, rq), t) ==
              if rq.from <= t < rq.until then SiblingsAt(st, rq.child, t) + rq.target else Total(st, t)
  {
    forall d | 0 <= d < |st.meters|
      ensures ChildAt(Scheduled(st, rq), d, t) ==
                if d == rq.child && rq.from <= t < rq.until then rq.target else ChildAt(st, d, t)
    {
      RequestOverlaysOneChild(st, rq, d, t);
    }
    TotalMoves(st, Scheduled(st, rq), |st.meters|, rq.child, t);
  }

  // ----- draining: a splitter performs every set-current event -----

  /** The events performed in order, the i-th at clock reading `stamp(i)`. */
  function Performed(meters: seq<Meter>, events: seq<Event>, stamp: nat -> int): (r: seq<Meter>)
    ensures |r| == |meters|
  {
    if events == [] then meters
    else
      var k := |events| - 1;
      var before := Performed(meters, events[..k], stamp);
      if events[k].child < |meters|
      then before[events[k].child := CurrentSet(before[events[k].child], stamp(k), events[k].current)]
      else before
  }

  /** The charge-estimate loop at the head of every refresh function. */
  function AllRefreshed(meters: seq<Meter>, now: int): (r: seq<Meter>)
    ensures |r| == |meters|
    ensures forall c :: 0 <= c < |meters| ==> r[c] == Refreshed(meters[c], now)
  {
    seq(|meters|, c requires 0 <= c < |meters| => Refreshed(meters[c], now))
  }

  function TotalCharge(meters: seq<Meter>): (r: real)
  {
    if meters == [] then 0.0 else TotalCharge(meters[..|meters| - 1]) + meters[|meters| - 1].charge
  }

  /** The proportional policy gives the estimates up when they cancel out. */
  predicate EstimationFails(meters: seq<Meter>, scales: Option<seq<real>>)
  {
    scales.Some? && |scales.value| == |meters| && -0.000001 < TotalCharge(meters) < 0.000001
  }

  /** A child's share of the source's charge, in whole units. */
  function ShareOf(scale: real, sourceCharge: int): (r: real)
  {
    Trunc(sourceCharge as real * scale) as real
  }

  /** What a refresh does to the estimates, under any policy. */
  function Reestimated(meters: seq<Meter>, scales: Option<seq<real>>, now: int, sourceCharge: int): (r: seq<Meter>)
    ensures |r| == |meters|
    ensures forall c :: 0 <= c < |meters| ==> r[c].current == meters[c].current && r[c].last == now
  {
    var ms := AllRefreshed(meters, now);
    if EstimationFails(ms, scales) then
      seq(|ms|, c requires 0 <= c < |ms| => ms[c].(charge := ShareOf(scales.value[c], sourceCharge)))
    else ms
  }

  /** The state after the first `n` events are taken out and performed. */
  function Taken(st: State, n: nat, w: Wakeup): (r: State)
    requires n <= |st.queue|
  {
    var meters := Performed(st.meters, BS.SetEvents(st.queue[..n]), w.stamp);
    if st.active && BS.HasRefresh(st.queue[..n]) then
      st.(queue := Emplace(st.queue[n..], BS.RefreshEvent(w.refreshAt + st.maxStaleness, w.doneAt)),
          meters := Reestimated(meters, st.scales, w.estimateAt, w.sourceCharge),
          clock := w.doneAt)
    else
      st.(queue := st.queue[n..], meters := meters, clock := w.doneAt)
  }

  function Woken(st: State, w: Wakeup): (r: State)
  {
    Taken(st, DueCount(st.queue, w.at), w)
  }

  ghost predicate WakeInTime(st: State, w: Wakeup)
  {
    st.clock <= w.at <= w.doneAt
  }

  lemma {:induction false} PerformedIsInForce(
    meters: seq<Meter>, q: seq<Event>, stamp: nat -> int, c: nat, at: int)
    requires c < |meters|
    requires forall e :: e in q ==> e.timepoint <= at && !e.func.CancelEvent? && (!e.func.Refresh? ==> e.child < |meters|)
    ensures Performed(meters, BS.SetEvents(q), stamp)[c].current == CurrentAt(q, c, meters[c].current, at)
  {
    if q != [] {
      var last, front := q[|q| - 1], q[..|q| - 1];
      assert last in q;
      PerformedIsInForce(meters, front, stamp, c, at);
      if !last.func.Refresh? {
        assert BS.SetEvents(q)[..|BS.SetEvents(q)| - 1] == BS.SetEvents(front);
      } else {
        assert BS.SetEvents(q) == BS.SetEvents(front);
      }
    }
  }

  lemma TakenWellFormed(st: State, n: nat, w: Wakeup)
    requires WellFormed(st) && WakeInTime(st, w) && n <= |st.queue|
    ensures WellFormed(Taken(st, n, w))
  {
    var rest := st.queue[n..];
    EmplaceKeepsOrder(rest, BS.RefreshEvent(w.refreshAt + st.maxStaleness, w.doneAt));
    forall e | e in Taken(st, n, w).queue ensures Admissible(e, |st.meters|, st.nextSequence, w.doneAt) {
      if e in rest {
        assert Admissible(e, |st.meters|, st.nextSequence, st.clock);
      }
    }
  }

  /** What is in force after a wake-up is what the remaining events say. */
  lemma WokenInForce(st: State, w: Wakeup, c: nat, t: int)
    requires Sorted(st.queue[DueCount(st.queue, w.at)..])
    ensures InForce(Woken(st, w).queue, c, t) == InForce(st.queue[DueCount(st.queue, w.at)..], c, t)
  {
    var rest := st.queue[DueCount(st.queue, w.at)..];
    var next := BS.RefreshEvent(w.refreshAt + st.maxStaleness, w.doneAt);
    assert Woken(st, w).queue in [rest, Emplace(rest, next)];
    RefreshIsInvisible(rest, next, c, t);
  }

  /** After a drain every child carries its own timeline's value at the last clock reading, and from
      there on no timeline has changed. */
  lemma WakeKeepsTimelines(st: State, w: Wakeup, c: nat, t: int)
    requires WellFormed(st) && w.at <= t && c < |st.meters|
    ensures Woken(st, w).meters[c].current == ChildAt(st, c, w.at)
    ensures ChildAt(Woken(st, w), c, t) == ChildAt(st, c, t)
  {
    var n := DueCount(st.queue, w.at);
    DrainSplits(st.queue, w.at, c, t);
    forall e | e in st.queue[..n]
      ensures e.timepoint <= w.at && !e.func.CancelEvent? && (!e.func.Refresh? ==> e.child < |st.meters|)
    {
      assert Admissible(e, |st.meters|, st.nextSequence, st.clock);
    }
    PerformedIsInForce(st.meters, st.queue[..n], w.stamp, c, w.at);
    WokenInForce(st, w, c, t);
  }

  /** The estimate steps that a stretch of performed events means for one child. */
  function StepsOf(events: seq<Event>, c: nat, stamp: nat -> int): (r: seq<Step>)
  {
    if events == [] then []
    else
      var k := |events| - 1;
      if events[k].child == c then StepsOf(events[..k], c, stamp) + [Apply(stamp(k), events[k].current)]
      else StepsOf(events[..k], c, stamp)
  }

  lemma {:induction false} PerformedIsRun(meters: seq<Meter>, events: seq<Event>, stamp: nat -> int, c: nat)
    requires c < |meters|
    ensures Performed(meters, events, stamp)[c] == Run(meters[c], StepsOf(events, c, stamp))
  {
    if events != [] {
      var k := |events| - 1;
      PerformedIsRun(meters, events[..k], stamp, c);
      var steps := StepsOf(events, c, stamp);
      if events[k].child == c {
        assert steps[..|steps| - 1] == StepsOf(events[..k], c, stamp);
      }
    }
  }

  /** A refresh leaves a child's estimate alone, at whatever time it is read, if and only if the estimates do not cancel out
      or the child is reset to the charge it had. */
  lemma ReestimatedExactly(meters: seq<Meter>, scales: Option<seq<real>>, now: int, sourceCharge: int, c: nat, t: int)
    requires c < |meters|
    ensures ChargeAt(Reestimated(meters, scales, now, sourceCharge)[c], t) == ChargeAt(meters[c], t) <==>
            (EstimationFails(AllRefreshed(meters, now), scales) ==>
               ShareOf(scales.value[c], sourceCharge) == ChargeAt(meters[c], now))
  {
    RefreshKeepsCharge(meters[c], now, t);
  }

  /** Two children with 5 each, one of which is discharged at 10 for an hour: the estimates are -5 and 5, the proportional
      policy gives them up, and the first child has 5 again. */
  lemma EstimateIsReset()
    ensures var meters := [Meter(5.0, 0, 10), Meter(5.0, 0, 0)];
            && ChargeAt(meters[0], 3_600_000) == -5.0
            && Reestimated(meters, Some([0.5, 0.5]), 3_600_000, 10)[0].charge == 5.0
  {
    var meters := [Meter(5.0, 0, 10), Meter(5.0, 0, 0)];
    var ms := AllRefreshed(meters, 3_600_000);
    OneHour(10);
    OneHour(0);
    HalfOfTen();
    hide Used, ShareOf;
    assert ms[0] == Meter(-5.0, 3_600_000, 10) && ms[1] == Meter(5.0, 3_600_000, 0);
    CancelOut(ms);
  }

  lemma OneHour(current: int)
    ensures Used(current, 3_600_000) == current as real
  {
    assert Hours(3_600_000) == 1.0;
  }

  lemma HalfOfTen()
    ensures ShareOf(0.5, 10) == 5.0
  {
    assert 10 as real * 0.5 == 5.0;
  }

  lemma CancelOut(ms: seq<Meter>)
    requires |ms| == 2 && ms[0].charge + ms[1].charge == 0.0
    ensures TotalCharge(ms) == 0.0
  {
    assert ms[..1] == [ms[0]] && [ms[0]][..0] == [];
    assert TotalCharge([ms[0]]) == ms[0].charge;
  }

  /** The estimates right before the refresh of a wake-up, if there is one. */
  function Drained(st: State, w: Wakeup): (r: seq<Meter>)
    ensures |r| == |st.meters|
  {
    Performed(st.meters, BS.SetEvents(st.queue[..DueCount(st.queue, w.at)]), w.stamp)
  }

  /** The wake-up gives the estimates up. */
  predicate Resets(st: State, w: Wakeup)
  {
    && st.active && BS.HasRefresh(st.queue[..DueCount(st.queue, w.at)])
    && EstimationFails(AllRefreshed(Drained(st, w), w.estimateAt), st.scales)
  }

  /** Whatever else is drained and whether or not a refresh follows, a child's charge estimate after a wake-up is the one
      before less the integral of the currents applied to that child, if and only if the wake-up does not give the
      estimates up or resets the child to just that. */
  lemma WakeIntegratesCharge(st: State, w: Wakeup, c: nat, t: int)
    requires c < |st.meters|
    ensures var events := BS.SetEvents(st.queue[..DueCount(st.queue, w.at)]);
            (ChargeAt(Woken(st, w).meters[c], t) ==
               st.meters[c].charge -
                 Integral(st.meters[c].current, st.meters[c].last, StepsOf(events, c, w.stamp), t)) <==>
            (Resets(st, w) ==>
               ShareOf(st.scales.value[c], w.sourceCharge) == ChargeAt(Drained(st, w)[c], w.estimateAt))
  {
    var events := BS.SetEvents(st.queue[..DueCount(st.queue, w.at)]);
    var steps := StepsOf(events, c, w.stamp);
    PerformedIsRun(st.meters, events, w.stamp, c);
    StepsOfNoResets(events, c, w.stamp);
    EstimateIsIntegral(st.meters[c], steps, t);
    hide Performed, Run, Integral, ChargeAt, AllRefreshed, EstimationFails, ShareOf, Emplace;
    ReestimatedExactly(Drained(st, w), st.scales, w.estimateAt, w.sourceCharge, c, t);
  }

  lemma {:induction false} StepsOfNoResets(events: seq<Event>, c: nat, stamp: nat -> int)
    ensures NoResets(StepsOf(events, c, stamp))
  {
    if events != [] {
      StepsOfNoResets(events[..|events| - 1], c, stamp);
    }
  }

  lemma {:induction false} TotalSame(st: State, st': State, n: nat, t: int)
    requires n <= |st.meters| == |st'.meters|
    requires forall d :: 0 <= d < |st.meters| ==> ChildAt(st', d, t) == ChildAt(st, d, t)
    ensures TotalOf(st', n, t) == TotalOf(st, n, t)
  {
    if n != 0 {
      TotalSame(st, st', n - 1, t);
    }
  }

  lemma WakeKeepsTotal(st: State, w: Wakeup, t: int)
    requires WellFormed(st) && w.at <= t
    ensures Total(Woken(st, w), t) == Total(st, t)
  {
    forall d | 0 <= d < |st.meters| ensures ChildAt(Woken(st, w), d, t) == ChildAt(st, d, t) {
      WakeKeepsTimelines(st, w, d, t);
    }
    TotalSame(st, Woken(st, w), |st.meters|, t);
  }

  // ----- background refresh -----

  function RefreshStarted(st: State, readAt: int, added: int): (r: State)
  {
    if st.maxStaleness < BS.MIN_BACKGROUND_STALENESS then st
    else
      st.(active := true, clock := added,
          queue := Emplace(st.queue, BS.RefreshEvent(readAt + st.maxStaleness, added)))
  }

  lemma RefreshStartedWellFormed(st: State, readAt: int, added: int)
    requires WellFormed(st) && st.clock <= readAt <= added
    ensures WellFormed(RefreshStarted(st, readAt, added))
  {
    EmplaceKeepsOrder(st.queue, BS.RefreshEvent(readAt + st.maxStaleness, added));
    forall e | e in RefreshStarted(st, readAt, added).queue
      ensures Admissible(e, |st.meters|, st.nextSequence, RefreshStarted(st, readAt, added).clock)
    {
      assert e in st.queue ==> Admissible(e, |st.meters|, st.nextSequence, st.clock);
    }
  }

  lemma RefreshStartedKeepsTimelines(st: State, readAt: int, added: int, c: nat, t: int)
    requires WellFormed(st) && c < |st.meters|
    ensures ChildAt(RefreshStarted(st, readAt, added), c, t) == ChildAt(st, c, t)
  {
    RefreshIsInvisible(st.queue, BS.RefreshEvent(readAt + st.maxStaleness, added), c, t);
  }

  lemma RefreshStartedKeepsTotal(st: State, readAt: int, added: int, t: int)
    requires WellFormed(st)
    ensures Total(RefreshStarted(st, readAt, added), t) == Total(st, t)
  {
    var st' := RefreshStarted(st, readAt, added);
    forall d | 0 <= d < |st.meters| ensures ChildAt(st', d, t) == ChildAt(st, d, t) {
      RefreshStartedKeepsTimelines(st, readAt, added, d, t);
    }
    TotalSame(st, st', |st.meters|, t);
  }

  // ----- background refresh goes on -----

  /** Starting background refresh queues one refresh event, one staleness after the clock reading. */
  lemma StartQueuesRefresh(st: State, readAt: int, added: int, t: int)
    requires WellFormed(st) && st.maxStaleness >= 100
    ensures RefreshStarted(st, readAt, added).active
    ensures RefreshAt(RefreshStarted(st, readAt, added).queue, t) <==>
            RefreshAt(st.queue, t) || t == readAt + st.maxStaleness
  {
    RefreshEmplaced(st.queue, BS.RefreshEvent(readAt + st.maxStaleness, added));
  }

  /** A wake-up takes out exactly the refresh events that are due; if there are any and background refresh is on, it queues
      one more, one staleness after its own reading. */
  lemma WakeQueuesRefresh(st: State, w: Wakeup, t: int)
    requires WellFormed(st)
    ensures RefreshAt(Woken(st, w).queue, t) <==>
            || (t > w.at && RefreshAt(st.queue, t))
            || (st.active && t == w.refreshAt + st.maxStaleness && exists s :: s <= w.at && RefreshAt(st.queue, s))
  {
    var q, n := st.queue, DueCount(st.queue, w.at);
    LaterRefreshes(q, w.at, t);
    BS.DueRefreshes(q, w.at);
    hide RefreshAt, BS.HasRefresh, Emplace, DueCount, Performed, Reestimated;
    RefreshEmplaced(q[n..], BS.RefreshEvent(w.refreshAt + st.maxStaleness, w.doneAt));
  }

  /** A request neither adds nor removes a refresh event. */
  lemma ScheduledKeepsRefreshes(st: State, rq: Request, t: int)
    requires WellFormed(st) && InTime(st, rq)
    ensures RefreshAt(Scheduled(st, rq).queue, t) <==> RefreshAt(st.queue, t)
  {
    FreshPair(st, rq);
    RescheduledRefreshes(st.queue, BeginEvent(st, rq), EndEvent(st, rq), t);
  }

  // ----- lazy refresh -----

  /** `get_status_of` in lazy mode refreshes when the status is stale. */
  function LazilyRefreshed(st: State, at: int, stale: bool, sourceCharge: int): (r: State)
  {
    if st.active || !stale then st.(clock := at)
    else st.(meters := Reestimated(st.meters, st.scales, at, sourceCharge), clock := at)
  }

  lemma LazilyRefreshedWellFormed(st: State, at: int, stale: bool, sourceCharge: int)
    requires WellFormed(st) && st.clock <= at
    ensures WellFormed(LazilyRefreshed(st, at, stale, sourceCharge))
  {
    forall e | e in st.queue ensures Admissible(e, |st.meters|, st.nextSequence, at) {
      assert Admissible(e, |st.meters|, st.nextSequence, st.clock);
    }
  }

  lemma LazilyRefreshedKeepsTotal(st: State, at: int, stale: bool, sourceCharge: int, t: int)
    ensures Total(LazilyRefreshed(st, at, stale, sourceCharge), t) == Total(st, t)
  {
    TotalSame(st, LazilyRefreshed(st, at, stale, sourceCharge), |st.meters|, t);
  }
}
