/** The imperative form of the splitter: `BALSplitter::schedule_set_current_of`, `set_current`, the
    charge-estimate loop and the splitter branch of the background thread.
 */
module SplitterPolicy {
  import opened Options
  import opened Reals
  import opened Sums
  import opened EventQueue
  import opened ChargeEstimate
  import S = Splitter
  import BS = BatteryScheduler
  import Sys = SplitterSystem

  lemma {:induction false} SumIsTotal(st: S.State, xs: seq<int>, n: nat, t: int)
    requires n <= |xs| == |st.meters|
    requires forall c :: 0 <= c < |xs| ==> xs[c] == S.ChildAt(st, c, t)
    ensures Sum(xs[..n]) == S.TotalOf(st, n, t)
  {
    if n != 0 {
      SumIsTotal(st, xs, n - 1, t);
      assert xs[..n][..n - 1] == xs[..n - 1];
    }
  }

  /** Summing the preview, with the named child's entry replaced by the target, gives the total to
      forward. */
  lemma TotalForwarded(st: S.State, rq: S.Request, xs: seq<int>)
    requires rq.child < |xs| == |st.meters|
    requires forall c :: 0 <= c < |xs| ==> xs[c] == S.ChildAt(st, c, rq.from)
    ensures Sum(xs[rq.child := rq.target]) == S.ForwardedTotal(st, rq)
  {
    SumUpdate(xs, rq.child, rq.target);
    SumIsTotal(st, xs, |xs|, rq.from);
    assert xs[..|xs|] == xs;
  }

  lemma LaterClock(st: S.State, clock: int)
    requires S.WellFormed(st) && st.clock <= clock
    ensures S.WellFormed(st.(clock := clock))
  {
    forall e | e in st.queue ensures S.Admissible(e, |st.meters|, st.nextSequence, clock) {
      assert S.Admissible(e, |st.meters|, st.nextSequence, st.clock);
    }
  }

  /** The previewed currents of all children are those of the timelines at time `t`, as far as the
      first `i` events tell. */
  ghost predicate Previewed(q: seq<Event>, i: nat, base: seq<int>, xs: seq<int>, t: int)
    requires i <= |q|
  {
    |xs| == |base| && forall c :: 0 <= c < |base| ==> xs[c] == CurrentAt(q[..i], c, base[c], t)
  }

  lemma PreviewedNext(q: seq<Event>, i: nat, base: seq<int>, xs: seq<int>, t: int)
    requires i < |q| && Previewed(q, i, base, xs, t) && q[i].timepoint <= t
    requires !q[i].func.Refresh? ==> q[i].child < |base|
    ensures Previewed(q, i + 1, base, if q[i].func.Refresh? then xs else xs[q[i].child := q[i].current], t)
  {
    assert q[..i + 1][..i] == q[..i];
  }

  /** Past the events that are due at `t`, the preview is complete. */
  lemma PreviewedAll(q: seq<Event>, i: nat, base: seq<int>, xs: seq<int>, t: int, later: int)
    requires i <= |q| && Previewed(q, i, base, xs, later) && t <= later
    requires forall j :: 0 <= j < i ==> q[j].timepoint <= t
    requires forall j :: i <= j < |q| ==> q[j].timepoint > t
    ensures Previewed(q, |q|, base, xs, t)
  {
    assert q[..|q|] == q;
    forall c | 0 <= c < |base| ensures xs[c] == CurrentAt(q, c, base[c], t) {
      AllDue(q[..i], c, t, later);
      InForcePrefix(q, i, c, t);
    }
  }

  lemma PreviewedIsChildAt(st: S.State, base: seq<int>, xs: seq<int>, t: int)
    requires |base| == |st.meters| && forall c :: 0 <= c < |base| ==> base[c] == st.meters[c].current
    requires Previewed(st.queue, |st.queue|, base, xs, t)
    ensures |xs| == |st.meters| && forall c :: 0 <= c < |xs| ==> xs[c] == S.ChildAt(st, c, t)
  {
    assert st.queue[..|st.queue|] == st.queue;
  }

  lemma QueuedChildren(st: S.State)
    requires S.WellFormed(st)
    ensures forall e :: e in st.queue && !e.func.Refresh? ==> e.child < |st.meters|
  {
    forall e | e in st.queue && !e.func.Refresh? ensures e.child < |st.meters| {
      assert S.Admissible(e, |st.meters|, st.nextSequence, st.clock);
    }
  }

  /** One of the two preview loops: go on to the first event after `bound`, following every child's
      current and collecting the named child's events inside the interval. */
  method Scan(queue: seq<Event>, start: nat, currents: seq<int>, found: seq<Event>,
              child: nat, bound: int, from: int, until: int, ghost base: seq<int>, ghost later: int)
    returns (next: nat, upToNow: seq<int>, overlapped: seq<Event>)
    requires start <= |queue| && bound <= later
    requires forall e :: e in queue && !e.func.Refresh? ==> e.child < |base|
    requires Previewed(queue, start, base, currents, later)
    requires EventsOf(found) == Overlapped(queue[..start], child, from, until)
    ensures start <= next <= |queue|
    ensures forall j :: start <= j < next ==> queue[j].timepoint <= bound
    ensures next < |queue| ==> queue[next].timepoint > bound
    ensures Previewed(queue, next, base, upToNow, later)
    ensures EventsOf(overlapped) == Overlapped(queue[..next], child, from, until)
  {
    next, upToNow, overlapped := start, currents, found;
    while next < |queue|
      invariant start <= next <= |queue|
      invariant forall j :: start <= j < next ==> queue[j].timepoint <= bound
      invariant Previewed(queue, next, base, upToNow, later)
      invariant EventsOf(overlapped) == Overlapped(queue[..next], child, from, until)
    {
      var event := queue[next];
      assert event in queue;
      if event.timepoint > bound {
        break;
      }
      PreviewedNext(queue, next, base, upToNow, later);
      OverlappedNext(queue, next, child, from, until);
      if !event.func.Refresh? {
        if event.child == child && from <= event.timepoint <= until {
          EventsOfNext(overlapped, event);
          overlapped := overlapped + [event];
        }
        upToNow := upToNow[event.child := event.current];
      }
      next := next + 1;
    }
  }

  /** Both preview loops: everybody's current at the start of the interval, the named child's current
      to resume at its end, and the child's events to remove. */
  method Preview(queue: seq<Event>, base: seq<int>, child: nat, from: int, until: int)
    returns (atStart: seq<int>, atEnd: seq<int>, overlapped: seq<Event>)
    requires Sorted(queue) && child < |base|
    requires forall e :: e in queue && !e.func.Refresh? ==> e.child < |base|
    ensures Previewed(queue, |queue|, base, atStart, from)
    ensures Previewed(queue, |queue|, base, atEnd, S.Max(from, until))
    ensures EventsOf(overlapped) == Overlapped(queue, child, from, until)
  {
    ghost var later := S.Max(from, until);
    assert EventsOf([]) == Overlapped(queue[..0], child, from, until);
    var i, found;
    i, atStart, found := Scan(queue, 0, base, [], child, from, from, until, base, later);
    if i < |queue| {
      SortedByTime(queue, i, from);
    }
    PreviewedAll(queue, i, base, atStart, from, later);
    var k;
    k, atEnd, overlapped := Scan(queue, i, atStart, found, child, until, from, until, base, later);
    assert from > until ==> k == i;
    if k < |queue| {
      SortedByTime(queue, k, later);
    }
    PreviewedAll(queue, k, base, atEnd, later, later);
    OverlappedPrefix(queue, k, child, from, until);
  }

  class BALSplitter {
    const source: BS.Battery
    const nameLookup: map<string, nat>
    const maxStaleness: nat
    const scales: Option<seq<real>>
    var maxDischarging: seq<int>
    var maxCharging: seq<int>
    var eventQueue: seq<Event>
    var meters: seq<Meter>
    var currentSequenceNumber: nat
    var refreshActive: bool
    ghost var clock: int

    ghost function Value(): (st: S.State)
      reads this
    {
      S.State(eventQueue, meters, currentSequenceNumber, refreshActive, maxStaleness, scales, clock)
    }

    ghost predicate Valid()
      reads this
    {
      && S.WellFormed(Value())
      && |maxDischarging| == |meters| == |maxCharging|
      && forall name :: name in nameLookup ==> nameLookup[name] < |meters|
    }

    /** Every child starts idle, with its share of the source's charge. */
    constructor (source: BS.Battery, names: seq<string>, charges: seq<real>,
                 maxDischarging: seq<int>, maxCharging: seq<int>, maxStaleness: nat,
                 scales: Option<seq<real>>, now: int)
      requires |names| == |charges| == |maxDischarging| == |maxCharging|
      ensures Valid() && this.source == source && this.scales == scales
      ensures eventQueue == [] && |meters| == |names|
      ensures forall i :: 0 <= i < |names| ==> meters[i] == Meter(charges[i], now, 0)
      ensures forall i :: 0 <= i < |names| ==> names[i] in nameLookup && names[nameLookup[names[i]]] == names[i]
    {
      this.source, this.scales := source, scales;
      this.maxDischarging, this.maxCharging, this.maxStaleness := maxDischarging, maxCharging, maxStaleness;
      eventQueue, currentSequenceNumber, refreshActive, clock := [], 0, false, now;
      meters := seq(|names|, i requires 0 <= i < |names| => Meter(charges[i], now, 0));
      var lookup: map<string, nat> := map[];
      for i := 0 to |names|
        invariant forall name :: name in lookup ==> lookup[name] < i && names[lookup[name]] == name
        invariant forall j :: 0 <= j < i ==> names[j] in lookup
      {
        lookup := lookup[names[i] := i];
      }
      nameLookup := lookup;
    }

    /** `BALSplitter::schedule_set_current_of`. A refused request changes nothing; an accepted one
        edits the splitter's queue and then the source's, whose answer is the result. */
    method ScheduleSetCurrentOf(name: string, target: int, isGreaterThan: bool, from: int, until: int,
                                readAt: int, beginAdded: int, endAdded: int, rd: Sys.Readings)
      returns (success: bool)
      requires Valid() && source.Valid()
      requires clock <= readAt <= beginAdded <= endAdded
      requires source.clock <= rd.readAt <= rd.beginAdded <= rd.endAdded
      modifies this, source
      ensures Valid() && source.Valid()
      ensures |meters| == old(|meters|)
      ensures if && readAt <= from && name in nameLookup
                 && old(if target >= 0 then target <= maxDischarging[nameLookup[name]]
                        else -target <= maxCharging[nameLookup[name]])
              then
                var rq := S.Request(nameLookup[name], target, isGreaterThan, from, until,
                                    readAt, beginAdded, endAdded);
                && success == (rd.readAt <= from)
                && Sys.System(Value(), source.Value()) ==
                     Sys.Split(Sys.System(old(Value()), old(source.Value())), source.delay, rq, rd)
              else
                !success && Value() == old(Value()).(clock := readAt) && source.Value() == old(source.Value())
    {
      LaterClock(Value(), readAt);
      if from < readAt || name !in nameLookup {
        clock := readAt;
        return false;
      }
      var child := nameLookup[name];
      if (target >= 0 && target > maxDischarging[child]) || (target < 0 && -target > maxCharging[child]) {
        clock := readAt;
        return false;
      }
      success := Forward(
        S.Request(child, target, isGreaterThan, from, until, readAt, beginAdded, endAdded), rd);
    }

    /** An accepted request: the splitter's queue first, then the source. */
    method Forward(rq: S.Request, rd: Sys.Readings) returns (success: bool)
      requires Valid() && source.Valid()
      requires Sys.InTime(Sys.System(Value(), source.Value()), rq, rd)
      modifies this`eventQueue, this`currentSequenceNumber, this`clock, source
      ensures Valid() && source.Valid()
      ensures success == (rd.readAt <= rq.from)
      ensures Value() == S.Scheduled(old(Value()), rq)
      ensures source.Value() ==
                BS.Scheduled(old(source.Value()), source.delay, Sys.Forwarded(old(Value()), rq, rd))
    {
      S.ScheduledWellFormed(Value(), rq);
      var total := Reschedule(rq);
      clock := rq.endAdded;
      success := source.ScheduleSetCurrent(
        BS.Request(BS.Setpoint(total, rq.isGreaterThan), rq.from, rq.until, rd.readAt, rd.beginAdded, rd.endAdded));
    }

    /** The edit of the splitter's own queue; returns the total to forward. */
    method Reschedule(rq: S.Request) returns (total: int)
      requires Valid() && rq.child < |meters|
      modifies this`eventQueue, this`currentSequenceNumber
      ensures total == S.ForwardedTotal(old(Value()), rq)
      ensures currentSequenceNumber == old(currentSequenceNumber) + 2
      ensures eventQueue == Rescheduled(old(eventQueue), S.BeginEvent(old(Value()), rq), S.EndEvent(old(Value()), rq))
    {
      hide Emplace, Erase, Overlapped, EventsOf, Sum, Previewed, S.ForwardedTotal, S.ChildAt;
      ghost var st := Value();
      var currents := seq(|meters|, c requires 0 <= c < |meters| reads this => meters[c].current);
      QueuedChildren(st);
      var atStart, atEnd, overlapped := Preview(eventQueue, currents, rq.child, rq.from, rq.until);
      PreviewedIsChildAt(st, currents, atStart, rq.from);
      PreviewedIsChildAt(st, currents, atEnd, S.Max(rq.from, rq.until));
      total := AddUp(atStart[rq.child := rq.target]);
      TotalForwarded(st, rq, atStart);
      eventQueue := BS.EraseEach(eventQueue, overlapped);
      Enqueue(rq.from, rq.beginAdded, Function.SetCurrent, rq.target, rq.isGreaterThan, rq.child);
      Enqueue(rq.until, rq.endAdded, SetCurrentEnd, atEnd[rq.child], rq.isGreaterThan, rq.child);
    }

    method Enqueue(timepoint: int, added: int, func: Function, current: int, isGreaterThan: bool, child: nat)
      modifies this`eventQueue, this`currentSequenceNumber
      ensures eventQueue == Emplace(old(eventQueue),
                Event(timepoint, added, old(currentSequenceNumber), func, current, isGreaterThan, child))
      ensures currentSequenceNumber == old(currentSequenceNumber) + 1
    {
      eventQueue := Emplace(eventQueue,
        Event(timepoint, added, currentSequenceNumber, func, current, isGreaterThan, child));
      currentSequenceNumber := currentSequenceNumber + 1;
    }

    /** `BALSplitter::set_current` for one child. */
    method SetCurrent(current: int, child: nat, now: int)
      requires child < |meters|
      modifies this`meters
      ensures meters == old(meters)[child := CurrentSet(old(meters)[child], now, current)]
    {
      var m := meters[child];
      meters := meters[child := Meter(m.charge - Used(m.current, now - m.last), now, current)];
    }

    /** The estimate loop at the head of each refresh function. */
    method EstimateCharges(now: int)
      modifies this`meters
      ensures meters == S.AllRefreshed(old(meters), now)
    {
      for i := 0 to |meters|
        invariant |meters| == |old(meters)|
        invariant forall c :: 0 <= c < |meters| ==>
                    meters[c] == if c < i then Refreshed(old(meters)[c], now) else old(meters)[c]
      {
        var m := meters[i];
        meters := meters[i := Meter(m.charge - Used(m.current, now - m.last), now, m.current)];
      }
    }

    /** The sum of the estimates. */
    method AddCharges() returns (total: real)
      ensures total == S.TotalCharge(meters)
    {
      total := 0.0;
      for i := 0 to |meters|
        invariant total == S.TotalCharge(meters[..i])
      {
        assert meters[..i + 1][..i] == meters[..i];
        total := total + meters[i].charge;
      }
      assert meters[..|meters|] == meters;
    }

    /** What the refresh functions do to the estimates: under the proportional policy, estimates that cancel out are
        overwritten one after another. */
    method Reestimate(now: int, sourceCharge: int)
      modifies this`meters
      ensures meters == S.Reestimated(old(meters), scales, now, sourceCharge)
      ensures var total := S.TotalCharge(S.AllRefreshed(old(meters), now));
              |meters| == old(|meters|) && forall c :: 0 <= c < |meters| ==>
                meters[c].charge ==
                  if scales.Some? && |scales.value| == |meters| && -0.000001 < total < 0.000001
                  then Trunc(sourceCharge as real * scales.value[c]) as real
                  else ChargeAt(old(meters)[c], now)
    {
      EstimateCharges(now);
      ghost var ms := meters;
      var total := AddCharges();
      if scales.Some? && |scales.value| == |meters| && -0.000001 < total < 0.000001 {
        for i := 0 to |meters|
          invariant |meters| == |ms|
          invariant forall c :: 0 <= c < |meters| ==>
                      meters[c] == if c < i then ms[c].(charge := S.ShareOf(scales.value[c], sourceCharge)) else ms[c]
        {
          meters := meters[i := meters[i].(charge := S.ShareOf(scales.value[i], sourceCharge))];
        }
      }
    }

    /** `get_status_of`, as far as it changes anything: in lazy mode a stale status is refreshed. */
    method GetStatusOf(name: string, at: int, stale: bool, sourceCharge: int) returns (known: bool)
      requires Valid() && clock <= at
      modifies this
      ensures Valid() && known == (name in nameLookup)
      ensures Value() == S.LazilyRefreshed(old(Value()), at, known && stale, sourceCharge)
      ensures meters == if known && stale && !old(refreshActive)
                        then S.Reestimated(old(meters), scales, at, sourceCharge) else old(meters)
    {
      known := name in nameLookup;
      S.LazilyRefreshedWellFormed(Value(), at, known && stale, sourceCharge);
      if known && !refreshActive && stale {
        Reestimate(at, sourceCharge);
      }
      clock := at;
    }

    method PerformAll(events: seq<Event>, stamp: nat -> int)
      requires forall i :: 0 <= i < |events| ==> events[i].child < |meters|
      modifies this`meters
      ensures meters == S.Performed(old(meters), events, stamp)
    {
      for i := 0 to |events|
        invariant |meters| == |old(meters)|
        invariant meters == S.Performed(old(meters), events[..i], stamp)
      {
        assert events[..i + 1][..i] == events[..i];
        SetCurrent(events[i].current, events[i].child, stamp(i));
      }
      assert events[..|events|] == events;
    }

    /** One pass of the background thread: perform every due set-current event, then refresh. */
    method WakeUp(reading: nat -> int, stamp: nat -> int, estimateAt: int, sourceCharge: int, refreshAt: int, doneAt: int)
      returns (ghost at: int)
      requires Valid() && clock <= reading(0)
      requires forall i: nat, j: nat :: i <= j ==> reading(i) <= reading(j)
      requires forall i: nat :: reading(i) <= doneAt
      modifies this
      ensures Valid()
      ensures exists i: nat :: at == reading(i)
      ensures Value() == S.Woken(old(Value()), S.Wakeup(at, stamp, estimateAt, sourceCharge, refreshAt, doneAt))
    {
      hide Emplace, S.Performed, S.Reestimated, BS.SetEvents, DueCount;
      ghost var st := Value();
      var rest, hasRefresh, hasCancel, setEvents, taken := BS.Drain(eventQueue, reading);
      at := reading(taken);
      ghost var w := S.Wakeup(at, stamp, estimateAt, sourceCharge, refreshAt, doneAt);
      S.TakenWellFormed(st, taken, w);
      SetEventsChildren(st, taken);
      eventQueue := rest;
      PerformAll(setEvents, stamp);
      if hasRefresh && refreshActive {
        Reestimate(estimateAt, sourceCharge);
        eventQueue := Emplace(eventQueue, BS.RefreshEvent(refreshAt + maxStaleness, doneAt));
      }
      clock := doneAt;
      assert Value() == S.Taken(st, taken, w);
    }

    /** `Battery::start_background_refresh`, which the splitter inherits. */
    method StartBackgroundRefresh(readAt: int, added: int) returns (started: bool)
      requires Valid() && clock <= readAt <= added
      modifies this
      ensures Valid()
      ensures started == (maxStaleness >= 100)
      ensures Value() == S.RefreshStarted(old(Value()), readAt, added)
    {
      S.RefreshStartedWellFormed(Value(), readAt, added);
      if maxStaleness < BS.MIN_BACKGROUND_STALENESS {
        return false;
      }
      refreshActive := true;
      eventQueue := Emplace(eventQueue, BS.RefreshEvent(readAt + maxStaleness, added));
      clock := added;
      return true;
    }
  }

  lemma {:induction false} SetEventsMembers(q: seq<Event>)
    ensures forall e :: e in BS.SetEvents(q) ==> e in q && !e.func.Refresh?
  {
    if q != [] {
      SetEventsMembers(q[..|q| - 1]);
    }
  }

  lemma SetEventsChildren(st: S.State, n: nat)
    requires S.WellFormed(st) && n <= |st.queue|
    ensures forall i :: 0 <= i < |BS.SetEvents(st.queue[..n])| ==>
              BS.SetEvents(st.queue[..n])[i].child < |st.meters|
  {
    var events := BS.SetEvents(st.queue[..n]);
    SetEventsMembers(st.queue[..n]);
    forall i | 0 <= i < |events| ensures events[i].child < |st.meters| {
      assert events[i] in events && events[i] in st.queue;
      assert S.Admissible(events[i], |st.meters|, st.nextSequence, st.clock);
    }
  }
}
