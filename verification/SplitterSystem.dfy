/** A splitter together with its source battery: when the source's timeline is the sum of the children's. */
module SplitterSystem {
  import opened Options
  import opened EventQueue
  import opened ChargeEstimate
  import S = Splitter
  import BS = BatteryScheduler

  datatype System = System(splitter: S.State, source: BS.State)

  /** The source carries exactly what the children ask for together. */
  predicate Agree(sys: System, t: int)
  {
    BS.Profile(sys.source.queue, sys.source.now, t).current == S.Total(sys.splitter, t)
  }

  /** The clock readings the source takes for a forwarded request. */
  datatype Readings = Readings(readAt: int, beginAdded: int, endAdded: int)

  /** The request that the splitter forwards: one total for the whole interval. */
  function Forwarded(st: S.State, rq: S.Request, rd: Readings): (r: BS.Request)
    requires rq.child < |st.meters|
  {
    BS.Request(BS.Setpoint(S.ForwardedTotal(st, rq), rq.isGreaterThan), rq.from, rq.until,
               rd.readAt, rd.beginAdded, rd.endAdded)
  }

  function Split(sys: System, delay: BS.Delay, rq: S.Request, rd: Readings): (r: System)
    requires rq.child < |sys.splitter.meters|
  {
    System(S.Scheduled(sys.splitter, rq), BS.Scheduled(sys.source, delay, Forwarded(sys.splitter, rq, rd)))
  }

  ghost predicate ZeroDelay(delay: BS.Delay)
  {
    forall a, b :: delay(a, b) == 0
  }

  ghost predicate WellFormed(sys: System)
  {
    S.WellFormed(sys.splitter) && BS.WellFormed(sys.source)
  }

  ghost predicate InTime(sys: System, rq: S.Request, rd: Readings)
  {
    S.InTime(sys.splitter, rq) && sys.source.clock <= rd.readAt <= rd.beginAdded <= rd.endAdded
  }

  /** The siblings' total does not move while the request is in force. */
  ghost predicate Steady(st: S.State, rq: S.Request)
    requires rq.child < |st.meters|
  {
    forall t :: rq.from <= t < rq.until ==> S.SiblingsAt(st, rq.child, t) == S.SiblingsAt(st, rq.child, rq.from)
  }

  // ----- one request -----

  /** At one time: an accepted request keeps source and children in agreement there exactly if the
      siblings' total is still what it was when the request starts. */
  lemma SplitAgreesAt(sys: System, delay: BS.Delay, rq: S.Request, rd: Readings, t: int)
    requires WellFormed(sys) && InTime(sys, rq, rd) && ZeroDelay(delay) && rq.from <= rq.until
    requires rd.readAt <= rq.from && Agree(sys, t)
    ensures Agree(Split(sys, delay, rq, rd), t) <==>
            (rq.from <= t < rq.until ==>
               S.SiblingsAt(sys.splitter, rq.child, t) == S.SiblingsAt(sys.splitter, rq.child, rq.from))
  {
    S.RequestTotal(sys.splitter, rq, t);
    BS.OrderedRequestOverlays(sys.source, delay, Forwarded(sys.splitter, rq, rd), t);
  }

  /** What the source is then asked for: over the whole interval the total that the children ask for at its start, with the
      target in place, in the sense of the request; and what it was asked for before otherwise. */
  lemma SourceIsAsked(sys: System, delay: BS.Delay, rq: S.Request, rd: Readings, t: int)
    requires WellFormed(sys) && InTime(sys, rq, rd) && ZeroDelay(delay) && rq.from <= rq.until && rd.readAt <= rq.from
    ensures var source := Split(sys, delay, rq, rd).source;
            BS.Profile(source.queue, source.now, t) ==
              if rq.from <= t < rq.until
              then BS.Setpoint(S.Total(sys.splitter, rq.from) - S.ChildAt(sys.splitter, rq.child, rq.from) + rq.target,
                               rq.isGreaterThan)
              else BS.Profile(sys.source.queue, sys.source.now, t)
  {
    BS.OrderedRequestOverlays(sys.source, delay, Forwarded(sys.splitter, rq, rd), t);
  }

  /** At one time, for a source with any delays that keep the forwarded interval ordered: where both timelines have the
      request, the siblings' total must be the one at the start; where only the source has it, the children's total must
      be what was forwarded anyway; where only the child has it, the child must have had the target. */
  lemma DelayedSplitAgreesAt(sys: System, delay: BS.Delay, rq: S.Request, rd: Readings, t: int)
    requires WellFormed(sys) && InTime(sys, rq, rd) && rq.from <= rq.until && rd.readAt <= rq.from && Agree(sys, t)
    requires var forwarded := Forwarded(sys.splitter, rq, rd);
             BS.EffectiveFrom(sys.source, delay, forwarded) <= BS.EffectiveUntil(sys.source, delay, forwarded)
    ensures var st, forwarded := sys.splitter, Forwarded(sys.splitter, rq, rd);
            var atSource :=
              BS.EffectiveFrom(sys.source, delay, forwarded) <= t < BS.EffectiveUntil(sys.source, delay, forwarded);
            var atChild := rq.from <= t < rq.until;
            Agree(Split(sys, delay, rq, rd), t) <==>
              && (atSource && atChild ==> S.SiblingsAt(st, rq.child, t) == S.SiblingsAt(st, rq.child, rq.from))
              && (atSource && !atChild ==> S.Total(st, t) == S.ForwardedTotal(st, rq))
              && (!atSource && atChild ==> S.ChildAt(st, rq.child, t) == rq.target)
  {
    S.RequestTotal(sys.splitter, rq, t);
    BS.OrderedRequestOverlays(sys.source, delay, Forwarded(sys.splitter, rq, rd), t);
  }

  /** Source agreement, exactly: from any time not after the start of the request on, an accepted
      request keeps the source's timeline equal to the sum of the children's timelines if and only
      if the siblings' total is constant over the requested interval. */
  lemma SplitAgreesExactly(sys: System, delay: BS.Delay, rq: S.Request, rd: Readings, since: int)
    requires WellFormed(sys) && InTime(sys, rq, rd) && ZeroDelay(delay) && rq.from <= rq.until
    requires rd.readAt <= rq.from && since <= rq.from
    requires forall t :: since <= t ==> Agree(sys, t)
    ensures (forall t :: since <= t ==> Agree(Split(sys, delay, rq, rd), t)) <==> Steady(sys.splitter, rq)
  {
    var sys' := Split(sys, delay, rq, rd);
    forall t | since <= t
      ensures Agree(sys', t) <==>
              (rq.from <= t < rq.until ==>
                 S.SiblingsAt(sys.splitter, rq.child, t) == S.SiblingsAt(sys.splitter, rq.child, rq.from))
    {
      SplitAgreesAt(sys, delay, rq, rd, t);
    }
    if forall t :: since <= t ==> Agree(sys', t) {
      forall t | rq.from <= t < rq.until
        ensures S.SiblingsAt(sys.splitter, rq.child, t) == S.SiblingsAt(sys.splitter, rq.child, rq.from)
      {
        assert Agree(sys', t);
      }
    }
  }

  /** When the source refuses because its own clock has passed the start, the splitter has changed its
      queue all the same: agreement survives only where the child already had the target. */
  lemma RefusedSplitAgrees(sys: System, delay: BS.Delay, rq: S.Request, rd: Readings, t: int)
    requires WellFormed(sys) && InTime(sys, rq, rd) && rq.from <= rq.until
    requires rd.readAt > rq.from && Agree(sys, t)
    ensures Agree(Split(sys, delay, rq, rd), t) <==>
            (rq.from <= t < rq.until ==> S.ChildAt(sys.splitter, rq.child, t) == rq.target)
  {
    S.RequestTotal(sys.splitter, rq, t);
  }

  /** A source whose clock is ahead: child 0 asks for 3 on [10, 30), the source reads 11 and refuses, and at time 20 the
      children together ask for 3 that nobody told the source about. */
  lemma RefusedSplitDisagrees(delay: BS.Delay)
    ensures var sys := System(S.State([], [Meter(0.0, 0, 0)], 0, false, 1000, None, 0), BS.Initial(1000, 0));
            Agree(sys, 20) &&
            !Agree(Split(sys, delay, S.Request(0, 3, false, 10, 30, 0, 0, 0), Readings(11, 11, 11)), 20)
  {
    var st := S.State([], [Meter(0.0, 0, 0)], 0, false, 1000, None, 0);
    IdleTotal(st, 1, 20);
    RefusedSplitAgrees(System(st, BS.Initial(1000, 0)), delay, S.Request(0, 3, false, 10, 30, 0, 0, 0),
                       Readings(11, 11, 11), 20);
  }

  /** Why the siblings must be steady: with sibling 1 due to go from 0 to 5 at time 20, a request of
      child 0 for [10, 30) leaves the source 5 short at time 20. */
  lemma StaggeredRequestsDisagree(delay: BS.Delay)
    requires ZeroDelay(delay)
    ensures var idle := Meter(0.0, 0, 0);
            var sys0 := System(S.State([], [idle, idle], 0, false, 1000, None, 0), BS.Initial(1000, 0));
            var sys1 := Split(sys0, delay, S.Request(1, 5, false, 20, 40, 0, 0, 0), Readings(0, 0, 0));
            var sys2 := Split(sys1, delay, S.Request(0, 3, false, 10, 30, 0, 0, 0), Readings(0, 0, 0));
            Agree(sys1, 20) && !Agree(sys2, 20)
  {
    var idle := Meter(0.0, 0, 0);
    var st := S.State([], [idle, idle], 0, false, 1000, None, 0);
    var sys0 := System(st, BS.Initial(1000, 0));
    var first, second := S.Request(1, 5, false, 20, 40, 0, 0, 0), S.Request(0, 3, false, 10, 30, 0, 0, 0);
    var rd := Readings(0, 0, 0);
    IdleTotal(st, 2, 20);
    IdleTotal(st, 2, 10);
    SplitAgreesAt(sys0, delay, first, rd, 20);
    var sys1 := Split(sys0, delay, first, rd);
    S.ScheduledWellFormed(st, first);
    BS.ScheduledWellFormed(sys0.source, delay, Forwarded(st, first, rd));
    S.RequestTotal(st, first, 20);
    S.RequestTotal(st, first, 10);
    S.RequestOverlaysOneChild(st, first, 0, 20);
    S.RequestOverlaysOneChild(st, first, 0, 10);
    SplitAgreesAt(sys1, delay, second, rd, 20);
  }

  lemma {:induction false} IdleTotal(st: S.State, n: nat, t: int)
    requires n <= |st.meters| && st.queue == []
    requires forall c :: 0 <= c < |st.meters| ==> st.meters[c].current == 0
    ensures S.TotalOf(st, n, t) == 0
  {
    if n != 0 {
      IdleTotal(st, n - 1, t);
    }
  }

  // ----- runs -----

  datatype Step =
    | SplitStep(rq: S.Request, rd: Readings)
    | SplitterWake(sw: S.Wakeup)
    | SourceWake(bw: BS.Wakeup)
    | SplitterRefresh(readAt: int, added: int)
    | SourceRefresh(readAt: int, added: int)
    | StopRefresh(ofSource: bool)
    | LazyRefresh(at: int, stale: bool, sourceCharge: int)

  ghost predicate Legal(sys: System, step: Step)
  {
    match step
    case SplitStep(rq, rd) =>
      InTime(sys, rq, rd) && rq.from <= rq.until && rd.readAt <= rq.from && Steady(sys.splitter, rq)
    case SplitterWake(w) => S.WakeInTime(sys.splitter, w)
    case SourceWake(w) => BS.WakeInTime(sys.source, w) && w.driverOk
    case SplitterRefresh(readAt, added) => sys.splitter.clock <= readAt <= added
    case SourceRefresh(readAt, added) => sys.source.clock <= readAt <= added
    case StopRefresh(_) => true
    case LazyRefresh(at, _, _) => sys.splitter.clock <= at
  }

  function Apply(sys: System, delay: BS.Delay, step: Step): (r: System)
  {
    match step
    case SplitStep(rq, rd) => if rq.child < |sys.splitter.meters| then Split(sys, delay, rq, rd) else sys
    case SplitterWake(w) => sys.(splitter := S.Woken(sys.splitter, w))
    case SourceWake(w) => sys.(source := BS.Woken(sys.source, w))
    case SplitterRefresh(readAt, added) => sys.(splitter := S.RefreshStarted(sys.splitter, readAt, added))
    case SourceRefresh(readAt, added) => sys.(source := BS.RefreshStarted(sys.source, readAt, added))
    case StopRefresh(ofSource) =>
      if ofSource then sys.(source := sys.source.(active := false))
      else sys.(splitter := sys.splitter.(active := false))
    case LazyRefresh(at, stale, sourceCharge) =>
      sys.(splitter := S.LazilyRefreshed(sys.splitter, at, stale, sourceCharge))
  }

  function Run(sys: System, delay: BS.Delay, steps: seq<Step>): (r: System)
  {
    if steps == [] then sys
    else Apply(Run(sys, delay, steps[..|steps| - 1]), delay, steps[|steps| - 1])
  }

  ghost predicate LegalRun(sys: System, delay: BS.Delay, steps: seq<Step>)
  {
    steps != [] ==>
      && LegalRun(sys, delay, steps[..|steps| - 1])
      && Legal(Run(sys, delay, steps[..|steps| - 1]), steps[|steps| - 1])
  }

  /** The step is not a wake-up later than `t`. */
  ghost predicate Before(step: Step, t: int)
  {
    match step
    case SplitterWake(w) => w.at <= t
    case SourceWake(w) => w.at <= t
    case _ => true
  }

  lemma StepWellFormed(sys: System, delay: BS.Delay, step: Step)
    requires WellFormed(sys) && Legal(sys, step)
    ensures WellFormed(Apply(sys, delay, step))
  {
    match step
    case SplitStep(rq, rd) =>
      S.ScheduledWellFormed(sys.splitter, rq);
      BS.ScheduledWellFormed(sys.source, delay, Forwarded(sys.splitter, rq, rd));
    case SplitterWake(w) => S.TakenWellFormed(sys.splitter, DueCount(sys.splitter.queue, w.at), w);
    case SourceWake(w) => BS.TakenWellFormed(sys.source, DueCount(sys.source.queue, w.at), w);
    case SplitterRefresh(readAt, added) => S.RefreshStartedWellFormed(sys.splitter, readAt, added);
    case SourceRefresh(readAt, added) => BS.RefreshStartedWellFormed(sys.source, readAt, added);
    case StopRefresh(_) =>
    case LazyRefresh(at, stale, sourceCharge) => S.LazilyRefreshedWellFormed(sys.splitter, at, stale, sourceCharge);
  }

  lemma StepAgrees(sys: System, delay: BS.Delay, step: Step, t: int)
    requires WellFormed(sys) && Legal(sys, step) && ZeroDelay(delay) && Before(step, t) && Agree(sys, t)
    ensures Agree(Apply(sys, delay, step), t)
  {
    match step
    case SplitStep(rq, rd) => SplitAgreesAt(sys, delay, rq, rd, t);
    case SplitterWake(w) => S.WakeKeepsTotal(sys.splitter, w, t);
    case SourceWake(w) => BS.WakeKeepsTimeline(sys.source, w, t);
    case SplitterRefresh(readAt, added) => S.RefreshStartedKeepsTotal(sys.splitter, readAt, added, t);
    case SourceRefresh(readAt, added) =>
      RefreshIsInvisible(sys.source.queue, BS.RefreshEvent(readAt + sys.source.maxStaleness, added), 0, t);
    case StopRefresh(ofSource) =>
      if !ofSource {
        StoppedTotal(sys.splitter, |sys.splitter.meters|, t);
      }
    case LazyRefresh(at, stale, sourceCharge) => S.LazilyRefreshedKeepsTotal(sys.splitter, at, stale, sourceCharge, t);
  }

  lemma {:induction false} StoppedTotal(st: S.State, n: nat, t: int)
    requires n <= |st.meters|
    ensures S.TotalOf(st.(active := false), n, t) == S.TotalOf(st, n, t)
  {
    if n != 0 {
      StoppedTotal(st, n - 1, t);
    }
  }

  /** Over every run of split requests, wake-ups and refresh starts and stops on either side, in any interleaving, the source's
      timeline is the sum of the children's timelines from the last wake-up on. */
  lemma {:induction false} RunAgrees(sys: System, delay: BS.Delay, steps: seq<Step>, t: int)
    requires WellFormed(sys) && ZeroDelay(delay) && LegalRun(sys, delay, steps)
    requires Agree(sys, t) && forall i :: 0 <= i < |steps| ==> Before(steps[i], t)
    ensures WellFormed(Run(sys, delay, steps))
    ensures Agree(Run(sys, delay, steps), t)
  {
    if steps != [] {
      var front, last := steps[..|steps| - 1], steps[|steps| - 1];
      RunAgrees(sys, delay, front, t);
      StepWellFormed(Run(sys, delay, front), delay, last);
      StepAgrees(Run(sys, delay, front), delay, last, t);
    }
  }

  /** When the source wakes up last, the current it is set to is the sum of what the children's
      timelines ask for at that moment. */
  lemma SourceCarriesTheSum(sys: System, delay: BS.Delay, steps: seq<Step>, w: BS.Wakeup)
    requires WellFormed(sys) && ZeroDelay(delay) && LegalRun(sys, delay, steps + [SourceWake(w)])
    requires Agree(sys, w.at) && forall i :: 0 <= i < |steps| ==> Before(steps[i], w.at)
    ensures var end := Run(sys, delay, steps + [SourceWake(w)]);
            end.source.now.current == S.Total(end.splitter, w.at)
  {
    assert (steps + [SourceWake(w)])[..|steps|] == steps;
    RunAgrees(sys, delay, steps, w.at);
    var before := Run(sys, delay, steps);
    assert Run(sys, delay, steps + [SourceWake(w)]) == before.(source := BS.Woken(before.source, w));
    hide Run, LegalRun, S.WellFormed, BS.WellFormed, BS.Woken, S.Total;
    BS.WakeKeepsTimeline(before.source, w, w.at);
  }
}
