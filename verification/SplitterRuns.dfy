/** Whole runs of a V2 splitter: requests for any of its children, wake-ups, refreshes started and stopped, lazy
    refreshes.
 */
module SplitterRuns {
  import opened Options
  import opened EventQueue
  import CE = ChargeEstimate
  import BS = BatteryScheduler
  import opened Splitter

  /** A request comes with the answer of the limit check on the child's current. */
  datatype Step =
    | Schedule(rq: Request, withinLimits: bool)
    | Wake(w: Wakeup)
    | StartRefresh(readAt: int, added: int)
    | StopRefresh
    | LazyRefresh(at: int, stale: bool, sourceCharge: int)

  predicate Accepts(step: Step)
  {
    step.Schedule? && step.withinLimits && step.rq.readAt <= step.rq.from
  }

  function Apply(st: State, step: Step): (r: State)
    ensures |r.meters| == |st.meters|
  {
    match step
    case Schedule(rq, _) =>
      if Accepts(step) && rq.child < |st.meters| then Scheduled(st, rq) else st.(clock := rq.readAt)
    case Wake(w) => Woken(st, w)
    case StartRefresh(readAt, added) => RefreshStarted(st, readAt, added)
    case StopRefresh => st.(active := false)
    case LazyRefresh(at, stale, sourceCharge) => LazilyRefreshed(st, at, stale, sourceCharge)
  }

  /** Clock readings do not go back, children exist, intervals of accepted requests are ordered. */
  ghost predicate Legal(st: State, step: Step)
  {
    match step
    case Schedule(rq, _) => InTime(st, rq) && (Accepts(step) ==> rq.from <= rq.until)
    case Wake(w) => WakeInTime(st, w)
    case StartRefresh(readAt, added) => st.clock <= readAt <= added
    case StopRefresh => true
    case LazyRefresh(at, _, _) => st.clock <= at
  }

  function Run(st: State, steps: seq<Step>): (r: State)
    ensures |r.meters| == |st.meters|
  {
    if steps == [] then st else Apply(Run(st, steps[..|steps| - 1]), steps[|steps| - 1])
  }

  ghost predicate LegalRun(st: State, steps: seq<Step>)
  {
    steps != [] ==>
      LegalRun(st, steps[..|steps| - 1]) && Legal(Run(st, steps[..|steps| - 1]), steps[|steps| - 1])
  }

  /** The reference for one child: the latest of its own accepted requests that covers `t` wins; where there is none, what
      it was asked for before, which is `base`. */
  function Requested(steps: seq<Step>, c: nat, base: int, t: int): (r: int)
  {
    if steps == [] then base
    else
      var last := steps[|steps| - 1];
      if Accepts(last) && last.rq.child == c && last.rq.from <= t < last.rq.until then last.rq.target
      else Requested(steps[..|steps| - 1], c, base, t)
  }

  ghost predicate AfterWakes(steps: seq<Step>, t: int)
  {
    forall i :: 0 <= i < |steps| && steps[i].Wake? ==> steps[i].w.at <= t
  }

  lemma StepWellFormed(st: State, step: Step)
    requires WellFormed(st) && Legal(st, step)
    ensures WellFormed(Apply(st, step)) && st.clock <= Apply(st, step).clock
    ensures step.Wake? ==> step.w.at <= Apply(st, step).clock
  {
    match step
    case Schedule(rq, _) =>
      if Accepts(step) {
        ScheduledWellFormed(st, rq);
      } else {
        LaterWellFormed(st, rq.readAt);
      }
    case Wake(w) => TakenWellFormed(st, DueCount(st.queue, w.at), w);
    case StartRefresh(readAt, added) => RefreshStartedWellFormed(st, readAt, added);
    case StopRefresh =>
    case LazyRefresh(at, stale, sourceCharge) => LazilyRefreshedWellFormed(st, at, stale, sourceCharge);
  }

  lemma LaterWellFormed(st: State, clock: int)
    requires WellFormed(st) && st.clock <= clock
    ensures WellFormed(st.(clock := clock))
  {
    forall e | e in st.queue ensures Admissible(e, |st.meters|, st.nextSequence, clock) {
      assert Admissible(e, |st.meters|, st.nextSequence, st.clock);
    }
  }

  lemma {:induction false} RunInvariant(st: State, steps: seq<Step>)
    requires WellFormed(st) && LegalRun(st, steps)
    ensures WellFormed(Run(st, steps)) && AfterWakes(steps, Run(st, steps).clock)
  {
    if steps != [] {
      RunInvariant(st, steps[..|steps| - 1]);
      StepWellFormed(Run(st, steps[..|steps| - 1]), steps[|steps| - 1]);
    }
  }

  lemma StepFollowsRequests(st: State, step: Step, c: nat, t: int)
    requires WellFormed(st) && Legal(st, step) && c < |st.meters|
    requires step.Wake? ==> step.w.at <= t
    ensures ChildAt(Apply(st, step), c, t) ==
              if Accepts(step) && step.rq.child == c && step.rq.from <= t < step.rq.until then step.rq.target
              else ChildAt(st, c, t)
  {
    match step
    case Schedule(rq, _) =>
      if Accepts(step) {
        RequestOverlaysOneChild(st, rq, c, t);
      }
    case Wake(w) => WakeKeepsTimelines(st, w, c, t);
    case StartRefresh(readAt, added) => RefreshStartedKeepsTimelines(st, readAt, added, c, t);
    case StopRefresh =>
    case LazyRefresh(at, stale, sourceCharge) =>
  }

  /** Isolation over runs: from the last wake-up on, each child's timeline is the call-order overlay of that child's own
      requests, whatever its siblings asked for in between on the same queue. */
  lemma {:induction false} RunFollowsRequests(st: State, steps: seq<Step>, c: nat, t: int)
    requires WellFormed(st) && LegalRun(st, steps) && c < |st.meters| && AfterWakes(steps, t)
    ensures ChildAt(Run(st, steps), c, t) == Requested(steps, c, ChildAt(st, c, t), t)
  {
    if steps != [] {
      var front, last := steps[..|steps| - 1], steps[|steps| - 1];
      RunFollowsRequests(st, front, c, t);
      RunInvariant(st, front);
      hide WellFormed, Legal, ChildAt;
      StepFollowsRequests(Run(st, front), last, c, t);
    }
  }

  /** After every wake-up the current of every child is that overlay, read at the clock reading that ended the drain. */
  lemma WakeAppliesRequests(st: State, steps: seq<Step>, w: Wakeup, c: nat)
    requires WellFormed(st) && LegalRun(st, steps + [Wake(w)]) && c < |st.meters|
    ensures Run(st, steps + [Wake(w)]).meters[c].current == Requested(steps, c, ChildAt(st, c, w.at), w.at)
  {
    assert (steps + [Wake(w)])[..|steps|] == steps;
    RunInvariant(st, steps);
    RunFollowsRequests(st, steps, c, w.at);
    WakeKeepsTimelines(Run(st, steps), w, c, w.at);
  }

  // ----- charge over runs -----

  /** What a refresh of the given estimates means for that of child `c`. */
  function RefreshStep(meters: seq<CE.Meter>, scales: Option<seq<real>>, at: int, sourceCharge: int, c: nat): (r: CE.Step)
    requires c < |meters|
  {
    if EstimationFails(AllRefreshed(meters, at), scales) then CE.Reset(at, ShareOf(scales.value[c], sourceCharge))
    else CE.Refresh(at)
  }

  /** What one step does to the charge estimate of child `c`. */
  function EstimateSteps(st: State, step: Step, c: nat): (r: seq<CE.Step>)
    requires c < |st.meters|
  {
    match step
    case Wake(w) =>
      var due := st.queue[..DueCount(st.queue, w.at)];
      StepsOf(BS.SetEvents(due), c, w.stamp) +
        if st.active && BS.HasRefresh(due)
        then [RefreshStep(Drained(st, w), st.scales, w.estimateAt, w.sourceCharge, c)] else []
    case LazyRefresh(at, stale, sourceCharge) =>
      if st.active || !stale then [] else [RefreshStep(st.meters, st.scales, at, sourceCharge, c)]
    case _ => []
  }

  function AllEstimateSteps(st: State, steps: seq<Step>, c: nat): (r: seq<CE.Step>)
    requires c < |st.meters|
  {
    if steps == [] then []
    else
      var front := steps[..|steps| - 1];
      AllEstimateSteps(st, front, c) + EstimateSteps(Run(st, front), steps[|steps| - 1], c)
  }

  lemma RefreshIsStep(meters: seq<CE.Meter>, scales: Option<seq<real>>, at: int, sourceCharge: int, c: nat, m: CE.Meter,
                      before: seq<CE.Step>)
    requires c < |meters| && meters[c] == CE.Run(m, before)
    ensures Reestimated(meters, scales, at, sourceCharge)[c] ==
            CE.Run(m, before + [RefreshStep(meters, scales, at, sourceCharge, c)])
  {
    var step := RefreshStep(meters, scales, at, sourceCharge, c);
    assert (before + [step])[..|before|] == before;
  }

  lemma StepEstimates(st: State, step: Step, c: nat)
    requires c < |st.meters|
    ensures Apply(st, step).meters[c] == CE.Run(st.meters[c], EstimateSteps(st, step, c))
  {
    hide Reestimated, RefreshStep, Performed, Emplace;
    assert CE.Run(st.meters[c], []) == st.meters[c];
    match step
    case Wake(w) =>
      var due := st.queue[..DueCount(st.queue, w.at)];
      var performed := StepsOf(BS.SetEvents(due), c, w.stamp);
      PerformedIsRun(st.meters, BS.SetEvents(due), w.stamp, c);
      RefreshIsStep(Drained(st, w), st.scales, w.estimateAt, w.sourceCharge, c, st.meters[c], performed);
      assert performed + [] == performed;
    case LazyRefresh(at, stale, sourceCharge) =>
      RefreshIsStep(st.meters, st.scales, at, sourceCharge, c, st.meters[c], []);
      var refresh := RefreshStep(st.meters, st.scales, at, sourceCharge, c);
      assert [] + [refresh] == [refresh];
    case _ =>
  }

  lemma {:induction false} RunEstimates(st: State, steps: seq<Step>, c: nat)
    requires c < |st.meters|
    ensures Run(st, steps).meters[c] == CE.Run(st.meters[c], AllEstimateSteps(st, steps, c))
  {
    if steps != [] {
      var front := steps[..|steps| - 1];
      RunEstimates(st, front, c);
      hide Apply, EstimateSteps, CE.Run;
      StepEstimates(Run(st, front), steps[|steps| - 1], c);
      CE.RunAppend(st.meters[c], AllEstimateSteps(st, front, c),
                   EstimateSteps(Run(st, front), steps[|steps| - 1], c));
    }
    assert steps == [] ==> CE.Run(st.meters[c], []) == st.meters[c];
  }

  /** Over every run, from any state, in which the estimates are not given up, a child's charge estimate is the one it
      started with less the integral of the currents that were applied to it, however the requests, wake-ups and
      refreshes are interleaved. */
  lemma RunIntegratesCharge(st: State, steps: seq<Step>, c: nat, t: int)
    requires c < |st.meters| && CE.NoResets(AllEstimateSteps(st, steps, c))
    ensures CE.ChargeAt(Run(st, steps).meters[c], t) ==
            st.meters[c].charge -
              CE.Integral(st.meters[c].current, st.meters[c].last, AllEstimateSteps(st, steps, c), t)
  {
    RunEstimates(st, steps, c);
    CE.EstimateIsIntegral(st.meters[c], AllEstimateSteps(st, steps, c), t);
  }

  lemma StepNeverResets(st: State, step: Step, c: nat)
    requires c < |st.meters| && st.scales.None?
    ensures Apply(st, step).scales.None? && CE.NoResets(EstimateSteps(st, step, c))
  {
    if step.Wake? {
      StepsOfNoResets(BS.SetEvents(st.queue[..DueCount(st.queue, step.w.at)]), c, step.w.stamp);
    }
  }

  /** Only the proportional policy ever gives them up. */
  lemma {:induction false} OthersNeverReset(st: State, steps: seq<Step>, c: nat)
    requires c < |st.meters| && st.scales.None?
    ensures Run(st, steps).scales.None? && CE.NoResets(AllEstimateSteps(st, steps, c))
  {
    if steps != [] {
      hide Apply, EstimateSteps;
      OthersNeverReset(st, steps[..|steps| - 1], c);
      StepNeverResets(Run(st, steps[..|steps| - 1]), steps[|steps| - 1], c);
    }
  }
}
