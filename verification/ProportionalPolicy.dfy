/** The V1 proportional splitter policy with metering: `ProportionalPolicy`, `SplitterBattery`,
    `Battery.update_meter`, and `PseudoBattery` as the source.

    Every operation takes one clock reading, in seconds. Numbers are reals.
 */
module ProportionalPolicy {
  import opened Options
  import opened Reals

  type Name = string

  // ----- meters -----

  /** `_meter`, `_current` and `_timestamp` of a battery. */
  datatype Meter = Meter(meter: real, current: real, timestamp: real)

  /** Ampere hours that flow in `seconds`. */
  function Flow(current: real, seconds: real): (r: real)
  {
    current * (seconds / 3600.0)
  }

  /** `Battery.update_meter`. */
  function MeterUpdated(m: Meter, end: real, next: real, now: real): (r: Meter)
  {
    Meter(m.meter - Flow((m.current + end) / 2.0, now - m.timestamp), next, now)
  }

  /** The meter carried forward to time `t` at the battery's current. */
  function Reading(m: Meter, t: real): (r: real)
  {
    m.meter - Flow(m.current, t - m.timestamp)
  }

  lemma FlowAdds(current: real, a: real, b: real)
    ensures Flow(current, a) + Flow(current, b) == Flow(current, a + b)
  {
    assert (a + b) / 3600.0 == a / 3600.0 + b / 3600.0;
    assert current * (a / 3600.0 + b / 3600.0) == current * (a / 3600.0) + current * (b / 3600.0);
  }

  lemma FlowSplits(c: real, d: real, seconds: real)
    ensures Flow(c + d, seconds) == Flow(c, seconds) + Flow(d, seconds)
  {
  }

  lemma NoTimeNoFlow(current: real)
    ensures Flow(current, 0.0) == 0.0
  {
  }

  /** Updating a meter at the current it already has does not change its readings. */
  lemma QueryKeepsReading(m: Meter, now: real, t: real)
    ensures Reading(MeterUpdated(m, m.current, m.current, now), t) == Reading(m, t)
  {
    FlowAdds(m.current, now - m.timestamp, t - now);
    assert (m.current + m.current) / 2.0 == m.current;
  }

  // ----- sums over the parts -----

  function SumBy(names: seq<Name>, f: Name -> real): (r: real)
  {
    if names == [] then 0.0 else SumBy(names[..|names| - 1], f) + f(names[|names| - 1])
  }

  ghost predicate Distinct(names: seq<Name>)
  {
    forall i, j :: 0 <= i < j < |names| ==> names[i] != names[j]
  }

  lemma {:induction false} SumSame(names: seq<Name>, f: Name -> real, g: Name -> real)
    requires forall n :: n in names ==> f(n) == g(n)
    ensures SumBy(names, f) == SumBy(names, g)
  {
    if names != [] {
      assert names[|names| - 1] in names;
      SumSame(names[..|names| - 1], f, g);
    }
  }

  /** Changing one part changes the sum by as much. */
  lemma {:induction false} SumChange(names: seq<Name>, f: Name -> real, g: Name -> real, x: Name)
    requires Distinct(names) && x in names && forall n :: n in names && n != x ==> f(n) == g(n)
    ensures SumBy(names, g) == SumBy(names, f) - f(x) + g(x)
  {
    var k := |names| - 1;
    assert names[k] in names;
    if names[k] == x {
      forall n | n in names[..k] ensures f(n) == g(n) {
        var i :| 0 <= i < k && names[..k][i] == n;
        assert names[i] != names[k];
      }
      SumSame(names[..k], f, g);
    } else {
      SumChange(names[..k], f, g, x);
    }
  }

  lemma {:induction false} SumAtMost(names: seq<Name>, f: Name -> real, g: Name -> real)
    requires forall n :: n in names ==> f(n) <= g(n)
    ensures SumBy(names, f) <= SumBy(names, g)
  {
    if names != [] {
      assert names[|names| - 1] in names;
      SumAtMost(names[..|names| - 1], f, g);
    }
  }

  lemma PortionAdds(limit: real, a: real, b: real)
    ensures Portion(limit, a + b) == Portion(limit, a) + Portion(limit, b)
    ensures Portion(limit, 0.0) == 0.0
  {
  }

  lemma {:induction false} SumPortions(names: seq<Name>, shares: Name -> real, limit: real)
    ensures SumBy(names, n => Portion(limit, shares(n))) == Portion(limit, SumBy(names, shares))
  {
    hide Portion;
    PortionAdds(limit, 0.0, 0.0);
    if names != [] {
      var k := |names| - 1;
      SumPortions(names[..k], shares, limit);
      PortionAdds(limit, SumBy(names[..k], shares), shares(names[k]));
    }
  }

  // ----- the state -----

  datatype Scale = Scale(soc: real, maxCapacity: real, maxDischarge: real, maxCharge: real)

  predicate InUnit(x: real)
  {
    0.0 <= x <= 1.0
  }

  /** The range check of the `Scale` constructor. */
  predicate ScaleOk(s: Scale)
  {
    InUnit(s.soc) && InUnit(s.maxCapacity) && InUnit(s.maxDischarge) && InUnit(s.maxCharge)
  }

  /** `Scale.__sub__`, which raises when the resources are not there. */
  function Less(a: Scale, b: Scale): (r: Option<Scale>)
  {
    if a.soc >= b.soc && a.maxCapacity >= b.maxCapacity &&
       a.maxDischarge >= b.maxDischarge && a.maxCharge >= b.maxCharge
    then
      Some(Scale(a.soc - b.soc, a.maxCapacity - b.maxCapacity,
                 a.maxDischarge - b.maxDischarge, a.maxCharge - b.maxCharge))
    else None
  }

  /** The source: the fixed limits and the changing current, charge and meter of a `PseudoBattery`. */
  datatype Source = Source(
    current: real, soc: real, maxCapacity: real, maxDischarging: real, maxCharging: real, meter: Meter)

  datatype Part = Part(scale: Scale, current: real, meter: Meter)

  /** The parts in the order of the dictionary. */
  datatype State = State(source: Source, names: seq<Name>, parts: map<Name, Part>)

  ghost predicate WellFormed(st: State)
  {
    Distinct(st.names) && forall n :: n in st.names <==> n in st.parts
  }

  function CurrentOf(st: State): (f: Name -> real)
  {
    n => if n in st.parts then st.parts[n].current else 0.0
  }

  function NetCurrent(st: State): (r: real)
  {
    SumBy(st.names, CurrentOf(st))
  }

  function MeterOf(st: State): (f: Name -> real)
  {
    n => if n in st.parts then st.parts[n].meter.meter else 0.0
  }

  function ReadingOf(st: State, t: real): (f: Name -> real)
  {
    n => if n in st.parts then Reading(st.parts[n].meter, t) else 0.0
  }

  datatype Component = Soc | MaxCapacity | MaxDischarge | MaxCharge

  function Scaled(s: Scale, c: Component): (r: real)
  {
    match c
    case Soc => s.soc
    case MaxCapacity => s.maxCapacity
    case MaxDischarge => s.maxDischarge
    case MaxCharge => s.maxCharge
  }

  function ScaleOf(st: State, c: Component): (f: Name -> real)
  {
    n => if n in st.parts then Scaled(st.parts[n].scale, c) else 0.0
  }

  // ----- the operations -----

  /** `PseudoBattery.get_status`: the charge follows the meter. */
  function SourceQueried(s: Source, now: real): (r: Source)
  {
    var m := MeterUpdated(s.meter, s.current, s.current, now);
    s.(meter := m, soc := s.soc + m.meter - s.meter.meter)
  }

  /** `PseudoBattery.set_current`, which raises out of range. */
  function SourceSet(s: Source, target: real, now: real): (r: Option<Source>)
  {
    var s1 := SourceQueried(s, now);
    if -s.maxCharging <= target <= s.maxDischarging then
      var s2 := SourceQueried(s1.(current := target), now);
      Some(s2.(meter := MeterUpdated(s2.meter, s.current, target, now)))
    else None
  }

  function PartMetered(st: State, n: Name, end: real, next: real, now: real): (r: State)
    requires n in st.parts
  {
    st.(parts := st.parts[n := st.parts[n].(meter := MeterUpdated(st.parts[n].meter, end, next, now))])
  }

  /** `SplitterBattery.get_status`: the source is queried twice, then the part's own meter is updated.
      The expected charges are divided by their total, which raises when it is zero. */
  function Queried(st: State, n: Name, now: real): (r: Option<State>)
    requires n in st.parts
  {
    var st1 := st.(source := SourceQueried(SourceQueried(st.source, now), now));
    if SumBy(st.names, MeterOf(st)) == 0.0 then None
    else Some(PartMetered(st1, n, st.parts[n].current, st.parts[n].current, now))
  }

  /** A part's share of one of the source's limits. */
  function Portion(limit: real, share: real): (r: real)
  {
    limit * share
  }

  /** The policy's own bounds on a part's current. */
  predicate WithinBounds(st: State, n: Name, target: real)
    requires n in st.parts
  {
    && target <= Portion(st.source.maxDischarging, st.parts[n].scale.maxDischarge)
    && -target <= Portion(st.source.maxCharging, st.parts[n].scale.maxCharge)
  }

  /** `ProportionalPolicy.set_current` after the bounds check; raises if the source refuses the sum. */
  function Forwarded(st: State, n: Name, target: real, now: real): (r: Option<State>)
    requires n in st.parts
  {
    var st1 := st.(source := SourceQueried(st.source, now),
                   parts := st.parts[n := st.parts[n].(current := target)]);
    match SourceSet(st1.source, NetCurrent(st1), now)
    case None => None
    case Some(s) => Some(st1.(source := s))
  }

  /** `SplitterBattery.set_current`: query, forward, query again, and one more meter update. A target
      out of bounds is refused; the query has happened by then. */
  function CurrentSet(st: State, n: Name, target: real, now: real): (r: Option<(State, bool)>)
    requires n in st.parts
  {
    match Queried(st, n, now)
    case None => None
    case Some(st1) =>
      if !WithinBounds(st1, n, target) then Some((st1.(source := SourceQueried(st1.source, now)), false))
      else
        match Forwarded(st1, n, target, now)
        case None => None
        case Some(st2) =>
          match Queried(st2, n, now)
          case None => None
          case Some(st3) => Some((PartMetered(st3, n, st.parts[n].current, target, now), true))
  }

  // ----- what every state keeps -----

  /** Each meter runs at the current its battery has, and the source has the sum. */
  ghost predicate Synced(st: State)
  {
    && (forall n :: n in st.parts ==> st.parts[n].meter.current == st.parts[n].current)
    && st.source.meter.current == st.source.current == NetCurrent(st)
  }

  /** The parts share out exactly what the source has. */
  ghost predicate FullyShared(st: State)
  {
    forall c :: SumBy(st.names, ScaleOf(st, c)) == 1.0
  }

  ghost predicate AllLegal(st: State)
  {
    forall n :: n in st.parts ==> ScaleOk(st.parts[n].scale) && WithinBounds(st, n, st.parts[n].current)
  }

  ghost predicate Good(st: State)
  {
    && WellFormed(st) && Synced(st) && FullyShared(st) && AllLegal(st)
    && st.source.maxDischarging >= 0.0 && st.source.maxCharging >= 0.0
  }

  /** The difference between what the parts' meters show together and what the source's meter shows. */
  function Account(st: State, t: real): (r: real)
  {
    SumBy(st.names, ReadingOf(st, t)) - Reading(st.source.meter, t)
  }

  // ----- net-current safety -----

  lemma NetCurrentBelow(st: State)
    requires WellFormed(st) && FullyShared(st) && AllLegal(st)
    ensures NetCurrent(st) <= st.source.maxDischarging
  {
    hide SumBy, FullyShared, Portion;
    var share, limit := ScaleOf(st, MaxDischarge), st.source.maxDischarging;
    var bound: Name -> real := n => Portion(limit, share(n));
    forall n | n in st.names ensures CurrentOf(st)(n) <= bound(n) {
      assert WithinBounds(st, n, st.parts[n].current);
    }
    SumAtMost(st.names, CurrentOf(st), bound);
    SumPortions(st.names, share, limit);
    SumSame(st.names, bound, n => Portion(limit, share(n)));
    WholeShare(st, MaxDischarge);
    WholePortion(limit);
  }

  lemma NetCurrentAbove(st: State)
    requires WellFormed(st) && FullyShared(st) && AllLegal(st)
    ensures -st.source.maxCharging <= NetCurrent(st)
  {
    hide SumBy, FullyShared, Portion;
    var share, limit := ScaleOf(st, MaxCharge), st.source.maxCharging;
    var bound: Name -> real := n => Portion(limit, share(n));
    var charging: Name -> real := n => -CurrentOf(st)(n);
    forall n | n in st.names ensures charging(n) <= bound(n) {
      assert WithinBounds(st, n, st.parts[n].current);
      assert CurrentOf(st)(n) == st.parts[n].current;
    }
    SumAtMost(st.names, charging, bound);
    SumByNegated(st.names, CurrentOf(st), charging);
    SumPortions(st.names, share, limit);
    SumSame(st.names, bound, n => Portion(limit, share(n)));
    WholeShare(st, MaxCharge);
    WholePortion(limit);
  }

  lemma WholePortion(limit: real)
    ensures Portion(limit, 1.0) == limit
  {
  }

  lemma {:induction false} SumByNegated(names: seq<Name>, f: Name -> real, g: Name -> real)
    requires forall n :: n in names ==> g(n) == -f(n)
    ensures SumBy(names, g) == -SumBy(names, f)
  {
    if names != [] {
      assert names[|names| - 1] in names;
      SumByNegated(names[..|names| - 1], f, g);
    }
  }

  lemma WholeShare(st: State, c: Component)
    requires FullyShared(st)
    ensures SumBy(st.names, ScaleOf(st, c)) == 1.0
  {
  }

  /** Legal parts that share out the source never ask for more than the source allows. */
  lemma NetCurrentInRange(st: State)
    requires WellFormed(st) && FullyShared(st) && AllLegal(st)
    ensures -st.source.maxCharging <= NetCurrent(st) <= st.source.maxDischarging
  {
    NetCurrentBelow(st);
    NetCurrentAbove(st);
  }

  /** The most that a part may discharge ... */
  function MostOf(st: State): (f: Name -> real)
  {
    n => if n in st.parts then st.source.maxDischarging * st.parts[n].scale.maxDischarge else 0.0
  }

  /** ... and the most that it may charge, as a current. */
  function LeastOf(st: State): (f: Name -> real)
  {
    n => if n in st.parts then -(st.source.maxCharging * st.parts[n].scale.maxCharge) else 0.0
  }

  /** A part is allowed exactly the currents up to these limits. */
  lemma AllowedExactly(st: State, n: Name, target: real)
    requires n in st.parts
    ensures WithinBounds(st, n, target) <==> LeastOf(st)(n) <= target <= MostOf(st)(n)
  {
  }

  /** Nothing of the source is lost by splitting it: the parts' limits add up to the source's ... */
  lemma SourceUsedUp(st: State)
    requires WellFormed(st) && FullyShared(st)
    ensures SumBy(st.names, MostOf(st)) == st.source.maxDischarging
  {
    var most, share := st.source.maxDischarging, ScaleOf(st, MaxDischarge);
    WholeShare(st, MaxDischarge);
    WholePortion(most);
    hide SumBy, FullyShared;
    SumPortions(st.names, share, most);
    SumSame(st.names, MostOf(st), n => Portion(most, share(n)));
  }

  /** ... in either direction. */
  lemma SourceFilledUp(st: State)
    requires WellFormed(st) && FullyShared(st)
    ensures SumBy(st.names, LeastOf(st)) == -st.source.maxCharging
  {
    var least, share := st.source.maxCharging, ScaleOf(st, MaxCharge);
    WholeShare(st, MaxCharge);
    WholePortion(least);
    hide SumBy, FullyShared;
    SumPortions(st.names, share, least);
    SumByNegated(st.names, n => Portion(least, share(n)), LeastOf(st));
  }

  /** The same parts with the same scales and limits, except that one current is different. */
  ghost predicate OneCurrent(st: State, st': State, n: Name, current: real)
  {
    && st'.names == st.names && st'.parts.Keys == st.parts.Keys && n in st.parts
    && st'.source.maxDischarging == st.source.maxDischarging && st'.source.maxCharging == st.source.maxCharging
    && (forall k :: k in st.parts ==>
          && st'.parts[k].scale == st.parts[k].scale
          && st'.parts[k].current == if k == n then current else st.parts[k].current)
  }

  lemma StillShared(st: State, st': State, n: Name, current: real)
    requires WellFormed(st) && FullyShared(st) && OneCurrent(st, st', n, current)
    ensures WellFormed(st') && FullyShared(st')
  {
    forall c ensures SumBy(st'.names, ScaleOf(st', c)) == 1.0 {
      WholeShare(st, c);
      SumSame(st.names, ScaleOf(st, c), ScaleOf(st', c));
    }
  }

  lemma StillLegal(st: State, st': State, n: Name, current: real)
    requires AllLegal(st) && OneCurrent(st, st', n, current) && WithinBounds(st, n, current)
    ensures AllLegal(st')
  {
    hide Portion, ScaleOk;
    forall k | k in st'.parts
      ensures ScaleOk(st'.parts[k].scale) && WithinBounds(st', k, st'.parts[k].current)
    {
      assert ScaleOk(st.parts[k].scale) && WithinBounds(st, k, st.parts[k].current);
    }
  }

  // ----- one meter through one operation -----

  /** What three updates at the same instant amount to. */
  lemma MeterSet(m: Meter, target: real, now: real)
    ensures var m1 := MeterUpdated(m, m.current, m.current, now);
            var m2 := MeterUpdated(m1, target, target, now);
            && m1 == Meter(Reading(m, now), m.current, now)
            && m2 == Meter(Reading(m, now), target, now)
            && MeterUpdated(m2, m.current, target, now) == m2
  {
    var m1 := MeterUpdated(m, m.current, m.current, now);
    var m2 := MeterUpdated(m1, target, target, now);
    assert (m.current + m.current) / 2.0 == m.current;
    NoTimeNoFlow((m1.current + target) / 2.0);
    NoTimeNoFlow((m2.current + m.current) / 2.0);
  }

  /** Querying an instant again changes nothing. */
  lemma MeterQueriedAgain(m: Meter, now: real)
    requires m.timestamp == now
    ensures MeterUpdated(m, m.current, m.current, now) == m
  {
    NoTimeNoFlow((m.current + m.current) / 2.0);
  }

  /** The source brought up to the present at its own current; its charge moves by as much as its meter. */
  ghost predicate Brought(s: Source, s': Source, current: real, now: real)
  {
    && s'.soc - s'.meter.meter == s.soc - s.meter.meter
    && s'.meter == Meter(Reading(s.meter, now), current, now) && s'.current == current
    && s'.maxCapacity == s.maxCapacity && s'.maxDischarging == s.maxDischarging && s'.maxCharging == s.maxCharging
  }

  lemma SourceBrought(s: Source, now: real)
    requires s.meter.current == s.current
    ensures Brought(s, SourceQueried(s, now), s.current, now)
    ensures Brought(s, SourceQueried(SourceQueried(s, now), now), s.current, now)
  {
    MeterSet(s.meter, s.current, now);
    MeterQueriedAgain(SourceQueried(s, now).meter, now);
  }

  lemma BroughtAgain(s: Source, s1: Source, s2: Source, a: real, b: real, now: real)
    requires Brought(s, s1, a, now) && Brought(s1, s2, b, now)
    ensures Brought(s, s2, b, now)
  {
    NoTimeNoFlow(a);
  }

  lemma SourceSetBrought(s: Source, target: real, now: real)
    requires s.meter.current == s.current && s.meter.timestamp == now
    ensures SourceSet(s, target, now).Some? <==> -s.maxCharging <= target <= s.maxDischarging
    ensures SourceSet(s, target, now).Some? ==> Brought(s, SourceSet(s, target, now).value, target, now)
  {
    MeterSet(s.meter, target, now);
    MeterQueriedAgain(s.meter, now);
    NoTimeNoFlow(s.current);
  }

  // ----- queries -----

  /** A query moves the source and the part to the present and changes nothing else. */
  lemma QueriedEffect(st: State, n: Name, now: real)
    requires n in st.parts && Synced(st) && Queried(st, n, now).Some?
    ensures var st' := Queried(st, n, now).value;
            && Brought(st.source, st'.source, st.source.current, now)
            && st'.names == st.names
            && st'.parts == st.parts[n := st.parts[n].(
                 meter := Meter(Reading(st.parts[n].meter, now), st.parts[n].current, now))]
  {
    SourceBrought(st.source, now);
    MeterSet(st.parts[n].meter, st.parts[n].current, now);
  }

  /** What every successful operation on a part amounts to: the part and the source are brought to the
      present, and the part's current becomes `current`. */
  ghost predicate Became(st: State, st': State, n: Name, current: real, now: real)
    requires n in st.parts
  {
    && st'.names == st.names
    && st'.parts == st.parts[n := Part(st.parts[n].scale, current, Meter(Reading(st.parts[n].meter, now), current, now))]
    && Brought(st.source, st'.source, NetCurrent(st'), now)
  }

  lemma NetChange(st: State, st': State, n: Name)
    requires WellFormed(st) && n in st.parts && st'.names == st.names && n in st'.parts
    requires forall k :: k in st.parts && k != n ==> k in st'.parts && st'.parts[k] == st.parts[k]
    ensures NetCurrent(st') == NetCurrent(st) - st.parts[n].current + st'.parts[n].current
  {
    SumChange(st.names, CurrentOf(st), CurrentOf(st'), n);
  }

  lemma QueriedBecame(st: State, n: Name, now: real)
    requires n in st.parts && WellFormed(st) && Synced(st) && Queried(st, n, now).Some?
    ensures Became(st, Queried(st, n, now).value, n, st.parts[n].current, now)
  {
    QueriedEffect(st, n, now);
    NetChange(st, Queried(st, n, now).value, n);
  }

  /** An operation keeps every state invariant, if the new current is within the part's bounds. */
  lemma BecameGood(st: State, st': State, n: Name, current: real, now: real)
    requires n in st.parts && Good(st) && Became(st, st', n, current, now) && WithinBounds(st, n, current)
    ensures Good(st')
  {
    assert OneCurrent(st, st', n, current);
    hide FullyShared, AllLegal, WithinBounds;
    StillShared(st, st', n, current);
    StillLegal(st, st', n, current);
  }

  /** Charge accounting: no operation changes the account, whatever time it is read for. */
  lemma BecameKeepsAccount(st: State, st': State, n: Name, current: real, now: real, t: real)
    requires n in st.parts && WellFormed(st) && Synced(st) && Became(st, st', n, current, now)
    ensures Account(st', t) == Account(st, t)
  {
    var m, s := st.parts[n].meter, st.source;
    SumChange(st.names, ReadingOf(st, t), ReadingOf(st', t), n);
    NetChange(st, st', n);
    FlowAdds(m.current, now - m.timestamp, t - now);
    FlowAdds(s.meter.current, now - s.meter.timestamp, t - now);
    FlowSplits(m.current, current - m.current, t - now);
    FlowSplits(NetCurrent(st), current - m.current, t - now);
  }

  // ----- setting a current -----

  /** In a good state the policy's check is enough: the source never refuses the sum. */
  lemma ForwardedEffect(st: State, n: Name, target: real, now: real)
    requires n in st.parts && Good(st) && WithinBounds(st, n, target) && st.source.meter.timestamp == now
    ensures Forwarded(st, n, target, now).Some?
    ensures var st' := Forwarded(st, n, target, now).value;
            && st'.names == st.names
            && st'.parts == st.parts[n := st.parts[n].(current := target)]
            && Brought(st.source, st'.source, NetCurrent(st'), now)
  {
    hide SumBy, FullyShared, AllLegal, WithinBounds;
    var st1 := st.(source := SourceQueried(st.source, now), parts := st.parts[n := st.parts[n].(current := target)]);
    SourceBrought(st.source, now);
    StillShared(st, st1, n, target);
    StillLegal(st, st1, n, target);
    NetCurrentInRange(st1);
    SourceSetBrought(st1.source, NetCurrent(st1), now);
    hide SourceSet, SourceQueried;
    var s := SourceSet(st1.source, NetCurrent(st1), now).value;
    BroughtAgain(st.source, st1.source, s, st.source.current, NetCurrent(st1), now);
    SumSame(st.names, CurrentOf(st1), CurrentOf(st1.(source := s)));
  }

  /** Setting a current: in a good state the only ways to fail are the policy's own bounds, which leave
      everything but the meters alone, and a total expected charge of zero. */
  lemma CurrentSetEffect(st: State, n: Name, target: real, now: real)
    requires n in st.parts && Good(st) && CurrentSet(st, n, target, now).Some?
    ensures var (st', ok) := CurrentSet(st, n, target, now).value;
            && (ok <==> WithinBounds(st, n, target))
            && Became(st, st', n, if ok then target else st.parts[n].current, now)
  {
    hide SumBy, FullyShared, AllLegal, Queried, Forwarded;
    var st1 := Queried(st, n, now).value;
    QueriedBecame(st, n, now);
    BecameGood(st, st1, n, st.parts[n].current, now) by {
      assert AllLegal(st);
      LegalNow(st, n);
    }
    if WithinBounds(st, n, target) {
      ForwardedEffect(st1, n, target, now);
      var st2 := Forwarded(st1, n, target, now).value;
      SetAgain(st, st1, st2, n, target, now);
    } else {
      SourceBrought(st1.source, now);
      var st' := st1.(source := SourceQueried(st1.source, now));
      BroughtAgain(st.source, st1.source, st'.source, st1.source.current, st1.source.current, now);
      SumSame(st.names, CurrentOf(st1), CurrentOf(st'));
    }
  }

  lemma LegalNow(st: State, n: Name)
    requires AllLegal(st) && n in st.parts
    ensures WithinBounds(st, n, st.parts[n].current)
  {
  }

  /** The second query and the last meter update of `set_current`. */
  lemma SetAgain(st: State, st1: State, st2: State, n: Name, target: real, now: real)
    requires n in st.parts && Synced(st) && WellFormed(st) && Became(st, st1, n, st.parts[n].current, now)
    requires st2.names == st1.names && st2.parts == st1.parts[n := st1.parts[n].(current := target)]
    requires Brought(st1.source, st2.source, NetCurrent(st2), now)
    requires Queried(st2, n, now).Some?
    ensures Became(st, PartMetered(Queried(st2, n, now).value, n, st.parts[n].current, target, now), n, target, now)
  {
    hide SumBy;
    SourceBrought(st2.source, now);
    MeterSet(st.parts[n].meter, target, now);
    var st3 := Queried(st2, n, now).value;
    var st' := PartMetered(st3, n, st.parts[n].current, target, now);
    BroughtAgain(st.source, st1.source, st2.source, st1.source.current, NetCurrent(st2), now);
    BroughtAgain(st.source, st2.source, st'.source, NetCurrent(st2), NetCurrent(st2), now);
    SumSame(st.names, CurrentOf(st2), CurrentOf(st'));
  }

  /** Setting a current raises if and only if the meters add up to zero, before the call, or with the part's own meter
      brought to the present if the target is accepted; the source never raises. */
  lemma CurrentSetRaisesExactly(st: State, n: Name, target: real, now: real)
    requires n in st.parts && Good(st)
    ensures var total, m := SumBy(st.names, MeterOf(st)), st.parts[n].meter;
            CurrentSet(st, n, target, now).None? <==>
            total == 0.0 || (WithinBounds(st, n, target) && total - m.meter + Reading(m, now) == 0.0)
  {
    if SumBy(st.names, MeterOf(st)) != 0.0 {
      var st1 := Queried(st, n, now).value;
      QueriedBecame(st, n, now);
      LegalNow(st, n);
      BecameGood(st, st1, n, st.parts[n].current, now);
      hide SumBy, FullyShared, AllLegal, Portion, MeterUpdated, Reading, Forwarded;
      if WithinBounds(st, n, target) {
        ForwardedEffect(st1, n, target, now);
        var st2 := Forwarded(st1, n, target, now).value;
        assert st2.parts[n].meter.meter == Reading(st.parts[n].meter, now);
        SumChange(st.names, MeterOf(st), MeterOf(st2), n);
        assert SumBy(st2.names, MeterOf(st2)) == 0.0 <==> Queried(st2, n, now).None?;
      }
      hide Queried;
    }
  }

  // ----- adding a part -----

  /** What the caller asks for a new part. */
  datatype Wish = Wish(soc: real, maxCapacity: real, maxDischarging: real, maxCharging: real)

  /** What `ProportionalPolicy.get_status` reports as part `n`'s charge when the source holds `soc`: the
      share of `n`'s meter in the sum of all meters. */
  function ReportedCharge(st: State, n: Name, soc: real): (r: real)
    requires n in st.parts && SumBy(st.names, MeterOf(st)) != 0.0
  {
    st.parts[n].meter.meter / SumBy(st.names, MeterOf(st)) * soc
  }

  // ----- what the parts are told they hold -----

  lemma Quotient(a: real, total: real, soc: real)
    requires total != 0.0
    ensures a / total * soc * total == a * soc
  {
    var q := a / total;
    assert q * total == a;
    assert q * soc * total == (q * total) * soc;
  }

  lemma SameTimes(x: real, y: real, total: real)
    requires total != 0.0 && x * total == y * total
    ensures x == y
  {
    assert x * total / total == x && y * total / total == y;
  }

  lemma Swapped(x: real, b: real, y: real, a: real, total: real, soc: real)
    requires total != 0.0 && x * total == a * soc && y * total == b * soc
    ensures x * b == y * a
  {
    assert (x * b) * total == (x * total) * b;
    assert (y * a) * total == (y * total) * a;
    assert (a * soc) * b == (b * soc) * a;
    SameTimes(x * b, y * a, total);
  }

  /** The reported charges are in the proportion of the meters. */
  lemma ReportsInProportion(st: State, a: Name, b: Name, soc: real)
    requires a in st.parts && b in st.parts && SumBy(st.names, MeterOf(st)) != 0.0
    ensures ReportedCharge(st, a, soc) * st.parts[b].meter.meter == ReportedCharge(st, b, soc) * st.parts[a].meter.meter
  {
    var total := SumBy(st.names, MeterOf(st));
    Quotient(st.parts[a].meter.meter, total, soc);
    Quotient(st.parts[b].meter.meter, total, soc);
    Swapped(ReportedCharge(st, a, soc), st.parts[b].meter.meter, ReportedCharge(st, b, soc), st.parts[a].meter.meter,
            total, soc);
  }

  function Shared(f: Name -> real, total: real, soc: real): (g: Name -> real)
    requires total != 0.0
  {
    n => f(n) / total * soc
  }

  lemma {:induction false} SumShared(names: seq<Name>, f: Name -> real, total: real, soc: real)
    requires total != 0.0
    ensures SumBy(names, Shared(f, total, soc)) * total == SumBy(names, f) * soc
  {
    if names != [] {
      var k := |names| - 1;
      SumShared(names[..k], f, total, soc);
      Quotient(f(names[k]), total, soc);
      var before, last := SumBy(names[..k], Shared(f, total, soc)), Shared(f, total, soc)(names[k]);
      assert (before + last) * total == before * total + last * total;
    }
  }

  /** What each part is told when the source holds `soc`. */
  function ReportsOf(st: State, soc: real): (f: Name -> real)
    requires SumBy(st.names, MeterOf(st)) != 0.0
  {
    n => if n in st.parts then ReportedCharge(st, n, soc) else 0.0
  }

  /** What all parts are told adds up to the source's charge. */
  lemma ReportsAddUp(st: State, soc: real)
    requires WellFormed(st) && SumBy(st.names, MeterOf(st)) != 0.0
    ensures SumBy(st.names, ReportsOf(st, soc)) == soc
  {
    var total := SumBy(st.names, MeterOf(st));
    SumShared(st.names, MeterOf(st), total, soc);
    SameTimes(SumBy(st.names, Shared(MeterOf(st), total, soc)), soc, total);
    forall n | n in st.names ensures Shared(MeterOf(st), total, soc)(n) == ReportsOf(st, soc)(n) {
      assert n in st.parts;
    }
    hide SumBy, Shared, ReportsOf, ReportedCharge, MeterOf;
    SumSame(st.names, Shared(MeterOf(st), total, soc), ReportsOf(st, soc));
  }

  /** A part is told just what its meter shows if and only if the meters together show what the source holds, or its meter
      shows nothing. */
  lemma ReportIsMeterExactly(st: State, n: Name, soc: real)
    requires n in st.parts && SumBy(st.names, MeterOf(st)) != 0.0
    ensures ReportedCharge(st, n, soc) == st.parts[n].meter.meter <==>
            SumBy(st.names, MeterOf(st)) == soc || st.parts[n].meter.meter == 0.0
  {
    var total, meter := SumBy(st.names, MeterOf(st)), st.parts[n].meter.meter;
    Quotient(meter, total, soc);
    if ReportedCharge(st, n, soc) == meter && meter != 0.0 {
      SameTimes(total, soc, meter);
    }
    if SumBy(st.names, MeterOf(st)) == soc || meter == 0.0 {
      SameTimes(ReportedCharge(st, n, soc), meter, total);
    }
  }

  // ----- the new part -----

  /** The scale of a new part: what is wished for, at most what the other part has, over what the source
      has. None when a division by zero or the range check raises. */
  function ChildScale(s: Source, from: Scale, fromSoc: real, wish: Wish): (r: Option<Scale>)
  {
    if s.soc == 0.0 || s.maxCapacity == 0.0 || s.maxDischarging == 0.0 || s.maxCharging == 0.0 then None
    else
      var scale := Scale(Min(wish.soc, fromSoc) / s.soc,
                         Min(wish.maxCapacity, Portion(s.maxCapacity, from.maxCapacity)) / s.maxCapacity,
                         Min(wish.maxDischarging, Portion(s.maxDischarging, from.maxDischarge)) / s.maxDischarging,
                         Min(wish.maxCharging, Portion(s.maxCharging, from.maxCharge)) / s.maxCharging);
      if ScaleOk(scale) then Some(scale) else None
  }

  /** `make_splitter_battery` with `ProportionalPolicy.add_child`. None when anything raises. */
  function ChildAdded(st: State, name: Name, wish: Wish, from: Name, now: real): (r: Option<State>)
  {
    if name in st.parts || from !in st.parts then None
    else
      match Queried(st, from, now)
      case None => None
      case Some(st1) =>
        var part := st1.parts[from];
        if part.current != 0.0 then None
        else
          var fromSoc := ReportedCharge(st, from, st1.source.soc);
          var source := SourceQueried(st1.source, now);
          match ChildScale(source, part.scale, fromSoc, wish)
          case None => None
          case Some(scale) =>
            match Less(part.scale, scale)
            case None => None
            case Some(rest) =>
              var s1 := SourceQueried(source, now);
              var s2 := SourceQueried(s1, now);
              Some(State(s2, st.names + [name],
                         st1.parts[from := Part(rest, part.current, part.meter.(meter := Portion(s1.soc, rest.soc)))]
                                  [name := Part(scale, 0.0, Meter(Portion(s2.soc, scale.soc), 0.0, now))]))
  }

  /** Splitting `from` into itself and a new idle part: the scales of the two add up to the old one. */
  ghost predicate SplitOff(st: State, st': State, name: Name, from: Name)
  {
    && name !in st.parts && from in st.parts && st.parts[from].current == 0.0
    && st'.names == st.names + [name]
    && st'.parts.Keys == st.parts.Keys + {name}
    && (forall k :: k in st.parts && k != from ==> st'.parts[k] == st.parts[k])
    && (forall k :: k in {from, name} ==>
          st'.parts[k].current == 0.0 && st'.parts[k].meter.current == 0.0 && ScaleOk(st'.parts[k].scale))
    && (forall c :: Scaled(st'.parts[from].scale, c) + Scaled(st'.parts[name].scale, c) == Scaled(st.parts[from].scale, c))
    && st'.source.meter.current == st'.source.current == st.source.current
    && st'.source.maxDischarging == st.source.maxDischarging && st'.source.maxCharging == st.source.maxCharging
  }

  lemma ChildAddedSplits(st: State, name: Name, wish: Wish, from: Name, now: real)
    requires Good(st) && ChildAdded(st, name, wish, from, now).Some?
    ensures SplitOff(st, ChildAdded(st, name, wish, from, now).value, name, from)
  {
    hide SumBy, FullyShared, MeterUpdated, Portion;
    var st1 := Queried(st, from, now).value;
    QueriedEffect(st, from, now);
    SourceBrought(st1.source, now);
    var source := SourceQueried(st1.source, now);
    SourceBrought(source, now);
    assert ScaleOk(st.parts[from].scale);
    hide Queried, SourceQueried, ChildScale, Brought;
    var st' := ChildAdded(st, name, wish, from, now).value;
    forall c ensures Scaled(st'.parts[from].scale, c) + Scaled(st'.parts[name].scale, c) == Scaled(st.parts[from].scale, c) {
    }
  }

  /** The sum over one more name. */
  lemma SumOneMore(names: seq<Name>, f: Name -> real, name: Name)
    ensures SumBy(names + [name], f) == SumBy(names, f) + f(name)
  {
    assert (names + [name])[..|names|] == names;
  }

  lemma SplitOffShared(st: State, st': State, name: Name, from: Name)
    requires WellFormed(st) && FullyShared(st) && SplitOff(st, st', name, from)
    ensures WellFormed(st') && FullyShared(st')
  {
    hide SumBy;
    forall c ensures SumBy(st'.names, ScaleOf(st', c)) == 1.0 {
      WholeShare(st, c);
      SumOneMore(st.names, ScaleOf(st', c), name);
      SumChange(st.names, ScaleOf(st, c), ScaleOf(st', c), from);
    }
  }

  lemma SplitOffSynced(st: State, st': State, name: Name, from: Name)
    requires WellFormed(st) && Synced(st) && SplitOff(st, st', name, from)
    ensures Synced(st')
  {
    hide SumBy;
    SumOneMore(st.names, CurrentOf(st'), name);
    SumSame(st.names, CurrentOf(st), CurrentOf(st'));
  }

  lemma PortionNonNegative(limit: real, share: real)
    requires limit >= 0.0 && share >= 0.0
    ensures Portion(limit, share) >= 0.0
  {
  }

  lemma SplitOffLegal(st: State, st': State, name: Name, from: Name)
    requires AllLegal(st) && SplitOff(st, st', name, from)
    requires st.source.maxDischarging >= 0.0 && st.source.maxCharging >= 0.0
    ensures AllLegal(st')
  {
    hide Portion;
    forall k | k in st'.parts
      ensures ScaleOk(st'.parts[k].scale) && WithinBounds(st', k, st'.parts[k].current)
    {
      if k == from || k == name {
        assert k in {from, name};
        PortionNonNegative(st'.source.maxDischarging, st'.parts[k].scale.maxDischarge);
        PortionNonNegative(st'.source.maxCharging, st'.parts[k].scale.maxCharge);
      } else {
        assert WithinBounds(st, k, st.parts[k].current) && ScaleOk(st.parts[k].scale);
      }
    }
  }

  lemma ChildAddedGood(st: State, name: Name, wish: Wish, from: Name, now: real)
    requires Good(st) && ChildAdded(st, name, wish, from, now).Some?
    ensures Good(ChildAdded(st, name, wish, from, now).value)
  {
    ChildAddedSplits(st, name, wish, from, now);
    hide ChildAdded, FullyShared, AllLegal;
    var st' := ChildAdded(st, name, wish, from, now).value;
    SplitOffShared(st, st', name, from);
    SplitOffSynced(st, st', name, from);
    SplitOffLegal(st, st', name, from);
  }

  lemma ScaledBack(a: real, limit: real)
    requires limit != 0.0
    ensures Portion(limit, a / limit) == a
  {
  }

  /** What the scale of a new part stands for: of every resource what is wished for, or all that the other part has, if that
      is less. */
  lemma ChildScaleGets(s: Source, from: Scale, fromSoc: real, wish: Wish)
    requires ChildScale(s, from, fromSoc, wish).Some?
    ensures var scale := ChildScale(s, from, fromSoc, wish).value;
            && Portion(s.soc, scale.soc) == Min(wish.soc, fromSoc)
            && Portion(s.maxCapacity, scale.maxCapacity) ==
                 Min(wish.maxCapacity, Portion(s.maxCapacity, from.maxCapacity))
            && Portion(s.maxDischarging, scale.maxDischarge) ==
                 Min(wish.maxDischarging, Portion(s.maxDischarging, from.maxDischarge))
            && Portion(s.maxCharging, scale.maxCharge) ==
                 Min(wish.maxCharging, Portion(s.maxCharging, from.maxCharge))
  {
    ScaledBack(Min(wish.soc, fromSoc), s.soc);
    ScaledBack(Min(wish.maxCapacity, Portion(s.maxCapacity, from.maxCapacity)), s.maxCapacity);
    ScaledBack(Min(wish.maxDischarging, Portion(s.maxDischarging, from.maxDischarge)), s.maxDischarging);
    ScaledBack(Min(wish.maxCharging, Portion(s.maxCharging, from.maxCharge)), s.maxCharging);
    hide Portion, Min;
  }

  /** The source as it stands at `now`. */
  lemma SourceNow(s: Source, s': Source, now: real)
    requires Brought(s, s', s.current, now) && s.meter.current == s.current
    ensures s'.soc == s.soc - Flow(s.current, now - s.meter.timestamp)
  {
  }

  /** A new part has the scale that its wish and the source at `now` give it, the other part keeps the rest, and both meters
      show what the scales say. */
  lemma ChildGets(st: State, name: Name, wish: Wish, from: Name, now: real)
    requires Good(st) && ChildAdded(st, name, wish, from, now).Some?
    ensures from in st.parts && SumBy(st.names, MeterOf(st)) != 0.0
    ensures var st' := ChildAdded(st, name, wish, from, now).value;
            var s, part := st'.source, st'.parts[name];
            && s.soc == st.source.soc - Flow(st.source.current, now - st.source.meter.timestamp)
            && ChildScale(s, st.parts[from].scale, ReportedCharge(st, from, s.soc), wish) == Some(part.scale)
            && part.current == 0.0 && part.meter == Meter(Portion(s.soc, part.scale.soc), 0.0, now)
            && st'.parts[from].meter.meter == Portion(s.soc, st'.parts[from].scale.soc)
  {
    hide SumBy, FullyShared, AllLegal, MeterUpdated, Portion, Reading, Flow, ReportedCharge, ScaleOk, Min;
    var st1 := Queried(st, from, now).value;
    QueriedEffect(st, from, now);
    SourceNow(st.source, st1.source, now);
    var source := SourceQueried(st1.source, now);
    QueriedNow(st1.source, now);
    QueriedNow(source, now);
    QueriedNow(SourceQueried(source, now), now);
    hide Queried, SourceQueried;
  }

  lemma QueriedNow(s: Source, now: real)
    requires s.meter.timestamp == now && s.meter.current == s.current
    ensures SourceQueried(s, now) == s
  {
    MeterQueriedAgain(s.meter, now);
  }

  lemma ShareAtMost(a: real, limit: real, share: real)
    requires limit > 0.0
    ensures a / limit <= share <==> a <= Portion(limit, share)
    ensures a / limit >= 0.0 <==> a >= 0.0
  {
    var q := a / limit;
    assert q * limit == a;
    if q <= share {
      assert (share - q) * limit >= 0.0;
    } else {
      assert (q - share) * limit > 0.0;
    }
  }

  lemma ClippedShare(wish: real, limit: real, share: real)
    requires limit > 0.0 && wish >= 0.0 && InUnit(share)
    ensures 0.0 <= Min(wish, Portion(limit, share)) / limit <= share
  {
    PortionNonNegative(limit, share);
    ShareAtMost(Min(wish, Portion(limit, share)), limit, share);
  }

  /** With a source that is not empty, sane wishes, a new name and an idle other part, adding fails if and only if the other
      part's scale does not cover the charge that the new one would get. */
  lemma ChildAddedExactly(st: State, name: Name, wish: Wish, from: Name, now: real)
    requires Good(st) && name !in st.parts && from in st.parts && st.parts[from].current == 0.0
    requires SumBy(st.names, MeterOf(st)) != 0.0 && SourceQueried(st.source, now).soc > 0.0
    requires st.source.maxCapacity > 0.0 && st.source.maxDischarging > 0.0 && st.source.maxCharging > 0.0
    requires wish.maxCapacity >= 0.0 && wish.maxDischarging >= 0.0 && wish.maxCharging >= 0.0
    ensures var soc := SourceQueried(st.source, now).soc;
            ChildAdded(st, name, wish, from, now).Some? <==>
            0.0 <= Min(wish.soc, ReportedCharge(st, from, soc)) <= Portion(soc, st.parts[from].scale.soc)
  {
    var s := SourceQueried(st.source, now);
    SourceBrought(st.source, now);
    QueriedNow(s, now);
    var scale, charge := st.parts[from].scale, Min(wish.soc, ReportedCharge(st, from, s.soc));
    assert ScaleOk(scale);
    ShareAtMost(charge, s.soc, scale.soc);
    ClippedShare(wish.maxCapacity, s.maxCapacity, scale.maxCapacity);
    ClippedShare(wish.maxDischarging, s.maxDischarging, scale.maxDischarge);
    ClippedShare(wish.maxCharging, s.maxCharging, scale.maxCharge);
    hide SumBy, FullyShared, AllLegal, Portion, ReportedCharge, MeterUpdated, Min, SourceQueried;
    assert Queried(st, from, now).Some? && Queried(st, from, now).value.source == s;
    assert SourceQueried(s, now) == s;
    assert Queried(st, from, now).value.parts[from].scale == scale;
    assert Queried(st, from, now).value.parts[from].current == 0.0;
    hide Queried;
  }

  // ----- runs -----

  datatype Op =
    | Query(name: Name, now: real)
    | Set(name: Name, target: real, now: real)
    | Add(name: Name, wish: Wish, from: Name, now: real)

  /** One operation. None when it raises in the middle. */
  function Apply(st: State, op: Op): (r: Option<State>)
  {
    match op
    case Query(name, now) => if name in st.parts then Queried(st, name, now) else None
    case Set(name, target, now) =>
      if name !in st.parts then None
      else
        var r := CurrentSet(st, name, target, now);
        if r.None? then None else Some(r.value.0)
    case Add(name, wish, from, now) => ChildAdded(st, name, wish, from, now)
  }

  function Run(st: State, ops: seq<Op>): (r: Option<State>)
  {
    if ops == [] then Some(st)
    else
      match Run(st, ops[..|ops| - 1])
      case None => None
      case Some(st') => Apply(st', ops[|ops| - 1])
  }

  /** A new policy over an idle source: one part that has everything, whose meter is reset to what the source then reports
      to hold. */
  function Initial(name: Name, source: Source, now: real): (st: State)
  {
    var s := SourceQueried(source, now);
    var all := Scale(1.0, 1.0, 1.0, 1.0);
    State(s, [name], map[name := Part(all, 0.0, Meter(Portion(s.soc, all.soc), 0.0, now))])
  }

  lemma InitialGood(name: Name, source: Source, now: real)
    requires source.current == 0.0
    requires source.maxDischarging >= 0.0 && source.maxCharging >= 0.0
    ensures Good(Initial(name, source, now))
  {
    var st := Initial(name, source, now);
    assert [name][..0] == [];
    forall c ensures SumBy(st.names, ScaleOf(st, c)) == 1.0 {
      SumOneMore([], ScaleOf(st, c), name);
      assert [] + [name] == st.names;
    }
    SumOneMore([], CurrentOf(st), name);
    assert [] + [name] == st.names;
    WholePortion(source.maxDischarging);
    WholePortion(source.maxCharging);
  }

  lemma ApplyGood(st: State, op: Op)
    requires Good(st) && Apply(st, op).Some?
    ensures Good(Apply(st, op).value)
  {
    hide Good, Queried, CurrentSet, ChildAdded, Became, WithinBounds;
    match op
    case Query(name, now) =>
      GoodParts(st, name);
      QueriedBecame(st, name, now);
      BecameGood(st, Queried(st, name, now).value, name, st.parts[name].current, now);
    case Set(name, target, now) =>
      GoodParts(st, name);
      CurrentSetEffect(st, name, target, now);
      var (st', ok) := CurrentSet(st, name, target, now).value;
      BecameGood(st, st', name, if ok then target else st.parts[name].current, now);
    case Add(name, wish, from, now) => ChildAddedGood(st, name, wish, from, now);
  }

  lemma GoodParts(st: State, n: Name)
    requires Good(st) && n in st.parts
    ensures WellFormed(st) && Synced(st) && WithinBounds(st, n, st.parts[n].current)
  {
  }

  /** In every state of every run that does not raise, each scale component sums to 1, every part's current
      is within its bounds, and the source carries exactly the sum of the parts' currents. */
  lemma {:induction false} RunIsGood(st: State, ops: seq<Op>)
    requires Good(st) && Run(st, ops).Some?
    ensures Good(Run(st, ops).value)
  {
    if ops != [] {
      RunIsGood(st, ops[..|ops| - 1]);
      ApplyGood(Run(st, ops[..|ops| - 1]).value, ops[|ops| - 1]);
    }
  }

  /** So a target within the part's bounds is never refused by the source, after any run. */
  lemma SourceNeverRefuses(st: State, ops: seq<Op>, n: Name, target: real, now: real)
    requires Good(st) && Run(st, ops).Some? && n in Run(st, ops).value.parts
    requires WithinBounds(Run(st, ops).value, n, target) && Queried(Run(st, ops).value, n, now).Some?
    ensures Forwarded(Queried(Run(st, ops).value, n, now).value, n, target, now).Some?
  {
    RunIsGood(st, ops);
    var st' := Run(st, ops).value;
    QueriedBecame(st', n, now);
    LegalNow(st', n);
    BecameGood(st', Queried(st', n, now).value, n, st'.parts[n].current, now);
    hide Run, Queried, Forwarded, Good;
    ForwardedEffect(Queried(st', n, now).value, n, target, now);
  }

  lemma ApplyKeepsAccount(st: State, op: Op, t: real)
    requires Good(st) && Apply(st, op).Some? && !op.Add?
    ensures Account(Apply(st, op).value, t) == Account(st, t)
  {
    hide Good, Queried, CurrentSet, ChildAdded, Became, WithinBounds, Account;
    match op
    case Query(name, now) =>
      GoodParts(st, name);
      QueriedBecame(st, name, now);
      BecameKeepsAccount(st, Queried(st, name, now).value, name, st.parts[name].current, now, t);
    case Set(name, target, now) =>
      GoodParts(st, name);
      CurrentSetEffect(st, name, target, now);
      var (st', ok) := CurrentSet(st, name, target, now).value;
      BecameKeepsAccount(st, st', name, if ok then target else st.parts[name].current, now, t);
  }

  /** Charge accounting over runs: as long as no part is added, what the parts' meters show together and what
      the source's meter shows differ by the same amount at all times, whichever parts are queried or set
      and whenever. */
  lemma {:induction false} RunKeepsAccount(st: State, ops: seq<Op>, t: real)
    requires Good(st) && Run(st, ops).Some? && forall i :: 0 <= i < |ops| ==> !ops[i].Add?
    ensures Account(Run(st, ops).value, t) == Account(st, t)
  {
    if ops != [] {
      RunKeepsAccount(st, ops[..|ops| - 1], t);
      RunIsGood(st, ops[..|ops| - 1]);
      ApplyKeepsAccount(Run(st, ops[..|ops| - 1]).value, ops[|ops| - 1], t);
    }
  }

  // ----- what the parts are told over a run -----

  /** The current that a part has after an operation on it. */
  function NextCurrent(st: State, op: Op): (r: real)
    requires !op.Add? && op.name in st.parts
  {
    if op.Set? && WithinBounds(st, op.name, op.target) then op.target else st.parts[op.name].current
  }

  lemma ApplyBecomes(st: State, op: Op)
    requires Good(st) && Apply(st, op).Some? && !op.Add?
    ensures op.name in st.parts && Became(st, Apply(st, op).value, op.name, NextCurrent(st, op), op.now)
  {
    hide Queried, CurrentSet, Became;
    match op
    case Query(name, now) => QueriedBecame(st, name, now);
    case Set(name, target, now) => CurrentSetEffect(st, name, target, now);
  }

  /** What an accepted change of part `n`'s current adds to what it draws up to time `t`. */
  function DrawnBy(before: Option<State>, op: Op, n: Name, t: real): (r: real)
  {
    if before.Some? && !op.Add? && op.name == n && n in before.value.parts
    then Flow(NextCurrent(before.value, op) - before.value.parts[n].current, t - op.now)
    else 0.0
  }

  /** What part `n` draws up to time `t` beyond what it would have drawn at the current it started with. */
  function Drawn(st: State, ops: seq<Op>, n: Name, t: real): (r: real)
  {
    if ops == [] then 0.0
    else
      var front := ops[..|ops| - 1];
      Drawn(st, front, n, t) + DrawnBy(Run(st, front), ops[|ops| - 1], n, t)
  }

  ghost predicate NoAdditions(ops: seq<Op>)
  {
    forall i :: 0 <= i < |ops| ==> !ops[i].Add?
  }

  lemma ReadingMoves(m: Meter, current: real, now: real, t: real)
    ensures Reading(Meter(Reading(m, now), current, now), t) == Reading(m, t) - Flow(current - m.current, t - now)
  {
    FlowAdds(m.current, now - m.timestamp, t - now);
    FlowSplits(m.current, current - m.current, t - now);
  }

  /** One operation on `m`: its own meter moves, and the source's charge with the source's meter. */
  lemma BecameMeters(st: State, st': State, m: Name, current: real, now: real, n: Name, t: real)
    requires Synced(st) && m in st.parts && n in st.parts && Became(st, st', m, current, now)
    ensures st'.names == st.names && n in st'.parts
    ensures Reading(st'.parts[n].meter, t) ==
              Reading(st.parts[n].meter, t) - if m == n then Flow(current - st.parts[n].current, t - now) else 0.0
    ensures st'.source.soc - st'.source.meter.meter == st.source.soc - st.source.meter.meter
  {
    hide SumBy, Flow;
    ReadingMoves(st.parts[m].meter, current, now, t);
  }

  lemma ApplyMeters(st: State, op: Op, n: Name, t: real)
    requires Good(st) && Apply(st, op).Some? && !op.Add? && n in st.parts
    ensures var st' := Apply(st, op).value;
            && st'.names == st.names && n in st'.parts
            && Reading(st'.parts[n].meter, t) == Reading(st.parts[n].meter, t) - DrawnBy(Some(st), op, n, t)
            && st'.source.soc - st'.source.meter.meter == st.source.soc - st.source.meter.meter
  {
    hide Reading, Flow, Apply, NextCurrent, Became, FullyShared, AllLegal, SumBy;
    ApplyBecomes(st, op);
    BecameMeters(st, Apply(st, op).value, op.name, NextCurrent(st, op), op.now, n, t);
  }

  /** Over every run without additions a part's meter, carried forward to any time, has lost just what the part's own
      currents draw, whatever the other parts do and whoever is queried when; and the source's charge has moved by as much
      as the source's meter. */
  lemma {:induction false} RunMetersOwnCurrent(st: State, ops: seq<Op>, n: Name, t: real)
    requires Good(st) && Run(st, ops).Some? && NoAdditions(ops) && n in st.parts
    ensures var st' := Run(st, ops).value;
            && st'.names == st.names && n in st'.parts
            && Reading(st'.parts[n].meter, t) == Reading(st.parts[n].meter, t) - Drawn(st, ops, n, t)
            && st'.source.soc - st'.source.meter.meter == st.source.soc - st.source.meter.meter
  {
    hide Reading, Apply, DrawnBy, Good;
    if ops != [] {
      var front, op := ops[..|ops| - 1], ops[|ops| - 1];
      var before := Run(st, front).value;
      RunMetersOwnCurrent(st, front, n, t);
      RunIsGood(st, front);
      ApplyMeters(before, op, n, t);
    }
  }

  // ----- whether the meters account for the source's charge -----

  /** What the parts' meters show together, carried forward to time `t`, is what the source then holds. */
  ghost predicate Accounted(st: State, t: real)
  {
    Account(st, t) == st.source.soc - st.source.meter.meter
  }

  lemma ChildAddedSource(st: State, name: Name, wish: Wish, from: Name, now: real)
    requires Good(st) && ChildAdded(st, name, wish, from, now).Some?
    ensures Brought(st.source, ChildAdded(st, name, wish, from, now).value.source, st.source.current, now)
    ensures from in st.parts && st.parts[from].meter.current == 0.0
    ensures ChildAdded(st, name, wish, from, now).value.parts[from].meter.current == 0.0
  {
    hide SumBy, FullyShared, AllLegal, MeterUpdated, Portion, Reading, Flow, ReportedCharge, ScaleOk, Min;
    var st1 := Queried(st, from, now).value;
    QueriedEffect(st, from, now);
    var source := SourceQueried(st1.source, now);
    QueriedNow(st1.source, now);
    QueriedNow(source, now);
    QueriedNow(SourceQueried(source, now), now);
    hide Queried, SourceQueried;
  }

  lemma IdleReading(m: Meter, t: real)
    requires m.current == 0.0
    ensures Reading(m, t) == m.meter
  {
  }

  lemma SourceReading(s: Source, s': Source, now: real, t: real)
    requires Brought(s, s', s.current, now) && s.meter.current == s.current
    ensures Reading(s'.meter, t) == Reading(s.meter, t)
  {
    ReadingMoves(s.meter, s.current, now, t);
    NoFlow(t - now);
  }

  lemma NoFlow(seconds: real)
    ensures Flow(0.0, seconds) == 0.0
  {
  }

  /** The readings of the two parts that an addition leaves behind. */
  lemma ChildAddedReadings(st: State, st': State, name: Name, from: Name, soc: real, t: real)
    requires WellFormed(st) && SplitOff(st, st', name, from) && st.parts[from].meter.current == 0.0
    requires st'.parts[name].meter.meter == Portion(soc, st'.parts[name].scale.soc)
    requires st'.parts[from].meter.meter == Portion(soc, st'.parts[from].scale.soc)
    ensures SumBy(st'.names, ReadingOf(st', t)) ==
              SumBy(st.names, ReadingOf(st, t)) + Portion(soc, st.parts[from].scale.soc) - st.parts[from].meter.meter
  {
    hide SumBy, Portion, Reading, ScaleOk;
    IdleReading(st.parts[from].meter, t);
    assert from in {from, name} && name in {from, name};
    IdleReading(st'.parts[from].meter, t);
    IdleReading(st'.parts[name].meter, t);
    PortionAdds(soc, st'.parts[from].scale.soc, st'.parts[name].scale.soc);
    assert Scaled(st'.parts[from].scale, Soc) + Scaled(st'.parts[name].scale, Soc) == Scaled(st.parts[from].scale, Soc);
    SumOneMore(st.names, ReadingOf(st', t), name);
    SumChange(st.names, ReadingOf(st, t), ReadingOf(st', t), from);
  }

  /** Adding a part sets two meters by the scales and forgets what the other part had used: if the meters accounted for the
      source's charge before, they do so afterwards if and only if the other part's meter showed just what its scale says. */
  lemma AddingAccounts(st: State, name: Name, wish: Wish, from: Name, now: real, t: real)
    requires Good(st) && ChildAdded(st, name, wish, from, now).Some? && Accounted(st, t)
    ensures var st' := ChildAdded(st, name, wish, from, now).value;
            && from in st.parts
            && (Accounted(st', t) <==> st.parts[from].meter.meter == Portion(st'.source.soc, st.parts[from].scale.soc))
  {
    var st' := ChildAdded(st, name, wish, from, now).value;
    ChildAddedSplits(st, name, wish, from, now);
    ChildGets(st, name, wish, from, now);
    ChildAddedSource(st, name, wish, from, now);
    hide ChildAdded, SumBy, Portion, Reading, SplitOff, FullyShared, AllLegal, ChildScale;
    ChildAddedReadings(st, st', name, from, st'.source.soc, t);
    SourceReading(st.source, st'.source, now, t);
  }

  /** The meter of a new policy's only part accounts for the source's charge. */
  lemma InitialAccounts(name: Name, source: Source, now: real, t: real)
    requires source.current == 0.0
    ensures Accounted(Initial(name, source, now), t)
  {
    var st := Initial(name, source, now);
    SumOneMore([], ReadingOf(st, t), name);
    assert [] + [name] == st.names;
    WholePortion(st.source.soc);
    hide Portion;
    IdleReading(st.parts[name].meter, t);
    IdleReading(st.source.meter, t);
  }

  // ----- reports at one instant -----

  /** Every meter has been updated at `now`. */
  ghost predicate Present(st: State, now: real)
  {
    st.source.meter.timestamp == now && forall n :: n in st.parts ==> st.parts[n].meter.timestamp == now
  }

  function Queries(names: seq<Name>, now: real): (ops: seq<Op>)
    ensures |ops| == |names| && forall i :: 0 <= i < |ops| ==> ops[i] == Query(names[i], now)
  {
    seq(|names|, i requires 0 <= i < |names| => Query(names[i], now))
  }

  lemma ApplyPresent(st: State, op: Op)
    requires Good(st) && Apply(st, op).Some? && !op.Add?
    ensures var st' := Apply(st, op).value;
            && st'.names == st.names && st'.parts.Keys == st.parts.Keys && op.name in st.parts
            && st'.source.meter.timestamp == op.now && st'.parts[op.name].meter.timestamp == op.now
            && forall k :: k in st.parts && k != op.name ==> st'.parts[k].meter == st.parts[k].meter
  {
    hide Apply, NextCurrent, Good, SumBy;
    ApplyBecomes(st, op);
  }

  lemma {:induction false} QueriesBring(st: State, names: seq<Name>, now: real)
    requires Good(st) && Run(st, Queries(names, now)).Some?
    ensures var st' := Run(st, Queries(names, now)).value;
            && st'.names == st.names && st'.parts.Keys == st.parts.Keys
            && (names != [] ==> st'.source.meter.timestamp == now)
            && forall n :: n in names ==> n in st'.parts && st'.parts[n].meter.timestamp == now
  {
    hide Apply, Good;
    if names != [] {
      var k := |names| - 1;
      assert Queries(names, now)[..k] == Queries(names[..k], now);
      var before := Run(st, Queries(names[..k], now)).value;
      QueriesBring(st, names[..k], now);
      RunIsGood(st, Queries(names[..k], now));
      ApplyPresent(before, Query(names[k], now));
    }
  }

  /** Once everybody has been queried, everything is up to date. */
  lemma AllQueriedPresent(st: State, now: real)
    requires Good(st) && Run(st, Queries(st.names, now)).Some?
    ensures Present(Run(st, Queries(st.names, now)).value, now)
  {
    QueriesBring(st, st.names, now);
    WholeShare(st, Soc);
  }

  /** Then it does not matter who asks first: another query at the same instant changes nothing. */
  lemma PresentQueries(st: State, n: Name, now: real)
    requires Good(st) && Present(st, now) && n in st.parts && SumBy(st.names, MeterOf(st)) != 0.0
    ensures Queried(st, n, now) == Some(st)
  {
    NoTimeNoFlow((st.source.current + st.source.current) / 2.0);
    MeterQueriedAgain(st.source.meter, now);
    MeterQueriedAgain(st.parts[n].meter, now);
    assert SourceQueried(st.source, now) == st.source;
    assert st.parts[n := st.parts[n]] == st.parts;
  }

  /** Whoever is queried and set in between, at any instant at which everything is up to date a part is told what its own
      meter shows, which is what it started with less what its own currents drew, if and only if the meters and the source's
      charge agreed to begin with; or its meter shows nothing. */
  lemma RunReportsOwnCharge(st: State, ops: seq<Op>, n: Name, now: real)
    requires Good(st) && Run(st, ops).Some? && NoAdditions(ops) && n in st.parts
    requires Present(Run(st, ops).value, now) && SumBy(st.names, MeterOf(Run(st, ops).value)) != 0.0
    ensures var st', left := Run(st, ops).value, Reading(st.parts[n].meter, now) - Drawn(st, ops, n, now);
            && st'.names == st.names && n in st'.parts && left == st'.parts[n].meter.meter
            && (ReportedCharge(st', n, st'.source.soc) == left <==>
                Accounted(st, now) || left == 0.0)
  {
    hide SumBy, FullyShared, AllLegal, Flow, Run, Drawn;
    var st' := Run(st, ops).value;
    RunMetersOwnCurrent(st, ops, n, now);
    RunKeepsAccount(st, ops, now);
    forall k | k in st'.parts ensures Reading(st'.parts[k].meter, now) == st'.parts[k].meter.meter {
      NoTimeNoFlow(st'.parts[k].meter.current);
    }
    NoTimeNoFlow(st'.source.meter.current);
    SumSame(st.names, ReadingOf(st', now), MeterOf(st'));
    ReportIsMeterExactly(st', n, st'.source.soc);
  }

  /** In every state of every run, additions included, the reports of one instant add up to the source's charge and are in the
      proportion of the meters, from which they are computed. */
  lemma RunReportsShareCharge(st: State, ops: seq<Op>, st': State, a: Name, b: Name)
    requires Good(st) && Run(st, ops) == Some(st') && a in st'.parts && b in st'.parts
    requires SumBy(st'.names, MeterOf(st')) != 0.0
    ensures var soc := st'.source.soc;
            && SumBy(st'.names, ReportsOf(st', soc)) == soc
            && ReportedCharge(st', a, soc) * st'.parts[b].meter.meter == ReportedCharge(st', b, soc) * st'.parts[a].meter.meter
  {
    hide Run, Good;
    RunIsGood(st, ops);
    GoodParts(st', a);
    hide *;
    ReportsAddUp(st', st'.source.soc);
    ReportsInProportion(st', a, b, st'.source.soc);
  }

  // ----- the imperative form -----

  class PseudoBattery {
    var current: real
    var soc: real
    const maxCapacity: real
    const maxDischarging: real
    const maxCharging: real
    var meter: Meter

    ghost function Value(): (s: Source)
      reads this
    {
      Source(current, soc, maxCapacity, maxDischarging, maxCharging, meter)
    }

    /** The meter starts at the given charge; `_current` starts at 0 whatever the status says. */
    constructor (status: Source, now: real)
      ensures Value() == status.(meter := Meter(status.soc, 0.0, now))
    {
      current, soc := status.current, status.soc;
      maxCapacity, maxDischarging, maxCharging := status.maxCapacity, status.maxDischarging, status.maxCharging;
      meter := Meter(status.soc, 0.0, now);
    }

    /** `Battery.update_meter`. */
    method UpdateMeter(end: real, next: real, now: real)
      modifies this`meter
      ensures meter == MeterUpdated(old(meter), end, next, now)
      ensures meter.meter == old(meter.meter) - (old(meter.current) + end) / 2.0 * ((now - old(meter.timestamp)) / 3600.0)
    {
      var duration := now - meter.timestamp;
      var ampHours := ((meter.current + end) / 2.0) * (duration / 3600.0);
      meter := Meter(meter.meter - ampHours, next, now);
    }

    method GetStatus(now: real)
      modifies this
      ensures Value() == SourceQueried(old(Value()), now)
    {
      var before := meter.meter;
      UpdateMeter(current, current, now);
      soc := soc + meter.meter - before;
    }

    method SetCurrent(target: real, now: real) returns (raised: bool)
      modifies this
      ensures raised == SourceSet(old(Value()), target, now).None?
      ensures !raised ==> Value() == SourceSet(old(Value()), target, now).value
    {
      GetStatus(now);
      var oldCurrent := current;
      if !(-maxCharging <= target <= maxDischarging) {
        return true;
      }
      current := target;
      GetStatus(now);
      UpdateMeter(oldCurrent, current, now);
      return false;
    }
  }

  datatype Outcome = Raised | Refused | Done

  class Splitter {
    const source: PseudoBattery
    var names: seq<Name>
    var parts: map<Name, Part>

    ghost function Value(): (st: State)
      reads this, source
    {
      State(source.Value(), names, parts)
    }

    /** `make_splitter_policy`: one part with everything, whose meter is reset to the source's charge. */
    constructor (source: PseudoBattery, name: Name, now: real)
      modifies source
      ensures this.source == source && Value() == Initial(name, old(source.Value()), now)
    {
      this.source := source;
      names := [name];
      source.GetStatus(now);
      var all := Scale(1.0, 1.0, 1.0, 1.0);
      parts := map[name := Part(all, 0.0, Meter(Portion(source.soc, all.soc), 0.0, now))];
    }

    /** The sum over the parts, in the order of the dictionary. */
    method AddUp(f: Name -> real) returns (total: real)
      ensures total == SumBy(names, f)
    {
      total := 0.0;
      for i := 0 to |names|
        invariant total == SumBy(names[..i], f)
      {
        assert names[..i + 1][..i] == names[..i];
        total := total + f(names[i]);
      }
      assert names[..|names|] == names;
    }

    method UpdateMeter(n: Name, end: real, next: real, now: real)
      requires n in parts
      modifies this`parts
      ensures parts == old(parts)[n := old(parts)[n].(meter := MeterUpdated(old(parts)[n].meter, end, next, now))]
    {
      var m := parts[n].meter;
      var ampHours := Flow((m.current + end) / 2.0, now - m.timestamp);
      parts := parts[n := parts[n].(meter := Meter(m.meter - ampHours, next, now))];
    }

    /** `SplitterBattery.get_status`; also returns the charge that it reports. */
    method GetStatus(n: Name, now: real) returns (raised: bool, soc: real)
      requires n in parts
      modifies this`parts, source
      ensures raised == Queried(old(Value()), n, now).None?
      ensures !raised ==>
                && Value() == Queried(old(Value()), n, now).value
                && SumBy(names, MeterOf(old(Value()))) != 0.0
                && soc == ReportedCharge(old(Value()), n, source.soc)
    {
      source.GetStatus(now);
      var ps := parts;
      var total := AddUp(k => if k in ps then ps[k].meter.meter else 0.0);
      SumSame(names, k => if k in ps then ps[k].meter.meter else 0.0, MeterOf(old(Value())));
      source.GetStatus(now);
      if total == 0.0 {
        return true, 0.0;
      }
      soc := parts[n].meter.meter / total * source.soc;
      UpdateMeter(n, parts[n].current, parts[n].current, now);
      raised := false;
    }

    /** `SplitterBattery.set_current` with `ProportionalPolicy.set_current`. */
    method SetCurrent(n: Name, target: real, now: real) returns (outcome: Outcome)
      requires n in parts
      modifies this`parts, source
      ensures (outcome == Raised) == CurrentSet(old(Value()), n, target, now).None?
      ensures outcome != Raised ==>
                && Value() == CurrentSet(old(Value()), n, target, now).value.0
                && (outcome == Done) == CurrentSet(old(Value()), n, target, now).value.1
    {
      hide MeterUpdated, SourceQueried, SumBy;
      var oldCurrent := parts[n].current;
      var raised, soc := GetStatus(n, now);
      if raised {
        return Raised;
      }
      var accepted;
      raised, accepted := Forward(n, target, now);
      if raised {
        return Raised;
      }
      if !accepted {
        return Refused;
      }
      raised, soc := GetStatus(n, now);
      if raised {
        return Raised;
      }
      UpdateMeter(n, oldCurrent, target, now);
      return Done;
    }

    method Forward(n: Name, target: real, now: real) returns (raised: bool, accepted: bool)
      requires n in parts
      modifies this`parts, source
      ensures !old(WithinBounds(Value(), n, target)) ==>
                !raised && !accepted && Value() == old(Value()).(source := SourceQueried(old(source.Value()), now))
      ensures old(WithinBounds(Value(), n, target)) ==> raised == Forwarded(old(Value()), n, target, now).None?
      ensures old(WithinBounds(Value(), n, target)) && !raised ==>
                accepted && Value() == Forwarded(old(Value()), n, target, now).value
    {
      hide MeterUpdated;
      ghost var st := Value();
      source.GetStatus(now);
      var scale := parts[n].scale;
      if target > source.maxDischarging * scale.maxDischarge || -target > source.maxCharging * scale.maxCharge {
        return false, false;
      }
      assert WithinBounds(st, n, target);
      parts := parts[n := parts[n].(current := target)];
      var ps := parts;
      var net := AddUp(k => if k in ps then ps[k].current else 0.0);
      SumSame(names, k => if k in ps then ps[k].current else 0.0, CurrentOf(Value()));
      assert net == NetCurrent(Value());
      raised := source.SetCurrent(net, now);
      accepted := !raised;
    }

    /** `make_splitter_battery` with `ProportionalPolicy.add_child`. */
    method AddChild(name: Name, wish: Wish, from: Name, now: real) returns (raised: bool)
      modifies this, source
      ensures raised == ChildAdded(old(Value()), name, wish, from, now).None?
      ensures !raised ==> Value() == ChildAdded(old(Value()), name, wish, from, now).value
    {
      hide MeterUpdated, SumBy, SourceQueried, ChildScale, ReportedCharge, Portion;
      if name in parts || from !in parts {
        return true;
      }
      var soc;
      raised, soc := GetStatus(from, now);
      if raised || parts[from].current != 0.0 {
        return true;
      }
      source.GetStatus(now);
      var part := parts[from];
      var scale := ChildScale(
        Source(source.current, source.soc, source.maxCapacity, source.maxDischarging, source.maxCharging, source.meter),
        part.scale, soc, wish);
      if scale.None? {
        return true;
      }
      var rest := Less(part.scale, scale.value);
      if rest.None? {
        return true;
      }
      source.GetStatus(now);
      parts := parts[from := Part(rest.value, part.current, part.meter.(meter := Portion(source.soc, rest.value.soc)))];
      source.GetStatus(now);
      parts := parts[name := Part(scale.value, 0.0, Meter(Portion(source.soc, scale.value.soc), 0.0, now))];
      names := names + [name];
    }
  }
}
