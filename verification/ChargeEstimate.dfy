/** The charge estimate that a V2 splitter keeps for each child: every refresh and every applied
    current moves the estimate forward to the present. Times are in milliseconds.
 */
module ChargeEstimate {

  const MS_PER_HOUR: real := 3600000.0

  datatype Meter = Meter(charge: real, last: int, current: int)

  function Hours(ms: int): (h: real)
  {
    ms as real / MS_PER_HOUR
  }

  /** The charge used by a constant current. */
  function Used(current: int, ms: int): (r: real)
  {
    current as real * Hours(ms)
  }

  /** The loop body shared by the three refresh functions. */
  function Refreshed(m: Meter, now: int): (r: Meter)
  {
    Meter(m.charge - Used(m.current, now - m.last), now, m.current)
  }

  /** `BALSplitter::set_current`. */
  function CurrentSet(m: Meter, now: int, current: int): (r: Meter)
  {
    Refreshed(m, now).(current := current)
  }

  /** The estimate carried forward to time `t`. */
  function ChargeAt(m: Meter, t: int): (r: real)
  {
    m.charge - Used(m.current, t - m.last)
  }

  /** A refresh may also throw the estimate away and start again from another charge. */
  datatype Step = Refresh(at: int) | Apply(at: int, current: int) | Reset(at: int, charge: real)

  function Run(m: Meter, steps: seq<Step>): (r: Meter)
  {
    if steps == [] then m
    else
      var before := Run(m, steps[..|steps| - 1]);
      match steps[|steps| - 1]
      case Refresh(at) => Refreshed(before, at)
      case Apply(at, current) => CurrentSet(before, at, current)
      case Reset(at, charge) => Refreshed(before, at).(charge := charge)
  }

  ghost predicate NoResets(steps: seq<Step>)
  {
    forall i :: 0 <= i < |steps| ==> !steps[i].Reset?
  }

  /** The reference: the charge used by time `t` when the currents are applied one after another,
      starting from `current` at time `since`. Refreshes play no part in it, nor do resets. */
  function Integral(current: int, since: int, steps: seq<Step>, t: int): (r: real)
    decreases |steps|
  {
    if steps == [] then Used(current, t - since)
    else
      match steps[0]
      case Refresh(_) => Integral(current, since, steps[1..], t)
      case Reset(_, _) => Integral(current, since, steps[1..], t)
      case Apply(at, next) => Used(current, at - since) + Integral(next, at, steps[1..], t)
  }

  lemma UsedAdds(current: int, a: int, b: int)
    ensures Used(current, a) + Used(current, b) == Used(current, a + b)
  {
    assert (a + b) as real == a as real + b as real;
    assert Hours(a) + Hours(b) == Hours(a + b);
  }

  lemma RefreshKeepsCharge(m: Meter, now: int, t: int)
    ensures ChargeAt(Refreshed(m, now), t) == ChargeAt(m, t)
  {
    UsedAdds(m.current, now - m.last, t - now);
  }

  lemma {:induction false} RunFromFront(m: Meter, first: Step, rest: seq<Step>)
    ensures Run(m, [first] + rest) == Run(Run(m, [first]), rest)
  {
    var steps := [first] + rest;
    if rest == [] {
      assert steps == [first];
    } else {
      RunFromFront(m, first, rest[..|rest| - 1]);
      assert steps[..|steps| - 1] == [first] + rest[..|rest| - 1];
    }
  }

  /** Path independence: whatever refreshes happen and whenever they happen, the estimate at any time
      is the initial charge less the integral of the applied currents, as long as it is not reset. */
  lemma {:induction false} EstimateIsIntegral(m: Meter, steps: seq<Step>, t: int)
    requires NoResets(steps)
    ensures ChargeAt(Run(m, steps), t) == m.charge - Integral(m.current, m.last, steps, t)
    decreases |steps|
  {
    if steps != [] {
      var first, rest := steps[0], steps[1..];
      assert steps == [first] + rest;
      RunFromFront(m, first, rest);
      var m' := Run(m, [first]);
      assert [first][..0] == [];
      EstimateIsIntegral(m', rest, t);
      match first
      case Refresh(at) => IntegralFromLater(m.current, m.last, at, rest, t);
      case Apply(at, next) =>
    }
  }

  lemma {:induction false} RunAppend(m: Meter, a: seq<Step>, b: seq<Step>)
    ensures Run(m, a + b) == Run(Run(m, a), b)
  {
    if b == [] {
      assert a + b == a;
    } else {
      var k := |b| - 1;
      assert (a + b)[..|a| + k] == a + b[..k];
      RunAppend(m, a, b[..k]);
    }
  }

  /** From a reset on, the same holds with the charge that it was reset to, whatever happened before. */
  lemma EstimateSinceReset(m: Meter, before: seq<Step>, at: int, charge: real, after: seq<Step>, t: int)
    requires NoResets(after)
    ensures ChargeAt(Run(m, before + [Reset(at, charge)] + after), t) ==
            charge - Integral(Run(m, before).current, at, after, t)
  {
    var reset := before + [Reset(at, charge)];
    RunAppend(m, reset, after);
    assert reset[..|reset| - 1] == before;
    EstimateIsIntegral(Run(m, reset), after, t);
  }

  /** Moving the start of the integral splits off the charge used up to there. */
  lemma {:induction false} IntegralFromLater(current: int, since: int, at: int, steps: seq<Step>, t: int)
    ensures Integral(current, since, steps, t) == Used(current, at - since) + Integral(current, at, steps, t)
    decreases |steps|
  {
    if steps == [] {
      UsedAdds(current, at - since, t - at);
    } else {
      match steps[0]
      case Refresh(_) => IntegralFromLater(current, since, at, steps[1..], t);
      case Reset(_, _) => IntegralFromLater(current, since, at, steps[1..], t);
      case Apply(when, _) => UsedAdds(current, at - since, when - at);
    }
  }
}
