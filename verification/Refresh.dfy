/** `BALSplitter::refresh_tranche` and `refresh_reservation`: the loops themselves, in place, proved
    against the passes of module `Waterfall`, and what a whole refresh guarantees.

    `children_status_now` is kept as one array per field. A loop that runs off the front of the array,
    which the C++ code leaves undefined, is reported by `broke == false`.
 */
module SplitterRefresh {
  import opened Sums
  import opened Waterfall

  datatype Policy = Tranche | Reservation

  /** The part of a source status that is distributed. */
  datatype Status = Status(current: int, capacity: int, maxCapacity: int, maxCharging: int, maxDischarging: int)

  // ----- the limits of the passes -----

  function Ones(n: nat): (r: seq<int>)
    ensures |r| == n && forall i :: 0 <= i < n ==> r[i] == 1
  {
    seq(n, i => 1)
  }

  /** A surplus of current fills discharging children up to their maximum and stops charging ones. */
  function DischargeLimits(current: seq<int>, maxDischarging: seq<int>): (r: seq<int>)
    requires |current| == |maxDischarging|
    ensures |r| == |current|
    ensures forall i :: 0 <= i < |r| ==> r[i] == if current[i] >= 0 then maxDischarging[i] else 0
  {
    seq(|current|, i requires 0 <= i < |current| => if current[i] >= 0 then maxDischarging[i] else 0)
  }

  /** A deficit of current stops discharging children and fills charging ones. */
  function ChargeLimits(current: seq<int>, maxCharging: seq<int>): (r: seq<int>)
    requires |current| == |maxCharging|
    ensures |r| == |current|
    ensures forall i :: 0 <= i < |r| ==> r[i] == if current[i] >= 0 then 0 else -maxCharging[i]
  {
    seq(|current|, i requires 0 <= i < |current| => if current[i] >= 0 then 0 else -maxCharging[i])
  }

  // ----- a pass in progress -----

  /** After `k` children have been set to their limits. */
  ghost predicate Progress(xs: seq<int>, limits: seq<int>, forward: bool, push: Push, r0: int,
                           k: nat, now: seq<int>, r: int)
  {
    && k <= |xs| == |limits| == |now|
    && (forall i :: 0 <= i < |xs| ==> now[i] == if At(|xs|, forward, i) < k then limits[i] else xs[i])
    && r == r0 - Room(xs, limits, forward, k)
    && (forall j :: 0 < j <= k ==> Overflows(push, r0, Room(xs, limits, forward, j)))
  }

  /** The test in a loop body: the child can take all of the residual. */
  predicate Fits(push: Push, x: int, r: int, limit: int)
  {
    match push
    case Up => x + r <= limit
    case Down(slack) => x + r >= limit - slack
  }

  /** What a loop body does to the child it visits, and to the residual. */
  ghost predicate Visit(push: Push, limits: seq<int>, i: nat, now: seq<int>, r: int,
                        broke: bool, now': seq<int>, r': int)
  {
    && i < |now| == |limits|
    && broke == Fits(push, now[i], r, limits[i])
    && now' == now[i := if broke then now[i] + r else limits[i]]
    && r' == if broke then 0 else r - (limits[i] - now[i])
  }

  lemma StopIs(xs: seq<int>, limits: seq<int>, forward: bool, push: Push, r: int, stop: nat)
    requires stop <= |xs| == |limits|
    requires forall j :: 0 < j <= stop ==> Overflows(push, r, Room(xs, limits, forward, j))
    requires stop < |xs| ==> !Overflows(push, r, Room(xs, limits, forward, stop + 1))
    ensures StopAt(xs, limits, forward, push, r, 0) == stop
  {
  }

  /** The test decides whether the residual fits into the first `k + 1` children. */
  lemma FitsIsRoom(xs: seq<int>, limits: seq<int>, forward: bool, push: Push, r0: int, k: nat)
    requires k < |xs| == |limits|
    ensures var i := At(|xs|, forward, k);
            Fits(push, xs[i], r0 - Room(xs, limits, forward, k), limits[i]) <==>
            !Overflows(push, r0, Room(xs, limits, forward, k + 1))
  {
  }

  lemma ProgressBreak(xs: seq<int>, limits: seq<int>, forward: bool, push: Push, r0: int,
                      k: nat, now: seq<int>, r: int, now': seq<int>, r': int)
    requires Progress(xs, limits, forward, push, r0, k, now, r) && k < |xs|
    requires Visit(push, limits, At(|xs|, forward, k), now, r, true, now', r')
    ensures Outcome(now', r', true) == Pour(xs, limits, forward, push, r0)
  {
    var i := At(|xs|, forward, k);
    assert At(|xs|, forward, i) == k;
    FitsIsRoom(xs, limits, forward, push, r0, k);
    StopIs(xs, limits, forward, push, r0, k);
  }

  lemma ProgressOverflow(xs: seq<int>, limits: seq<int>, forward: bool, push: Push, r0: int,
                         k: nat, now: seq<int>, r: int, now': seq<int>, r': int)
    requires Progress(xs, limits, forward, push, r0, k, now, r) && k < |xs|
    requires Visit(push, limits, At(|xs|, forward, k), now, r, false, now', r')
    ensures Progress(xs, limits, forward, push, r0, k + 1, now', r')
  {
    var i := At(|xs|, forward, k);
    assert At(|xs|, forward, i) == k;
    FitsIsRoom(xs, limits, forward, push, r0, k);
  }

  /** One visit, from the state after `k` children: the pass is over, or `k + 1` children are done. */
  lemma ProgressVisit(xs: seq<int>, limits: seq<int>, forward: bool, push: Push, r0: int,
                      k: nat, now: seq<int>, r: int, broke: bool, now': seq<int>, r': int)
    requires Progress(xs, limits, forward, push, r0, k, now, r) && k < |xs|
    requires Visit(push, limits, At(|xs|, forward, k), now, r, broke, now', r')
    ensures broke ==> Outcome(now', r', true) == Pour(xs, limits, forward, push, r0)
    ensures !broke ==> Progress(xs, limits, forward, push, r0, k + 1, now', r')
  {
    if broke {
      ProgressBreak(xs, limits, forward, push, r0, k, now, r, now', r');
    } else {
      ProgressOverflow(xs, limits, forward, push, r0, k, now, r, now', r');
    }
  }

  lemma ProgressEnd(xs: seq<int>, limits: seq<int>, forward: bool, push: Push, r0: int, now: seq<int>, r: int)
    requires Progress(xs, limits, forward, push, r0, |xs|, now, r)
    ensures Outcome(now, r, false) == Pour(xs, limits, forward, push, r0)
  {
    StopIs(xs, limits, forward, push, r0, |xs|);
  }

  // ----- the loops -----

  /** The deficit loops: children are brought down to 1, from the last one on. `slack` is 1 for the max
      fields, whose test is `< 0`, and 0 for the capacity, whose test is `<= 0`. */
  method TakeDeficit(field: array<int>, deficit: int, slack: nat) returns (broke: bool, left: int)
    modifies field
    ensures Outcome(field[..], left, broke) == Pour(old(field[..]), Ones(field.Length), false, Down(slack), deficit)
  {
    ghost var xs, limits, push := field[..], Ones(field.Length), Down(slack);
    left := deficit;
    var k := 0;
    while k < field.Length
      invariant Progress(xs, limits, false, push, deficit, k, field[..], left)
    {
      ghost var now, r := field[..], left;
      var i := At(field.Length, false, k);
      broke := field[i] + left >= 1 - slack;
      if broke {
        field[i] := field[i] + left;
        left := 0;
      } else {
        left := left + (field[i] - 1);
        field[i] := 1;
      }
      ProgressVisit(xs, limits, false, push, deficit, k, now, r, broke, field[..], left);
      if broke {
        return;
      }
      k := k + 1;
    }
    ProgressEnd(xs, limits, false, push, deficit, field[..], left);
    broke := false;
  }

  /** The capacity surplus loops: children are filled to their maximum capacity. */
  method FillCapacity(capacity: array<int>, maxCapacity: array<int>, surplus: int, forward: bool)
    returns (broke: bool, left: int)
    requires capacity.Length == maxCapacity.Length && capacity != maxCapacity
    modifies capacity
    ensures Outcome(capacity[..], left, broke) == Pour(old(capacity[..]), maxCapacity[..], forward, Up, surplus)
  {
    ghost var xs, limits := capacity[..], maxCapacity[..];
    left := surplus;
    var k := 0;
    while k < capacity.Length
      invariant Progress(xs, limits, forward, Up, surplus, k, capacity[..], left)
    {
      ghost var now, r := capacity[..], left;
      var i := At(capacity.Length, forward, k);
      broke := capacity[i] + left <= maxCapacity[i];
      if broke {
        capacity[i] := capacity[i] + left;
        left := 0;
      } else {
        left := left - (maxCapacity[i] - capacity[i]);
        capacity[i] := maxCapacity[i];
      }
      ProgressVisit(xs, limits, forward, Up, surplus, k, now, r, broke, capacity[..], left);
      if broke {
        return;
      }
      k := k + 1;
    }
    ProgressEnd(xs, limits, forward, Up, surplus, capacity[..], left);
    broke := false;
  }

  /** The body of the current loops for a non-negative residual. */
  method RaiseChild(current: array<int>, maxDischarging: array<int>, i: nat, surplus: int)
    returns (broke: bool, left: int)
    requires i < current.Length == maxDischarging.Length && current != maxDischarging
    modifies current
    ensures forall limits: seq<int> ::
              |limits| == current.Length && limits[i] == (if old(current[i]) >= 0 then maxDischarging[i] else 0) ==>
              Visit(Up, limits, i, old(current[..]), surplus, broke, current[..], left)
  {
    if current[i] >= 0 {
      if current[i] + surplus > maxDischarging[i] {
        left := surplus - (maxDischarging[i] - current[i]);
        current[i] := maxDischarging[i];
        broke := false;
      } else {
        current[i] := current[i] + surplus;
        broke, left := true, 0;
      }
    } else {
      if current[i] + surplus > 0 {
        left := surplus + current[i];
        current[i] := 0;
        broke := false;
      } else {
        current[i] := current[i] + surplus;
        broke, left := true, 0;
      }
    }
  }

  /** The current loops for a non-negative residual, from the last child on. */
  method AddCurrent(current: array<int>, maxDischarging: array<int>, surplus: int)
    returns (broke: bool, left: int)
    requires current.Length == maxDischarging.Length && current != maxDischarging
    modifies current
    ensures Outcome(current[..], left, broke) ==
            Pour(old(current[..]), DischargeLimits(old(current[..]), maxDischarging[..]), false, Up, surplus)
  {
    ghost var xs := current[..];
    ghost var limits := DischargeLimits(xs, maxDischarging[..]);
    broke, left := false, surplus;
    var k := 0;
    while k < current.Length
      invariant Progress(xs, limits, false, Up, surplus, k, current[..], left)
    {
      ghost var now, r := current[..], left;
      var i := At(current.Length, false, k);
      broke, left := RaiseChild(current, maxDischarging, i, left);
      assert now[i] == xs[i];
      ProgressVisit(xs, limits, false, Up, surplus, k, now, r, broke, current[..], left);
      if broke {
        return;
      }
      k := k + 1;
    }
    ProgressEnd(xs, limits, false, Up, surplus, current[..], left);
    broke := false;
  }

  /** The body of the current loops for a negative residual. */
  method LowerChild(current: array<int>, maxCharging: array<int>, i: nat, deficit: int)
    returns (broke: bool, left: int)
    requires i < current.Length == maxCharging.Length && current != maxCharging
    modifies current
    ensures forall limits: seq<int> ::
              |limits| == current.Length && limits[i] == (if old(current[i]) >= 0 then 0 else -maxCharging[i]) ==>
              Visit(Down(0), limits, i, old(current[..]), deficit, broke, current[..], left)
  {
    if current[i] >= 0 {
      if current[i] + deficit < 0 {
        left := deficit + current[i];
        current[i] := 0;
        broke := false;
      } else {
        current[i] := current[i] + deficit;
        broke, left := true, 0;
      }
    } else {
      if -(current[i] + deficit) > maxCharging[i] {
        left := deficit + (maxCharging[i] + current[i]);
        current[i] := -maxCharging[i];
        broke := false;
      } else {
        current[i] := current[i] + deficit;
        broke, left := true, 0;
      }
    }
  }

  /** The current loops for a negative residual: from the first child on in tranche, from the last one
      on in reservation. */
  method RemoveCurrent(current: array<int>, maxCharging: array<int>, deficit: int, forward: bool)
    returns (broke: bool, left: int)
    requires current.Length == maxCharging.Length && current != maxCharging
    modifies current
    ensures Outcome(current[..], left, broke) ==
            Pour(old(current[..]), ChargeLimits(old(current[..]), maxCharging[..]), forward, Down(0), deficit)
  {
    ghost var xs := current[..];
    ghost var limits := ChargeLimits(xs, maxCharging[..]);
    broke, left := false, deficit;
    var k := 0;
    while k < current.Length
      invariant Progress(xs, limits, forward, Down(0), deficit, k, current[..], left)
    {
      ghost var now, r := current[..], left;
      var i := At(current.Length, forward, k);
      broke, left := LowerChild(current, maxCharging, i, left);
      assert now[i] == xs[i];
      ProgressVisit(xs, limits, forward, Down(0), deficit, k, now, r, broke, current[..], left);
      if broke {
        return;
      }
      k := k + 1;
    }
    ProgressEnd(xs, limits, forward, Down(0), deficit, current[..], left);
    broke := false;
  }

  // ----- when the passes end inside the array, in terms of the source -----

  lemma {:induction false} SumOnes(n: nat)
    ensures Sum(Ones(n)) == n
  {
    if n != 0 {
      SumOnes(n - 1);
      assert Ones(n)[..n - 1] == Ones(n - 1);
    }
  }

  /** A deficit loop breaks if the source value is at least the number of children, less the slack; and
      if every child had at least 1 to begin with, only then. */
  lemma DeficitBreaksExactly(xs: seq<int>, deficit: int, slack: nat)
    requires |xs| >= 1
    ensures Sum(xs) + deficit >= |xs| - slack ==> Breaks(xs, Ones(|xs|), false, Down(slack), deficit)
    ensures (forall i :: 0 <= i < |xs| ==> xs[i] >= 1) && Breaks(xs, Ones(|xs|), false, Down(slack), deficit) ==>
              Sum(xs) + deficit >= |xs| - slack
  {
    SumOnes(|xs|);
    BreaksIfRoom(xs, Ones(|xs|), false, Down(slack), deficit);
  }

  /** A capacity surplus is placed if the source's capacity is at most the children's maximum
      together; and if no child was over its own maximum to begin with, only then. */
  lemma SurplusBreaksExactly(xs: seq<int>, maxima: seq<int>, surplus: int, forward: bool)
    requires |xs| == |maxima| >= 1
    ensures Sum(xs) + surplus <= Sum(maxima) ==> Breaks(xs, maxima, forward, Up, surplus)
    ensures (forall i :: 0 <= i < |xs| ==> xs[i] <= maxima[i]) && Breaks(xs, maxima, forward, Up, surplus) ==>
              Sum(xs) + surplus <= Sum(maxima)
  {
    BreaksIfRoom(xs, maxima, forward, Up, surplus);
  }

  /** A legal current, with limits that are not negative. */
  predicate Legal(x: int, maxDischarging: int, maxCharging: int)
  {
    -maxCharging <= x <= maxDischarging && 0 <= maxCharging && 0 <= maxDischarging
  }

  ghost predicate WithinRange(xs: seq<int>, maxDischarging: seq<int>, maxCharging: seq<int>)
  {
    && |xs| == |maxDischarging| == |maxCharging|
    && forall i :: 0 <= i < |xs| ==> Legal(xs[i], maxDischarging[i], maxCharging[i])
  }

  /** No child that was charging discharges, and the other way round. */
  ghost predicate SameDirection(xs: seq<int>, ys: seq<int>)
  {
    |xs| == |ys| && forall i :: 0 <= i < |xs| ==> if xs[i] >= 0 then ys[i] >= 0 else ys[i] <= 0
  }

  lemma LimitsHaveRoom(xs: seq<int>, maxDischarging: seq<int>, maxCharging: seq<int>)
    requires WithinRange(xs, maxDischarging, maxCharging)
    ensures HasRoom(xs, DischargeLimits(xs, maxDischarging), Up)
    ensures HasRoom(xs, ChargeLimits(xs, maxCharging), Down(0))
  {
    assert forall i :: 0 <= i < |xs| ==> Legal(xs[i], maxDischarging[i], maxCharging[i]);
  }

  /** The limits, the direction of the push and the visiting order of the current pass, from the sign of
      the residual. */
  function CurrentLimits(xs: seq<int>, maxDischarging: seq<int>, maxCharging: seq<int>, rest: int): (r: seq<int>)
    requires |xs| == |maxDischarging| == |maxCharging|
    ensures |r| == |xs|
  {
    if rest >= 0 then DischargeLimits(xs, maxDischarging) else ChargeLimits(xs, maxCharging)
  }

  function PushOf(rest: int): (push: Push)
  {
    if rest >= 0 then Up else Down(0)
  }

  /** Currents that stay between a legal current and its limit stay legal and keep their direction. */
  lemma BetweenIsSafe(xs: seq<int>, maxDischarging: seq<int>, maxCharging: seq<int>, rest: int, ys: seq<int>)
    requires WithinRange(xs, maxDischarging, maxCharging) && |ys| == |xs|
    requires var limits := CurrentLimits(xs, maxDischarging, maxCharging, rest);
             forall i :: 0 <= i < |xs| ==>
               if rest >= 0 then xs[i] <= ys[i] <= limits[i] else limits[i] <= ys[i] <= xs[i]
    ensures WithinRange(ys, maxDischarging, maxCharging) && SameDirection(xs, ys)
  {
    assert forall i :: 0 <= i < |xs| ==> Legal(xs[i], maxDischarging[i], maxCharging[i]);
  }

  /** A current pass keeps every child in its range and in its direction, whatever the residual and
      the visiting order. */
  lemma CurrentIsSafe(xs: seq<int>, maxDischarging: seq<int>, maxCharging: seq<int>, rest: int, forward: bool)
    requires WithinRange(xs, maxDischarging, maxCharging)
    ensures var limits := CurrentLimits(xs, maxDischarging, maxCharging, rest);
            var ys := Poured(xs, limits, forward, PushOf(rest), rest);
            WithinRange(ys, maxDischarging, maxCharging) && SameDirection(xs, ys)
  {
    var limits := CurrentLimits(xs, maxDischarging, maxCharging, rest);
    var ys := Poured(xs, limits, forward, PushOf(rest), rest);
    LimitsHaveRoom(xs, maxDischarging, maxCharging);
    forall i | 0 <= i < |xs|
      ensures if rest >= 0 then xs[i] <= ys[i] <= limits[i] else limits[i] <= ys[i] <= xs[i]
    {
      PourStaysBetween(xs, limits, forward, PushOf(rest), rest, i);
    }
    BetweenIsSafe(xs, maxDischarging, maxCharging, rest, ys);
  }

  /** From legal currents, the current pass breaks exactly if the residual is within the headroom. */
  lemma CurrentBreaksExactly(xs: seq<int>, maxDischarging: seq<int>, maxCharging: seq<int>,
                             limits: seq<int>, rest: int, forward: bool)
    requires WithinRange(xs, maxDischarging, maxCharging) && |xs| >= 1
    requires limits == CurrentLimits(xs, maxDischarging, maxCharging, rest)
    ensures Breaks(xs, limits, forward, PushOf(rest), rest) <==>
            if rest >= 0 then Sum(xs) + rest <= Sum(limits) else Sum(xs) + rest >= Sum(limits)
  {
    assert HasRoom(xs, limits, PushOf(rest)) by {
      LimitsHaveRoom(xs, maxDischarging, maxCharging);
    }
    BreaksWithRoom(xs, limits, forward, PushOf(rest), rest);
  }

  // ----- a whole refresh -----

  /** The passes of a refresh, from the children's own values `xs` and the source's value. A max field
      whose source value is too large gives the rest to one child: the first in a tranche, the last in
      a reservation. */
  function MaxPass(policy: Policy, xs: seq<int>, source: int): (o: Outcome)
    requires |xs| >= 1
    ensures |o.values| == |xs|
  {
    var rest := source - Sum(xs);
    var benefit := if policy.Tranche? then 0 else |xs| - 1;
    if rest >= 0 then Outcome(xs[benefit := xs[benefit] + rest], 0, true)
    else Pour(xs, Ones(|xs|), false, Down(1), rest)
  }

  /** Only a tranche takes current away from the first child on. */
  predicate LowersForward(policy: Policy, rest: int)
  {
    rest < 0 && policy.Tranche?
  }

  function CurrentPass(policy: Policy, xs: seq<int>, maxDischarging: seq<int>, maxCharging: seq<int>, rest: int)
    : (o: Outcome)
    requires |xs| == |maxDischarging| == |maxCharging|
    ensures |o.values| == |xs|
  {
    Pour(xs, CurrentLimits(xs, maxDischarging, maxCharging, rest), LowersForward(policy, rest), PushOf(rest), rest)
  }

  /** A surplus of charge fills children to their maximum, a deficit takes them down to 1. */
  function CapacityLimits(maxCapacity: seq<int>, rest: int): (r: seq<int>)
    ensures |r| == |maxCapacity|
  {
    if rest >= 0 then maxCapacity else Ones(|maxCapacity|)
  }

  /** Only a tranche fills from the first child on. */
  predicate FillsForward(policy: Policy, rest: int)
  {
    rest >= 0 && policy.Tranche?
  }

  function CapacityPass(policy: Policy, xs: seq<int>, maxCapacity: seq<int>, rest: int): (o: Outcome)
    requires |xs| == |maxCapacity|
    ensures |o.values| == |xs|
  {
    Pour(xs, CapacityLimits(maxCapacity, rest), FillsForward(policy, rest), PushOf(rest), rest)
  }

  ghost predicate WithinMaxima(xs: seq<int>, maxima: seq<int>)
  {
    |xs| == |maxima| && forall i :: 0 <= i < |xs| ==> xs[i] <= maxima[i]
  }

  ghost predicate AtLeastOne(maxima: seq<int>)
  {
    forall i :: 0 <= i < |maxima| ==> maxima[i] >= 1
  }

  /** The source value leaves a surplus over the children's own maxima, or at least 1 for all children but one. */
  predicate MaxFits(xs: seq<int>, source: int)
  {
    source >= Sum(xs) || source >= |xs| - 1
  }

  /** A max field adds up to the source's value if the loop breaks, and it breaks if that value fits; if every child had at
      least 1 to begin with, only then. */
  lemma MaxPassAddsUp(policy: Policy, xs: seq<int>, source: int)
    requires |xs| >= 1
    ensures MaxPass(policy, xs, source).broke ==> Sum(MaxPass(policy, xs, source).values) == source
    ensures MaxFits(xs, source) ==> MaxPass(policy, xs, source).broke
    ensures AtLeastOne(xs) && MaxPass(policy, xs, source).broke ==> MaxFits(xs, source)
  {
    var rest := source - Sum(xs);
    if rest >= 0 {
      var benefit := if policy.Tranche? then 0 else |xs| - 1;
      SumUpdate(xs, benefit, xs[benefit] + rest);
    } else {
      PourConserves(xs, Ones(|xs|), false, Down(1), rest);
      DeficitBreaksExactly(xs, rest, 1);
    }
  }

  /** No child is left with a negative maximum. */
  lemma MaxPassStaysNonNegative(policy: Policy, xs: seq<int>, source: int, i: nat)
    requires i < |xs| && MaxPass(policy, xs, source).broke && forall j :: 0 <= j < |xs| ==> xs[j] >= 0
    ensures MaxPass(policy, xs, source).values[i] >= 0
  {
    var rest := source - Sum(xs);
    if rest < 0 {
      var stop := StopAt(xs, Ones(|xs|), false, Down(1), rest, 0);
      if At(|xs|, false, i) == stop {
        assert Room(xs, Ones(|xs|), false, stop + 1) == Room(xs, Ones(|xs|), false, stop) + 1 - xs[i];
      }
    }
  }

  /** The source's current is on this side of the limit that the branches use in the direction of the residual. */
  predicate CurrentFits(xs: seq<int>, maxDischarging: seq<int>, maxCharging: seq<int>, source: int)
    requires |xs| == |maxDischarging| == |maxCharging|
  {
    if source >= Sum(xs) then source <= Sum(DischargeLimits(xs, maxDischarging))
    else Sum(ChargeLimits(xs, maxCharging)) <= source
  }

  /** The current pass loses nothing, and places everything if the source's current fits; from legal currents, only then. */
  lemma CurrentPassAddsUp(policy: Policy, xs: seq<int>, maxDischarging: seq<int>, maxCharging: seq<int>, rest: int)
    requires |xs| == |maxDischarging| == |maxCharging| >= 1
    ensures var o := CurrentPass(policy, xs, maxDischarging, maxCharging, rest);
            && Sum(o.values) + o.left == Sum(xs) + rest
            && (o.broke ==> o.left == 0)
            && (CurrentFits(xs, maxDischarging, maxCharging, Sum(xs) + rest) ==> o.broke)
            && (WithinRange(xs, maxDischarging, maxCharging) && o.broke ==>
                  CurrentFits(xs, maxDischarging, maxCharging, Sum(xs) + rest))
  {
    var limits := CurrentLimits(xs, maxDischarging, maxCharging, rest);
    PourConserves(xs, limits, LowersForward(policy, rest), PushOf(rest), rest);
    BreaksIfRoom(xs, limits, LowersForward(policy, rest), PushOf(rest), rest);
    if WithinRange(xs, maxDischarging, maxCharging) {
      CurrentBreaksExactly(xs, maxDischarging, maxCharging, limits, rest, LowersForward(policy, rest));
    }
  }

  /** A surplus of charge fits into `room`, a deficit leaves at least one unit per child. */
  predicate CapacityFits(xs: seq<int>, room: int, source: int)
  {
    if source >= Sum(xs) then source <= room else source >= |xs|
  }

  /** The capacity pass loses nothing, and places everything if the source's charge fits into the children's maxima
      together; from charges between 1 and the maximum, only then. */
  lemma CapacityPassAddsUp(policy: Policy, xs: seq<int>, maxCapacity: seq<int>, rest: int)
    requires |xs| == |maxCapacity| >= 1
    ensures var o := CapacityPass(policy, xs, maxCapacity, rest);
            && Sum(o.values) + o.left == Sum(xs) + rest
            && (o.broke ==> o.left == 0)
            && (CapacityFits(xs, Sum(maxCapacity), Sum(xs) + rest) ==> o.broke)
            && (AtLeastOne(xs) && WithinMaxima(xs, maxCapacity) && o.broke ==>
                  CapacityFits(xs, Sum(maxCapacity), Sum(xs) + rest))
  {
    var limits := CapacityLimits(maxCapacity, rest);
    PourConserves(xs, limits, FillsForward(policy, rest), PushOf(rest), rest);
    BreaksIfRoom(xs, limits, FillsForward(policy, rest), PushOf(rest), rest);
    SumOnes(|xs|);
  }

  /** What the children bring to a refresh: applied currents, estimated charges cut to whole numbers,
      original maxima. */
  datatype Own = Own(current: seq<int>, charge: seq<int>,
                     maxCapacity: seq<int>, maxCharging: seq<int>, maxDischarging: seq<int>)

  predicate Sized(own: Own, n: nat)
  {
    |own.current| == |own.charge| == |own.maxCapacity| == |own.maxCharging| == |own.maxDischarging| == n >= 1
  }

  /** Where a refresh takes the children. */
  datatype Shares = Shares(current: Outcome, capacity: Outcome,
                           maxCapacity: Outcome, maxCharging: Outcome, maxDischarging: Outcome)

  /** The maxima come first, the other passes work within them. */
  function Refreshed(policy: Policy, source: Status, own: Own, n: nat): (r: Shares)
    requires Sized(own, n)
  {
    var maxCapacity := MaxPass(policy, own.maxCapacity, source.maxCapacity);
    var maxCharging := MaxPass(policy, own.maxCharging, source.maxCharging);
    var maxDischarging := MaxPass(policy, own.maxDischarging, source.maxDischarging);
    Shares(CurrentPass(policy, own.current, maxDischarging.values, maxCharging.values, source.current - Sum(own.current)),
           CapacityPass(policy, own.charge, maxCapacity.values, source.capacity - Sum(own.charge)),
           maxCapacity, maxCharging, maxDischarging)
  }

  /** What a source has to offer for a refresh to place it all. */
  ghost predicate RefreshFits(policy: Policy, source: Status, own: Own, n: nat)
    requires Sized(own, n)
  {
    var r := Refreshed(policy, source, own, n);
    && MaxFits(own.maxCapacity, source.maxCapacity)
    && MaxFits(own.maxCharging, source.maxCharging)
    && MaxFits(own.maxDischarging, source.maxDischarging)
    && CapacityFits(own.charge, source.maxCapacity, source.capacity)
    && CurrentFits(own.current, r.maxDischarging.values, r.maxCharging.values, source.current)
  }

  predicate AllBroke(r: Shares)
  {
    r.current.broke && r.capacity.broke && r.maxCapacity.broke && r.maxCharging.broke && r.maxDischarging.broke
  }

  /** A whole refresh, for either policy: if each maximum of the source is at least what the children bring or 1 for all
      of them but one, if a surplus of charge is within the source's maximum and a deficit leaves 1 per child, and if its
      current is within the limit that the current pass uses, then every loop breaks, so none leaves the array, and
      every field of the children adds up to the source's. */
  lemma RefreshAddsUp(policy: Policy, source: Status, own: Own, n: nat)
    requires Sized(own, n) && RefreshFits(policy, source, own, n)
    ensures var r := Refreshed(policy, source, own, n);
            && AllBroke(r)
            && Sum(r.current.values) == source.current
            && Sum(r.capacity.values) == source.capacity
            && Sum(r.maxCapacity.values) == source.maxCapacity
            && Sum(r.maxCharging.values) == source.maxCharging
            && Sum(r.maxDischarging.values) == source.maxDischarging
  {
    RefreshPasses(policy, source, own, n);
  }

  /** A surplus of charge is placed whole whatever becomes of the other fields. */
  lemma RefreshPlacesSurplus(policy: Policy, source: Status, own: Own, n: nat)
    requires Sized(own, n) && Refreshed(policy, source, own, n).maxCapacity.broke
    requires Sum(own.charge) <= source.capacity <= source.maxCapacity
    ensures var o := Refreshed(policy, source, own, n).capacity;
            o.broke && o.left == 0 && Sum(o.values) == source.capacity
  {
    hide MaxPass, CurrentPass, CapacityPass, Sum, MaxFits;
    MaxPassAddsUp(policy, own.maxCapacity, source.maxCapacity);
    CapacityPassAddsUp(policy, own.charge, Refreshed(policy, source, own, n).maxCapacity.values,
                       source.capacity - Sum(own.charge));
  }

  /** From legal children, only then: with maxima and charges of at least 1, and currents and charges that are legal for the
      new maxima, the loops all break if and only if the source fits. */
  lemma RefreshBreaksExactly(policy: Policy, source: Status, own: Own, n: nat)
    requires Sized(own, n)
    requires AtLeastOne(own.maxCapacity) && AtLeastOne(own.maxCharging) && AtLeastOne(own.maxDischarging)
    requires var r := Refreshed(policy, source, own, n);
             && WithinRange(own.current, r.maxDischarging.values, r.maxCharging.values)
             && AtLeastOne(own.charge) && WithinMaxima(own.charge, r.maxCapacity.values)
    ensures AllBroke(Refreshed(policy, source, own, n)) <==> RefreshFits(policy, source, own, n)
  {
    RefreshPasses(policy, source, own, n);
  }

  /** What the passes of a refresh promise, together. */
  lemma RefreshPasses(policy: Policy, source: Status, own: Own, n: nat)
    requires Sized(own, n)
    ensures var r := Refreshed(policy, source, own, n);
            && (RefreshFits(policy, source, own, n) ==> AllBroke(r))
            && (AllBroke(r) ==>
                  && Sum(r.current.values) == source.current && Sum(r.capacity.values) == source.capacity
                  && Sum(r.maxCapacity.values) == source.maxCapacity
                  && Sum(r.maxCharging.values) == source.maxCharging
                  && Sum(r.maxDischarging.values) == source.maxDischarging)
            && (&& AllBroke(r)
                && AtLeastOne(own.maxCapacity) && AtLeastOne(own.maxCharging) && AtLeastOne(own.maxDischarging)
                && WithinRange(own.current, r.maxDischarging.values, r.maxCharging.values)
                && AtLeastOne(own.charge) && WithinMaxima(own.charge, r.maxCapacity.values) ==>
                  RefreshFits(policy, source, own, n))
  {
    hide MaxPass, CurrentPass, CapacityPass, AtLeastOne, WithinMaxima, WithinRange, MaxFits, CurrentFits, CapacityFits, Sum;
    var r := Refreshed(policy, source, own, n);
    MaxPassAddsUp(policy, own.maxCharging, source.maxCharging);
    MaxPassAddsUp(policy, own.maxDischarging, source.maxDischarging);
    MaxPassAddsUp(policy, own.maxCapacity, source.maxCapacity);
    CurrentPassAddsUp(policy, own.current, r.maxDischarging.values, r.maxCharging.values,
                      source.current - Sum(own.current));
    CapacityPassAddsUp(policy, own.charge, r.maxCapacity.values, source.capacity - Sum(own.charge));
  }

  /** A capacity pass leaves no child above its maximum, if none was above it before and, for a deficit, every maximum is
      at least 1. */
  lemma CapacityIsSafe(policy: Policy, xs: seq<int>, maxCapacity: seq<int>, rest: int)
    requires WithinMaxima(xs, maxCapacity) && (rest < 0 ==> AtLeastOne(maxCapacity))
    ensures WithinMaxima(CapacityPass(policy, xs, maxCapacity, rest).values, maxCapacity)
  {
    var limits, forward := CapacityLimits(maxCapacity, rest), FillsForward(policy, rest);
    forall i | 0 <= i < |xs| ensures Poured(xs, limits, forward, PushOf(rest), rest)[i] <= maxCapacity[i] {
      if rest >= 0 {
        PourStaysBetween(xs, limits, forward, Up, rest, i);
      } else {
        var stop := StopAt(xs, limits, forward, Down(0), rest, 0);
        assert stop > 0 ==> Overflows(Down(0), rest, Room(xs, limits, forward, stop));
      }
    }
  }

  /** A whole refresh, for either policy and any source: currents that are legal for the new maxima stay legal and keep
      their direction ... */
  lemma RefreshedCurrents(policy: Policy, source: Status, own: Own, n: nat)
    requires Sized(own, n)
    requires var r := Refreshed(policy, source, own, n);
             WithinRange(own.current, r.maxDischarging.values, r.maxCharging.values)
    ensures var r := Refreshed(policy, source, own, n);
            && WithinRange(r.current.values, r.maxDischarging.values, r.maxCharging.values)
            && SameDirection(own.current, r.current.values)
  {
    hide MaxPass, CurrentPass, CapacityPass, WithinRange, SameDirection, Sum;
    var r := Refreshed(policy, source, own, n);
    CurrentPassIsSafe(policy, own.current, r.maxDischarging.values, r.maxCharging.values,
                      source.current - Sum(own.current));
  }

  /** ... and charges within the new maxima stay within them. */
  lemma RefreshedCharges(policy: Policy, source: Status, own: Own, n: nat)
    requires Sized(own, n)
    requires var r := Refreshed(policy, source, own, n);
             WithinMaxima(own.charge, r.maxCapacity.values) && AtLeastOne(r.maxCapacity.values)
    ensures var r := Refreshed(policy, source, own, n);
            WithinMaxima(r.capacity.values, r.maxCapacity.values)
  {
    hide MaxPass, CurrentPass, CapacityPass, WithinMaxima, AtLeastOne, Sum;
    var r := Refreshed(policy, source, own, n);
    CapacityIsSafe(policy, own.charge, r.maxCapacity.values, source.capacity - Sum(own.charge));
  }

  lemma CurrentPassIsSafe(policy: Policy, xs: seq<int>, maxDischarging: seq<int>, maxCharging: seq<int>, rest: int)
    requires WithinRange(xs, maxDischarging, maxCharging)
    ensures var o := CurrentPass(policy, xs, maxDischarging, maxCharging, rest);
            WithinRange(o.values, maxDischarging, maxCharging) && SameDirection(xs, o.values)
  {
    CurrentIsSafe(xs, maxDischarging, maxCharging, rest, LowersForward(policy, rest));
  }

  // ----- who comes first -----

  /** Another way to bring the children to the same total without taking anything from anybody. */
  ghost predicate Raised(xs: seq<int>, ys: seq<int>, total: int)
  {
    |ys| == |xs| && (forall i :: 0 <= i < |xs| ==> xs[i] <= ys[i]) && Sum(ys) == total
  }

  /** Another way to bring the children to the same total without giving anything to anybody. */
  ghost predicate Lowered(xs: seq<int>, ys: seq<int>, total: int)
  {
    |ys| == |xs| && (forall i :: 0 <= i < |xs| ==> ys[i] <= xs[i]) && Sum(ys) == total
  }

  /** Any other split of a surplus of charge within the new maxima leaves the first children of a tranche, and the last
      ones of a reservation, with no more. */
  lemma SurplusOfChargeGoesTo(policy: Policy, source: Status, own: Own, n: nat, ys: seq<int>, k: nat)
    requires Sized(own, n) && k <= n && source.capacity >= Sum(own.charge)
    requires Raised(own.charge, ys, source.capacity)
    requires WithinMaxima(ys, Refreshed(policy, source, own, n).maxCapacity.values)
    ensures Visited(ys, policy.Tranche?, k) <=
              Visited(Refreshed(policy, source, own, n).capacity.values, policy.Tranche?, k)
  {
    hide MaxPass, Sum, Visited;
    PourIsGreedy(own.charge, Refreshed(policy, source, own, n).maxCapacity.values, policy.Tranche?, Up,
                 source.capacity - Sum(own.charge), ys, k);
  }

  /** A deficit of charge is taken from the last children, whatever the policy: any other split that leaves everybody at
      least 1 leaves them with no less. */
  lemma DeficitOfChargeHits(policy: Policy, source: Status, own: Own, n: nat, ys: seq<int>, k: nat)
    requires Sized(own, n) && k <= n && source.capacity < Sum(own.charge)
    requires Lowered(own.charge, ys, source.capacity) && AtLeastOne(ys)
    ensures Visited(Refreshed(policy, source, own, n).capacity.values, false, k) <= Visited(ys, false, k)
  {
    hide MaxPass, Sum, Visited;
    PourIsGreedy(own.charge, Ones(n), false, Down(0), source.capacity - Sum(own.charge), ys, k);
  }

  /** A surplus of current goes to the last children, whatever the policy: any other split that is legal for the new maxima
      and turns nobody around leaves them with no more. */
  lemma SurplusOfCurrentGoesTo(policy: Policy, source: Status, own: Own, n: nat, ys: seq<int>, k: nat)
    requires Sized(own, n) && k <= n && source.current >= Sum(own.current)
    requires Raised(own.current, ys, source.current) && SameDirection(own.current, ys)
    requires var r := Refreshed(policy, source, own, n);
             WithinRange(ys, r.maxDischarging.values, r.maxCharging.values)
    ensures Visited(ys, false, k) <= Visited(Refreshed(policy, source, own, n).current.values, false, k)
  {
    hide MaxPass, Sum, Visited;
    var r := Refreshed(policy, source, own, n);
    assert forall i :: 0 <= i < n ==> Legal(ys[i], r.maxDischarging.values[i], r.maxCharging.values[i]);
    PourIsGreedy(own.current, DischargeLimits(own.current, r.maxDischarging.values), false, Up,
                 source.current - Sum(own.current), ys, k);
  }

  /** A deficit of current is taken from the first children of a tranche and the last ones of a reservation. */
  lemma DeficitOfCurrentHits(policy: Policy, source: Status, own: Own, n: nat, ys: seq<int>, k: nat)
    requires Sized(own, n) && k <= n && source.current < Sum(own.current)
    requires Lowered(own.current, ys, source.current) && SameDirection(own.current, ys)
    requires var r := Refreshed(policy, source, own, n);
             WithinRange(ys, r.maxDischarging.values, r.maxCharging.values)
    ensures Visited(Refreshed(policy, source, own, n).current.values, policy.Tranche?, k) <=
              Visited(ys, policy.Tranche?, k)
  {
    hide MaxPass, Sum, Visited;
    var r := Refreshed(policy, source, own, n);
    assert forall i :: 0 <= i < n ==> Legal(ys[i], r.maxDischarging.values[i], r.maxCharging.values[i]);
    PourIsGreedy(own.current, ChargeLimits(own.current, r.maxCharging.values), policy.Tranche?, Down(0),
                 source.current - Sum(own.current), ys, k);
  }

  /** A surplus in a max field goes to one child, the first of a tranche or the last of a reservation, and everybody else
      keeps the own maximum; a deficit is taken from the last children, whatever the policy. */
  lemma MaxGoesTo(policy: Policy, xs: seq<int>, source: int, ys: seq<int>, k: nat)
    requires |xs| >= 1 && k <= |xs|
    ensures var values, one := MaxPass(policy, xs, source).values, if policy.Tranche? then 0 else |xs| - 1;
            && (source >= Sum(xs) ==>
                  && values[one] == xs[one] + source - Sum(xs)
                  && forall i :: 0 <= i < |xs| && i != one ==> values[i] == xs[i])
            && (source < Sum(xs) && Lowered(xs, ys, source) && AtLeastOne(ys) ==>
                  Visited(values, false, k) <= Visited(ys, false, k))
  {
    if source < Sum(xs) && Lowered(xs, ys, source) && AtLeastOne(ys) {
      hide Sum, Visited;
      PourIsGreedy(xs, Ones(|xs|), false, Down(1), source - Sum(xs), ys, k);
    }
  }

  /** The child that a policy favours when a maximum of the source grows. */
  ghost predicate OnlyOneGains(policy: Policy, xs: seq<int>, ys: seq<int>)
  {
    && |ys| == |xs| >= 1
    && forall i :: 0 <= i < |xs| && i != (if policy.Tranche? then 0 else |xs| - 1) ==> ys[i] == xs[i]
  }

  /** In a whole refresh a surplus in any of the maxima goes to that child alone. */
  lemma SurplusOfMaximaGoesTo(policy: Policy, source: Status, own: Own, n: nat)
    requires Sized(own, n)
    ensures var r := Refreshed(policy, source, own, n);
            && (source.maxCapacity >= Sum(own.maxCapacity) ==>
                  OnlyOneGains(policy, own.maxCapacity, r.maxCapacity.values))
            && (source.maxCharging >= Sum(own.maxCharging) ==>
                  OnlyOneGains(policy, own.maxCharging, r.maxCharging.values))
            && (source.maxDischarging >= Sum(own.maxDischarging) ==>
                  OnlyOneGains(policy, own.maxDischarging, r.maxDischarging.values))
  {
    hide MaxPass, CurrentPass, CapacityPass, Sum;
    MaxGoesTo(policy, own.maxCapacity, source.maxCapacity, [], 0);
    MaxGoesTo(policy, own.maxCharging, source.maxCharging, [], 0);
    MaxGoesTo(policy, own.maxDischarging, source.maxDischarging, [], 0);
  }

  /** Counting from the first or from the last child: those before the pivot are at their limit, those behind it where
      they were. */
  ghost predicate Pivoted(xs: seq<int>, limits: seq<int>, ys: seq<int>, fromFirst: bool, pivot: nat)
  {
    && |xs| == |limits| == |ys|
    && forall i :: 0 <= i < |xs| ==>
         var position := if fromFirst then i else |xs| - 1 - i;
         (position < pivot ==> ys[i] == limits[i]) && (position > pivot ==> ys[i] == xs[i])
  }

  lemma PouredPivoted(xs: seq<int>, limits: seq<int>, forward: bool, push: Push, r: int)
    requires |xs| == |limits|
    ensures exists pivot :: Pivoted(xs, limits, Poured(xs, limits, forward, push, r), forward, pivot)
  {
    assert Pivoted(xs, limits, Poured(xs, limits, forward, push, r), forward, StopAt(xs, limits, forward, push, r, 0));
  }

  /** There is a pivot in every field, whether or not the source fits. */
  lemma RefreshPivots(policy: Policy, source: Status, own: Own, n: nat)
    requires Sized(own, n)
    ensures var r, rest := Refreshed(policy, source, own, n), source.capacity - Sum(own.charge);
            if rest >= 0
            then exists k :: Pivoted(own.charge, r.maxCapacity.values, r.capacity.values, policy.Tranche?, k)
            else exists k :: Pivoted(own.charge, Ones(n), r.capacity.values, false, k)
    ensures var r, rest := Refreshed(policy, source, own, n), source.current - Sum(own.current);
            if rest >= 0
            then exists k :: Pivoted(own.current, DischargeLimits(own.current, r.maxDischarging.values),
                                     r.current.values, false, k)
            else exists k :: Pivoted(own.current, ChargeLimits(own.current, r.maxCharging.values),
                                     r.current.values, policy.Tranche?, k)
  {
    hide MaxPass, Sum, Poured;
    var r := Refreshed(policy, source, own, n);
    var charge, current := source.capacity - Sum(own.charge), source.current - Sum(own.current);
    PouredPivoted(own.charge, CapacityLimits(r.maxCapacity.values, charge), FillsForward(policy, charge),
                  PushOf(charge), charge);
    PouredPivoted(own.current, CurrentLimits(own.current, r.maxDischarging.values, r.maxCharging.values, current),
                  LowersForward(policy, current), PushOf(current), current);
  }

  /** A source with nothing: two children with maxima of 5 have 10 to give back, both end at 1, and the backward loop goes
      on past the front of the array. */
  lemma EmptySourceLeavesArray(policy: Policy, own: Own, source: Status)
    requires Sized(own, 2) && own.maxCapacity == [5, 5] && source.maxCapacity == 0
    ensures !Refreshed(policy, source, own, 2).maxCapacity.broke
    ensures Refreshed(policy, source, own, 2).maxCapacity.left == -2
  {
    var xs := own.maxCapacity;
    assert xs[..1] == [5] && [5][..0] == [];
    assert Sum([5]) == 5;
    assert Sum(xs) == 10;
    DeficitBreaksExactly(xs, -10, 1);
    PourConserves(xs, Ones(2), false, Down(1), -10);
    SumOnes(2);
    assert Poured(xs, Ones(2), false, Down(1), -10) == Ones(2);
  }

  // ----- the imperative form -----

  /** Start a field from the children's own values; what the source has beyond their sum remains. */
  method Load(field: array<int>, values: seq<int>, source: int) returns (residual: int)
    requires field.Length == |values|
    modifies field
    ensures field[..] == values && residual == source - Sum(values)
  {
    residual := source;
    for i := 0 to |values|
      invariant field[..i] == values[..i] && residual == source - Sum(values[..i])
    {
      assert values[..i + 1][..i] == values[..i];
      field[i] := values[i];
      residual := residual - field[i];
    }
    assert values[..|values|] == values && field[..|values|] == field[..];
  }

  /** `DISTRIBUTE_MAX_STATUS`: a surplus goes to one child, a deficit is taken from the last one on. */
  method DistributeMax(policy: Policy, field: array<int>, values: seq<int>, source: int)
    returns (broke: bool, left: int)
    requires field.Length == |values| >= 1
    modifies field
    ensures Outcome(field[..], left, broke) == MaxPass(policy, values, source)
  {
    hide Pour;
    var rest := Load(field, values, source);
    if rest >= 0 {
      var benefit := if policy.Tranche? then 0 else field.Length - 1;
      field[benefit] := field[benefit] + rest;
      broke, left := true, 0;
    } else {
      broke, left := TakeDeficit(field, rest, 1);
    }
  }

  method DistributeCurrent(policy: Policy, current: array<int>, maxDischarging: array<int>, maxCharging: array<int>,
                           values: seq<int>, source: int) returns (broke: bool, left: int)
    requires current.Length == maxDischarging.Length == maxCharging.Length == |values|
    requires current != maxDischarging && current != maxCharging
    modifies current
    ensures Outcome(current[..], left, broke) ==
            CurrentPass(policy, values, maxDischarging[..], maxCharging[..], source - Sum(values))
  {
    hide Pour;
    var rest := Load(current, values, source);
    if rest >= 0 {
      broke, left := AddCurrent(current, maxDischarging, rest);
    } else {
      broke, left := RemoveCurrent(current, maxCharging, rest, policy.Tranche?);
    }
  }

  method DistributeCapacity(policy: Policy, capacity: array<int>, maxCapacity: array<int>,
                            values: seq<int>, source: int) returns (broke: bool, left: int)
    requires capacity.Length == maxCapacity.Length == |values| && capacity != maxCapacity
    modifies capacity
    ensures Outcome(capacity[..], left, broke) ==
            CapacityPass(policy, values, maxCapacity[..], source - Sum(values))
  {
    hide Pour;
    var rest := Load(capacity, values, source);
    if rest >= 0 {
      broke, left := FillCapacity(capacity, maxCapacity, rest, policy.Tranche?);
    } else {
      broke, left := TakeDeficit(capacity, rest, 0);
    }
  }

  class Children {
    const current: array<int>
    const capacity: array<int>
    const maxCapacity: array<int>
    const maxCharging: array<int>
    const maxDischarging: array<int>

    ghost predicate Valid()
    {
      && current.Length == capacity.Length == maxCapacity.Length == maxCharging.Length == maxDischarging.Length >= 1
      && current != capacity && current != maxCapacity && current != maxCharging && current != maxDischarging
      && capacity != maxCapacity && capacity != maxCharging && capacity != maxDischarging
      && maxCapacity != maxCharging && maxCapacity != maxDischarging && maxCharging != maxDischarging
    }

    constructor (n: nat)
      requires n >= 1
      ensures Valid() && current.Length == n
      ensures fresh(current) && fresh(capacity) && fresh(maxCapacity) && fresh(maxCharging) && fresh(maxDischarging)
    {
      current, capacity, maxCapacity := new int[n], new int[n], new int[n];
      maxCharging, maxDischarging := new int[n], new int[n];
    }

    /** `refresh_tranche` and `refresh_reservation`. A backward loop that does not break leaves the
        array, and with it the defined behaviour: the method stops there and says so. */
    method Refresh(policy: Policy, source: Status, own: Own) returns (inside: bool)
      requires Valid() && Sized(own, current.Length)
      modifies current, capacity, maxCapacity, maxCharging, maxDischarging
      ensures var r := Refreshed(policy, source, own, current.Length);
              && (inside <==>
                    && r.maxCharging.broke && r.maxDischarging.broke && r.maxCapacity.broke
                    && (r.current.broke || (policy.Tranche? && source.current < Sum(own.current)))
                    && (r.capacity.broke || (policy.Tranche? && source.capacity >= Sum(own.charge))))
              && (inside ==>
                    && current[..] == r.current.values && capacity[..] == r.capacity.values
                    && maxCapacity[..] == r.maxCapacity.values && maxCharging[..] == r.maxCharging.values
                    && maxDischarging[..] == r.maxDischarging.values)
    {
      hide MaxPass, CurrentPass, CapacityPass;
      var left;
      inside, left := DistributeMax(policy, maxCharging, own.maxCharging, source.maxCharging);
      if !inside { return; }
      inside, left := DistributeMax(policy, maxDischarging, own.maxDischarging, source.maxDischarging);
      if !inside { return; }
      inside, left := DistributeMax(policy, maxCapacity, own.maxCapacity, source.maxCapacity);
      if !inside { return; }
      inside, left := DistributeCurrent(policy, current, maxDischarging, maxCharging, own.current, source.current);
      inside := inside || (source.current < Sum(own.current) && policy.Tranche?);
      if !inside { return; }
      inside, left := DistributeCapacity(policy, capacity, maxCapacity, own.charge, source.capacity);
      inside := inside || (source.capacity >= Sum(own.charge) && policy.Tranche?);
    }
  }
}
