/** The aggregate batteries of V2 (`AggregatorBattery`) and V3 (`AggregateBattery`).

    Both are about the same arithmetic: sources with an amount (charge to give, or headroom to fill)
    and a limit on the current; the aggregate must not be asked for more than it can share out in
    proportion to the amounts without breaking any source's limit.
 */
module Aggregation {
  import Sums
  import opened Reals

  // ----- proportional sharing -----

  function Total(xs: seq<real>): (r: real)
  {
    if xs == [] then 0.0 else Total(xs[..|xs| - 1]) + xs[|xs| - 1]
  }

  /** The longest time that any source needs at its own limit: the largest inverse C-rate. */
  function LongestTime(amounts: seq<real>, limits: seq<real>): (r: real)
    requires |amounts| == |limits| && forall i :: 0 <= i < |limits| ==> limits[i] > 0.0
    ensures r >= 0.0
  {
    if amounts == [] then 0.0
    else
      var k := |amounts| - 1;
      Max(LongestTime(amounts[..k], limits[..k]), amounts[k] / limits[k])
  }

  ghost predicate Sources(amounts: seq<real>, limits: seq<real>)
  {
    && |amounts| == |limits|
    && (forall i :: 0 <= i < |limits| ==> limits[i] > 0.0)
    && forall i :: 0 <= i < |amounts| ==> amounts[i] >= 0.0
  }

  lemma {:induction false} SumNonNegative(xs: seq<real>, i: nat)
    requires forall j :: 0 <= j < |xs| ==> xs[j] >= 0.0
    ensures Total(xs) >= 0.0
    ensures i < |xs| ==> xs[i] <= Total(xs)
  {
    if xs != [] {
      SumNonNegative(xs[..|xs| - 1], i);
    }
  }

  lemma {:induction false} LongestTimeBounds(amounts: seq<real>, limits: seq<real>, i: nat)
    requires Sources(amounts, limits) && i < |amounts|
    ensures amounts[i] / limits[i] <= LongestTime(amounts, limits)
  {
    var k := |amounts| - 1;
    if i < k {
      LongestTimeBounds(amounts[..k], limits[..k], i);
    }
  }

  lemma QuotientAtMost(a: real, t: real, l: real)
    requires t > 0.0 && l > 0.0 && a / l <= t
    ensures a / t <= l
  {
    assert a == (a / l) * l;
    assert a <= t * l;
    assert (t * l) / t == l;
    DivideBoth(a, t * l, t);
  }

  lemma DivideBoth(a: real, b: real, t: real)
    requires t > 0.0 && a <= b
    ensures a / t <= b / t
  {
  }

  /** A larger divisor gives a smaller share. */
  lemma DivideByMore(a: real, s: real, t: real)
    requires a >= 0.0 && 0.0 < s <= t
    ensures a / t <= a / s
  {
    assert (a / s) * t >= (a / s) * s;
    assert (a / s) * s == a;
    DivideBoth(a, (a / s) * t, t);
    assert ((a / s) * t) / t == a / s;
  }

  /** A request that takes at least the longest time keeps every source within its limit. */
  lemma SharesWithinLimits(amounts: seq<real>, limits: seq<real>, time: real, i: nat)
    requires Sources(amounts, limits) && i < |amounts| && time > 0.0
    requires LongestTime(amounts, limits) <= time
    ensures 0.0 <= amounts[i] / time <= limits[i]
  {
    LongestTimeBounds(amounts, limits, i);
    QuotientAtMost(amounts[i], time, limits[i]);
    DivideBoth(0.0, amounts[i], time);
  }

  // ----- V2: limits and dispatch in whole milliamperes -----

  const NEGLIGIBLE: real := 0.000001

  /** The aggregate's limit in one direction. */
  function Limit(total: real, time: real): (r: int)
  {
    if time < NEGLIGIBLE then 1 else Trunc(total / time)
  }

  /** How long the total lasts at the target current. */
  function TimeFor(total: real, target: int): (r: real)
    requires target > 0
    ensures total > 0.0 ==> r > 0.0
  {
    total / target as real
  }

  /** The whole milliamperes asked of each source when the total lasts for `time`. */
  function Parts(amounts: seq<real>, time: real): (r: seq<int>)
    requires time > 0.0
    ensures |r| == |amounts|
  {
    if amounts == [] then []
    else Parts(amounts[..|amounts| - 1], time) + [Trunc(amounts[|amounts| - 1] / time)]
  }

  lemma {:induction false} PartAt(amounts: seq<real>, time: real, i: nat)
    requires time > 0.0 && i < |amounts|
    ensures Parts(amounts, time)[i] == Trunc(amounts[i] / time)
  {
    if i < |amounts| - 1 {
      PartAt(amounts[..|amounts| - 1], time, i);
    }
  }

  /** An accepted request leaves at least the longest time, or asks for a single milliampere. */
  lemma AcceptedTime(amounts: seq<real>, limits: seq<real>, target: int)
    requires Sources(amounts, limits) && Total(amounts) > 0.0
    requires 0 < target <= Limit(Total(amounts), LongestTime(amounts, limits))
    ensures Total(amounts) / target as real > 0.0
    ensures target == 1 || LongestTime(amounts, limits) <= Total(amounts) / target as real
  {
    hide Total, LongestTime;
    TotalOverTime(Total(amounts), target as real);
    var longest := LongestTime(amounts, limits);
    if longest >= NEGLIGIBLE {
      LimitLeavesTime(Total(amounts), longest, target);
    }
  }

  lemma LimitLeavesTime(total: real, longest: real, target: int)
    requires total > 0.0 && longest > 0.0 && 0 < target <= Trunc(total / longest)
    ensures longest <= total / target as real
  {
    QuotientPositive(total, longest);
    TruncBelow(total / longest, total / longest);
    hide Trunc;
    var whole := target as real;
    assert total / longest >= whole;
    QuotientAtLeast(total, longest, whole);
  }

  lemma QuotientAtLeast(a: real, t: real, l: real)
    requires t > 0.0 && l > 0.0 && a / t >= l
    ensures t <= a / l
  {
    assert (a / t) * t == a;
    ProductOrder(l, a / t, t);
    DivideBoth(l * t, a, l);
    assert (l * t) / l == t;
  }

  lemma ProductOrder(a: real, b: real, t: real)
    requires a <= b && t >= 0.0
    ensures a * t <= b * t
  {
  }

  lemma TruncBelow(x: real, l: real)
    requires 0.0 <= x <= l
    ensures 0 <= Trunc(x) && Trunc(x) as real <= x && Trunc(x) as real <= l && x - 1.0 < Trunc(x) as real
  {
  }

  lemma ShareOfOne(a: real, total: real)
    requires 0.0 <= a <= total && total > 0.0
    ensures total / 1.0 == total && 0.0 <= a / total <= 1.0
  {
    DivideBoth(0.0, a, total);
    DivideBoth(a, total, total);
    assert total / total == 1.0;
  }

  /** Dispatch bound, source by source: a share is never negative and never above the source's limit. */
  lemma PartWithinLimit(amounts: seq<real>, limits: seq<real>, target: int, i: nat)
    requires Sources(amounts, limits) && Total(amounts) > 0.0 && i < |amounts|
    requires forall j :: 0 <= j < |limits| ==> limits[j] >= 1.0
    requires 0 < target <= Limit(Total(amounts), LongestTime(amounts, limits))
    ensures 0 <= Trunc(amounts[i] / (Total(amounts) / target as real))
    ensures Trunc(amounts[i] / (Total(amounts) / target as real)) as real <= limits[i]
  {
    hide Limit, LongestTime, Total, Trunc;
    AcceptedTime(amounts, limits, target);
    SumNonNegative(amounts, i);
    var time := Total(amounts) / target as real;
    if target == 1 {
      ShareOfOne(amounts[i], Total(amounts));
    } else {
      SharesWithinLimits(amounts, limits, time, i);
    }
    TruncBelow(amounts[i] / time, limits[i]);
  }

  lemma DivideSum(a: real, b: real, t: real)
    requires t > 0.0
    ensures (a + b) / t == a / t + b / t
  {
  }

  /** One more source: it gets its share less the fraction. */
  lemma OneMorePart(sum: real, a: real, time: real, whole: int, n: nat)
    requires time > 0.0 && a >= 0.0
    requires whole as real <= sum / time && (n >= 1 ==> whole as real > sum / time - n as real)
    requires n == 0 ==> sum == 0.0 && whole == 0
    ensures (whole + Trunc(a / time)) as real <= (sum + a) / time
    ensures (whole + Trunc(a / time)) as real > (sum + a) / time - (n + 1) as real
  {
    DivideSum(sum, a, time);
    DivideBoth(0.0, a, time);
    TruncBelow(a / time, a / time);
  }

  lemma {:induction false} PartsAddUp(amounts: seq<real>, time: real)
    requires time > 0.0 && forall i :: 0 <= i < |amounts| ==> amounts[i] >= 0.0
    ensures var whole := Sums.Sum(Parts(amounts, time)) as real;
            && whole <= Total(amounts) / time
            && (|amounts| >= 1 ==> whole > Total(amounts) / time - |amounts| as real)
  {
    hide Trunc;
    if amounts == [] {
      assert Total(amounts) / time == 0.0;
    } else {
      var k := |amounts| - 1;
      PartsAddUp(amounts[..k], time);
      assert Parts(amounts, time)[..k] == Parts(amounts[..k], time);
      OneMorePart(Total(amounts[..k]), amounts[k], time, Sums.Sum(Parts(amounts[..k], time)), k);
    }
  }

  lemma TotalOverTime(total: real, target: real)
    requires total > 0.0 && target > 0.0
    ensures total / target > 0.0 && total / (total / target) == target
  {
    DivideBoth(0.0, total, target);
    var time := total / target;
    assert time * target == total;
    assert (time * target) / time == target;
  }

  /** Dispatch bound, all together: rounding loses less than one milliampere per source. */
  lemma PartsNearTarget(amounts: seq<real>, limits: seq<real>, target: int)
    requires Sources(amounts, limits) && Total(amounts) > 0.0
    requires 0 < target <= Limit(Total(amounts), LongestTime(amounts, limits))
    ensures Total(amounts) / target as real > 0.0
    ensures target - |amounts| < Sums.Sum(Parts(amounts, Total(amounts) / target as real)) <= target
  {
    hide Limit, LongestTime, Parts, Sums.Sum;
    TotalOverTime(Total(amounts), target as real);
    PartsAddUp(amounts, Total(amounts) / target as real);
    assert amounts != [];
  }

  /** Both bounds at once. */
  lemma PartsAreSafe(amounts: seq<real>, limits: seq<real>, target: int)
    requires Sources(amounts, limits) && Total(amounts) > 0.0
    requires forall j :: 0 <= j < |limits| ==> limits[j] >= 1.0
    requires 0 < target <= Limit(Total(amounts), LongestTime(amounts, limits))
    ensures var time := Total(amounts) / target as real;
            time > 0.0 &&
            var parts := Parts(amounts, time);
            && (forall i :: 0 <= i < |parts| ==> 0 <= parts[i] && parts[i] as real <= limits[i])
            && target - |amounts| < Sums.Sum(parts) <= target
  {
    hide Limit, LongestTime, Total, Trunc, Sums.Sum;
    PartsNearTarget(amounts, limits, target);
    var parts := Parts(amounts, Total(amounts) / target as real);
    forall i | 0 <= i < |parts| ensures 0 <= parts[i] && parts[i] as real <= limits[i] {
      PartWithinLimit(amounts, limits, target, i);
      PartAt(amounts, Total(amounts) / target as real, i);
    }
  }

  /** The same for a total and a longest time that were added up elsewhere, and limits that are whole numbers. */
  lemma SharesAreSafe(amounts: seq<real>, limits: seq<real>, caps: seq<int>, total: real, longest: real, target: int)
    requires Sources(amounts, limits) && total == Total(amounts) > 0.0 && longest == LongestTime(amounts, limits)
    requires |caps| == |limits| && forall j :: 0 <= j < |limits| ==> limits[j] == caps[j] as real && caps[j] >= 1
    requires 0 < target <= Limit(total, longest)
    ensures WithinCaps(Parts(amounts, TimeFor(total, target)), caps, target)
  {
    PartsAreSafe(amounts, limits, target);
    var time := TimeFor(total, target);
    assert time == Total(amounts) / target as real;
    hide *;
    var parts := Parts(amounts, time);
    AreWithinCaps(parts, limits, caps, target);
  }

  /** Shares that are not negative and within the limits, and lose less than one milliampere each. */
  predicate WithinCaps(parts: seq<int>, caps: seq<int>, target: int)
  {
    && |parts| == |caps|
    && (forall i :: 0 <= i < |parts| ==> 0 <= parts[i] <= caps[i])
    && target - |parts| < Sums.Sum(parts) <= target
  }

  lemma AreWithinCaps(parts: seq<int>, limits: seq<real>, caps: seq<int>, target: int)
    requires |parts| == |caps| == |limits| && forall j :: 0 <= j < |limits| ==> limits[j] == caps[j] as real
    requires forall i :: 0 <= i < |parts| ==> 0 <= parts[i] && parts[i] as real <= limits[i]
    requires target - |parts| < Sums.Sum(parts) <= target
    ensures WithinCaps(parts, caps, target)
  {
  }

  // ----- V2: nothing less would do -----

  lemma {:induction false} LongestTimeLeast(amounts: seq<real>, limits: seq<real>, time: real)
    requires Sources(amounts, limits) && time >= 0.0
    requires forall i :: 0 <= i < |amounts| ==> amounts[i] / limits[i] <= time
    ensures LongestTime(amounts, limits) <= time
  {
    if amounts != [] {
      var k := |amounts| - 1;
      LongestTimeLeast(amounts[..k], limits[..k], time);
    }
  }

  /** The reported limit is the greatest whole number of milliamperes that leaves the longest time. */
  lemma LimitIsGreatest(total: real, longest: real, target: int)
    requires total > 0.0 && longest >= NEGLIGIBLE && target > 0
    ensures target <= Limit(total, longest) <==> longest <= total / target as real
  {
    QuotientPositive(total, longest);
    TruncBelow(total / longest, total / longest);
    if target <= Limit(total, longest) {
      LimitLeavesTime(total, longest, target);
    }
    if longest <= total / target as real {
      QuotientAtLeast(total, target as real, longest);
    }
  }

  /** A source's share of the target, in proportion to its amount, is within its limit. */
  predicate ShareFits(amount: real, limit: real, total: real, target: real)
  {
    amount * target <= total * limit
  }

  ghost predicate SharesFit(amounts: seq<real>, limits: seq<real>, target: real)
  {
    |amounts| == |limits| && forall i :: 0 <= i < |amounts| ==> ShareFits(amounts[i], limits[i], Total(amounts), target)
  }

  /** It is if and only if the total lasts for at least the source's own time. */
  lemma TimeIsShare(amount: real, limit: real, total: real, target: real)
    requires limit > 0.0 && target > 0.0
    ensures amount / limit <= total / target <==> ShareFits(amount, limit, total, target)
  {
    var x, y := amount / limit, total / target;
    assert x * limit == amount && y * target == total;
    assert amount * target == x * (limit * target) && total * limit == y * (limit * target);
    if x <= y {
      ProductOrder(x, y, limit * target);
    } else {
      assert (x - y) * (limit * target) > 0.0;
    }
  }

  /** So the limit is as large as the sources allow: a target is within it if and only if no source's share of the target is
      above the source's own limit. */
  lemma LimitExactly(amounts: seq<real>, limits: seq<real>, target: int)
    requires Sources(amounts, limits) && Total(amounts) > 0.0 && target > 0
    requires LongestTime(amounts, limits) >= NEGLIGIBLE
    ensures target <= Limit(Total(amounts), LongestTime(amounts, limits)) <==>
            SharesFit(amounts, limits, target as real)
  {
    hide Total, LongestTime, Limit, ShareFits;
    var total, time := Total(amounts), Total(amounts) / target as real;
    LimitIsGreatest(total, LongestTime(amounts, limits), target);
    DivideBoth(0.0, total, target as real);
    forall i | 0 <= i < |amounts|
      ensures amounts[i] / limits[i] <= time <==>
              ShareFits(amounts[i], limits[i], total, target as real)
      ensures amounts[i] / limits[i] <= LongestTime(amounts, limits)
    {
      TimeIsShare(amounts[i], limits[i], total, target as real);
      LongestTimeBounds(amounts, limits, i);
    }
    if SharesFit(amounts, limits, target as real) {
      LongestTimeLeast(amounts, limits, time);
    }
  }

  /** An amount's share of the target. */
  function Share(amount: real, total: real, target: int): (r: real)
    requires total > 0.0
  {
    amount * target as real / total
  }

  /** A part is its amount's share of the target, cut to a whole number. */
  predicate IsShare(part: int, amount: real, total: real, target: int)
  {
    total > 0.0 && part as real <= Share(amount, total, target) < part as real + 1.0
  }

  lemma ShareIs(amount: real, total: real, target: int)
    requires total > 0.0 && target > 0 && amount >= 0.0
    ensures TimeFor(total, target) > 0.0
    ensures amount / TimeFor(total, target) == Share(amount, total, target) >= 0.0
  {
    var t := target as real;
    TotalOverTime(total, t);
    var time := total / t;
    var q := amount / time;
    assert q * time == amount && time * t == total;
    assert amount * t == q * total;
    assert q * total / total == q;
    DivideBoth(0.0, amount, time);
  }

  lemma CutIsShare(amount: real, total: real, target: int)
    requires total > 0.0 && target > 0 && amount >= 0.0
    ensures TimeFor(total, target) > 0.0 && IsShare(Trunc(amount / TimeFor(total, target)), amount, total, target)
  {
    hide Trunc, Share, TimeFor;
    ShareIs(amount, total, target);
    TruncBelow(Share(amount, total, target), Share(amount, total, target));
  }

  lemma PartsInProportion(amounts: seq<real>, total: real, target: int)
    requires total > 0.0 && target > 0 && forall i :: 0 <= i < |amounts| ==> amounts[i] >= 0.0
    ensures var parts := Parts(amounts, TimeFor(total, target));
            forall i :: 0 <= i < |amounts| ==> IsShare(parts[i], amounts[i], total, target)
  {
    hide IsShare, Trunc, Parts, TimeFor;
    var time := TimeFor(total, target);
    forall i | 0 <= i < |amounts| ensures IsShare(Parts(amounts, time)[i], amounts[i], total, target) {
      PartAt(amounts, time, i);
      CutIsShare(amounts[i], total, target);
    }
  }

  // ----- V3: C-rates -----

  function CRate(current: real, capacity: real): (r: real)
  {
    if capacity == 0.0 then 0.0 else current / capacity
  }

  /** The smallest C-rate over the sources. */
  function EffectiveRate(amounts: seq<real>, limits: seq<real>): (r: real)
    requires |amounts| == |limits| >= 1
  {
    var k := |amounts| - 1;
    if k == 0 then CRate(limits[0], amounts[0])
    else Min(EffectiveRate(amounts[..k], limits[..k]), CRate(limits[k], amounts[k]))
  }

  /** V3 reports the sum of the amounts times the effective rate. */
  function Rated(amounts: seq<real>, rate: real): (r: seq<real>)
    ensures |r| == |amounts| && forall i :: 0 <= i < |r| ==> r[i] == amounts[i] * rate
  {
    if amounts == [] then []
    else Rated(amounts[..|amounts| - 1], rate) + [amounts[|amounts| - 1] * rate]
  }

  lemma Distribute(a: real, b: real, rate: real)
    ensures (a + b) * rate == a * rate + b * rate
  {
  }

  lemma {:induction false} RatedAddUp(amounts: seq<real>, rate: real)
    ensures Total(Rated(amounts, rate)) == Total(amounts) * rate
  {
    if amounts != [] {
      var k := |amounts| - 1;
      RatedAddUp(amounts[..k], rate);
      assert Rated(amounts, rate)[..k] == Rated(amounts[..k], rate);
      Distribute(Total(amounts[..k]), amounts[k], rate);
    }
  }

  lemma {:induction false} EffectiveRateBounds(amounts: seq<real>, limits: seq<real>, i: nat)
    requires Sources(amounts, limits) && i < |amounts|
    ensures 0.0 <= EffectiveRate(amounts, limits) <= CRate(limits[i], amounts[i])
    decreases |amounts|
  {
    var k := |amounts| - 1;
    RateNonNegative(limits[k], amounts[k]);
    RateNonNegative(limits[0], amounts[0]);
    if k > 0 {
      EffectiveRateBounds(amounts[..k], limits[..k], if i < k then i else 0);
    }
  }

  lemma RateNonNegative(limit: real, amount: real)
    requires limit > 0.0 && amount >= 0.0
    ensures CRate(limit, amount) >= 0.0
  {
    if amount > 0.0 {
      DivideBoth(0.0, limit, amount);
    }
  }

  /** V3 dispatch on the discharging side: every accepted current is shared out exactly, and every share
      is within the source's own limit. */
  lemma RatedWithinLimits(amounts: seq<real>, limits: seq<real>, current: real, i: nat)
    requires Sources(amounts, limits) && i < |amounts|
    requires 0.0 <= current <= Total(Rated(amounts, EffectiveRate(amounts, limits)))
    ensures var shares := Rated(amounts, CRate(current, Total(amounts)));
            && 0.0 <= shares[i] <= limits[i]
            && shares[i] * Total(amounts) == amounts[i] * current
            && Total(shares) == current
  {
    hide Total, EffectiveRate, Rated, CRate;
    var total, effective := Total(amounts), EffectiveRate(amounts, limits);
    SumNonNegative(amounts, i);
    EffectiveRateBounds(amounts, limits, i);
    RatedAddUp(amounts, effective);
    RatedAddUp(amounts, CRate(current, total));
    RateAtMost(current, total, effective);
    RateTimesAmount(amounts[i], limits[i], CRate(current, total));
    Reordered(amounts[i], CRate(current, total), total);
  }

  lemma Reordered(a: real, b: real, c: real)
    ensures a * b * c == a * (c * b)
  {
  }

  lemma {:induction false} EffectiveRateGreatest(amounts: seq<real>, limits: seq<real>, rate: real)
    requires |amounts| == |limits| >= 1
    requires forall i :: 0 <= i < |amounts| ==> rate <= CRate(limits[i], amounts[i])
    ensures rate <= EffectiveRate(amounts, limits)
    decreases |amounts|
  {
    hide CRate;
    var k := |amounts| - 1;
    if k > 0 {
      EffectiveRateGreatest(amounts[..k], limits[..k], rate);
    }
  }

  lemma RateIsShare(amount: real, limit: real, total: real, current: real)
    requires amount > 0.0 && total > 0.0
    ensures CRate(current, total) <= CRate(limit, amount) <==> ShareFits(amount, limit, total, current)
  {
    var x, y := current / total, limit / amount;
    assert x * total == current && y * amount == limit;
    assert amount * current == x * (amount * total) && total * limit == y * (amount * total);
    if x <= y {
      ProductOrder(x, y, amount * total);
    } else {
      assert (x - y) * (amount * total) > 0.0;
    }
  }

  lemma RateTimesTotal(current: real, total: real, rate: real)
    requires total > 0.0
    ensures current <= total * rate <==> CRate(current, total) <= rate
  {
    var x := current / total;
    assert x * total == current;
    if x <= rate {
      ProductOrder(x, rate, total);
    } else {
      assert (x - rate) * total > 0.0;
    }
  }

  /** V3's limit is as large as the sources allow, too, if none of them is empty. */
  lemma RatedExactly(amounts: seq<real>, limits: seq<real>, current: real)
    requires Sources(amounts, limits) && |amounts| >= 1 && forall i :: 0 <= i < |amounts| ==> amounts[i] > 0.0
    ensures current <= Total(Rated(amounts, EffectiveRate(amounts, limits))) <==> SharesFit(amounts, limits, current)
  {
    hide Total, EffectiveRate, Rated, CRate, ShareFits;
    var total, rate := Total(amounts), EffectiveRate(amounts, limits);
    SumNonNegative(amounts, 0);
    RatedAddUp(amounts, rate);
    RateTimesTotal(current, total, rate);
    forall i | 0 <= i < |amounts|
      ensures CRate(current, total) <= CRate(limits[i], amounts[i]) <==>
              ShareFits(amounts[i], limits[i], total, current)
      ensures rate <= CRate(limits[i], amounts[i])
    {
      RateIsShare(amounts[i], limits[i], total, current);
      EffectiveRateBounds(amounts, limits, i);
    }
    if SharesFit(amounts, limits, current) {
      EffectiveRateGreatest(amounts, limits, CRate(current, total));
    }
  }

  lemma RateAtMost(current: real, total: real, rate: real)
    requires 0.0 <= current <= total * rate && total >= 0.0 && rate >= 0.0
    ensures 0.0 <= CRate(current, total) <= rate && total * CRate(current, total) == current
  {
    if total > 0.0 {
      DivideBoth(current, total * rate, total);
      assert (total * rate) / total == rate;
      DivideBoth(0.0, current, total);
    }
  }

  lemma RateTimesAmount(amount: real, limit: real, rate: real)
    requires amount >= 0.0 && limit > 0.0 && 0.0 <= rate <= CRate(limit, amount)
    ensures 0.0 <= amount * rate <= limit
  {
    if amount > 0.0 {
      assert amount * rate <= amount * (limit / amount);
      assert amount * (limit / amount) == limit;
    }
  }

  /** The charging branch of V3 divides by the charge instead of the headroom and changes the sign: no
      accepted charging request is ever shared out as asked, and no source is asked to charge. */
  lemma ChargingNeverAddsUp(headrooms: seq<real>, capacity: real, current: real)
    requires capacity >= 0.0 && current < 0.0 && forall i :: 0 <= i < |headrooms| ==> headrooms[i] >= 0.0
    ensures var shares := Rated(headrooms, -CRate(current, capacity));
            && (forall i :: 0 <= i < |shares| ==> shares[i] >= 0.0)
            && Total(shares) != current
  {
    var rate := -CRate(current, capacity);
    if capacity > 0.0 {
      DivideBoth(current, 0.0, capacity);
    }
    assert rate >= 0.0;
    hide CRate, Total;
    var shares := Rated(headrooms, rate);
    forall i | 0 <= i < |shares| ensures shares[i] >= 0.0 {
      ProductOrder(0.0, headrooms[i], rate);
    }
    SumNonNegative(shares, 0);
  }

  /** The smallest rate is the inverse of the longest time. */
  lemma {:induction false} RateIsInverseTime(amounts: seq<real>, limits: seq<real>)
    requires Sources(amounts, limits) && |amounts| >= 1 && forall i :: 0 <= i < |amounts| ==> amounts[i] > 0.0
    ensures LongestTime(amounts, limits) > 0.0
    ensures 1.0 / LongestTime(amounts, limits) == EffectiveRate(amounts, limits)
    decreases |amounts|
  {
    var k := |amounts| - 1;
    QuotientPositive(amounts[k], limits[k]);
    if k == 0 {
      assert LongestTime(amounts[..k], limits[..k]) == 0.0;
    } else {
      RateIsInverseTime(amounts[..k], limits[..k]);
      ReciprocalOrder(LongestTime(amounts[..k], limits[..k]), amounts[k] / limits[k]);
    }
  }

  lemma {:induction false} SomePositive(amounts: seq<real>) returns (i: nat)
    requires Total(amounts) > 0.0
    ensures i < |amounts| && amounts[i] > 0.0
  {
    var k := |amounts| - 1;
    if amounts[k] > 0.0 {
      i := k;
    } else {
      i := SomePositive(amounts[..k]);
    }
  }

  /** An empty source stops V3's aggregate altogether. */
  lemma EmptySourceStops(amounts: seq<real>, limits: seq<real>, i: nat)
    requires Sources(amounts, limits) && i < |amounts| && amounts[i] == 0.0
    ensures Total(Rated(amounts, EffectiveRate(amounts, limits))) == 0.0
  {
    hide Total, Rated, EffectiveRate;
    EffectiveRateBounds(amounts, limits, i);
    assert CRate(limits[i], amounts[i]) == 0.0;
    RatedAddUp(amounts, 0.0);
  }

  lemma LongestTimePositive(amounts: seq<real>, limits: seq<real>)
    requires Sources(amounts, limits) && Total(amounts) > 0.0
    ensures |amounts| >= 1 && LongestTime(amounts, limits) > 0.0
  {
    var i := SomePositive(amounts);
    QuotientPositive(amounts[i], limits[i]);
    LongestTimeBounds(amounts, limits, i);
  }

  /** The two versions agree before rounding, the total over the longest time being the total times the smallest rate, if
      and only if no amount is zero. */
  lemma FormulasAgree(amounts: seq<real>, limits: seq<real>)
    requires Sources(amounts, limits) && Total(amounts) > 0.0
    ensures LongestTime(amounts, limits) > 0.0
    ensures Total(amounts) / LongestTime(amounts, limits) == Total(Rated(amounts, EffectiveRate(amounts, limits)))
            <==> forall i :: 0 <= i < |amounts| ==> amounts[i] > 0.0
  {
    hide Total, LongestTime, EffectiveRate, Rated;
    LongestTimePositive(amounts, limits);
    var total, longest := Total(amounts), LongestTime(amounts, limits);
    if forall i :: 0 <= i < |amounts| ==> amounts[i] > 0.0 {
      RateIsInverseTime(amounts, limits);
      RatedAddUp(amounts, EffectiveRate(amounts, limits));
      TimesInverse(total, longest);
    } else {
      var i :| 0 <= i < |amounts| && amounts[i] <= 0.0;
      EmptySourceStops(amounts, limits, i);
      QuotientPositive(total, longest);
    }
  }

  lemma TimesInverse(a: real, t: real)
    requires t > 0.0
    ensures a * (1.0 / t) == a / t
  {
  }

  lemma QuotientPositive(a: real, l: real)
    requires a > 0.0 && l > 0.0
    ensures a / l > 0.0 && 1.0 / (a / l) == l / a
  {
    assert (a / l) * l == a;
    assert (l / a) * (a / l) == 1.0;
  }

  lemma ReciprocalOrder(s: real, t: real)
    requires s > 0.0 && t > 0.0
    ensures 1.0 / Max(s, t) == Min(1.0 / s, 1.0 / t)
  {
    if s < t {
      DivideByMore(1.0, s, t);
      assert 1.0 / t != 1.0 / s by { assert (1.0 / t) * t == 1.0 && (1.0 / s) * s == 1.0; }
    } else {
      DivideByMore(1.0, t, s);
    }
  }
}

/** `AggregatorBattery` of V2: the threaded refresh and the dispatch of a request to the sources. */
module AggregatorV2 {
  import Sums
  import opened Reals
  import opened Aggregation

  datatype Status = Status(capacity: int, maxCapacity: int, current: int, maxCharging: int, maxDischarging: int)

  /** The charge that still fits, as a real number. */
  function Room(maxCapacity: int, capacity: int): (r: real)
  {
    maxCapacity as real - capacity as real
  }

  /** What the worker threads accumulate under the mutex. */
  datatype Acc = Acc(maxCapacity: int, capacity: int, current: int, dischargeTime: real, chargeTime: real)

  predicate Usable(s: Status)
  {
    s.maxDischarging > 0 && s.maxCharging > 0
  }

  predicate AllUsable(sources: seq<Status>)
  {
    forall i :: 0 <= i < |sources| ==> Usable(sources[i])
  }

  /** The locked region of one worker. */
  function Next(acc: Acc, s: Status): (r: Acc)
    requires Usable(s)
  {
    Acc(acc.maxCapacity + s.maxCapacity, acc.capacity + s.capacity, acc.current + s.current,
        Max(acc.dischargeTime, s.capacity as real / s.maxDischarging as real),
        Max(acc.chargeTime, Room(s.maxCapacity, s.capacity) / s.maxCharging as real))
  }

  function Fold(sources: seq<Status>): (r: Acc)
    requires AllUsable(sources)
  {
    if sources == [] then Acc(0, 0, 0, 0.0, 0.0)
    else Next(Fold(sources[..|sources| - 1]), sources[|sources| - 1])
  }

  // ----- the order of the threads does not matter -----

  lemma NextCommutes(acc: Acc, s: Status, t: Status)
    requires Usable(s) && Usable(t)
    ensures Next(Next(acc, s), t) == Next(Next(acc, t), s)
  {
  }

  function Remove(sources: seq<Status>, i: nat): (r: seq<Status>)
    requires i < |sources|
  {
    sources[..i] + sources[i + 1..]
  }

  /** Any worker might as well have been the last one. */
  lemma {:induction false} AnyIsLast(sources: seq<Status>, i: nat)
    requires AllUsable(sources) && i < |sources|
    ensures AllUsable(Remove(sources, i))
    ensures Fold(sources) == Next(Fold(Remove(sources, i)), sources[i])
    decreases |sources|
  {
    hide Next, Usable;
    var k := |sources| - 1;
    var rest := Remove(sources, i);
    if i == k {
      assert rest == sources[..k];
    } else {
      AnyIsLast(sources[..k], i);
      assert rest[..k - 1] == Remove(sources[..k], i);
      NextCommutes(Fold(Remove(sources[..k], i)), sources[i], sources[k]);
    }
  }

  lemma RemoveOne(sources: seq<Status>, i: nat)
    requires i < |sources|
    ensures multiset(Remove(sources, i)) == multiset(sources) - multiset{sources[i]}
  {
    assert sources == sources[..i] + [sources[i]] + sources[i + 1..];
  }

  /** Where the last of the sources runs in the other order. */
  lemma Matching(sources: seq<Status>, order: seq<Status>) returns (i: nat)
    requires sources != [] && multiset(sources) == multiset(order)
    ensures i < |order| && order[i] == sources[|sources| - 1]
    ensures multiset(sources[..|sources| - 1]) == multiset(Remove(order, i))
  {
    var k := |sources| - 1;
    assert Remove(sources, k) == sources[..k];
    RemoveOne(sources, k);
    assert sources[k] in multiset(sources);
    assert sources[k] in multiset(order);
    i :| 0 <= i < |order| && order[i] == sources[k];
    RemoveOne(order, i);
  }

  /** Whatever order the workers take the mutex in, the result is that of the sequential loop. */
  lemma {:induction false} OrderDoesNotMatter(sources: seq<Status>, order: seq<Status>)
    requires AllUsable(sources) && AllUsable(order) && multiset(sources) == multiset(order)
    ensures Fold(sources) == Fold(order)
    decreases |sources|
  {
    hide Next, Usable, Remove;
    if sources == [] {
      assert |multiset(order)| == 0;
    } else {
      var i := Matching(sources, order);
      AnyIsLast(order, i);
      OrderDoesNotMatter(sources[..|sources| - 1], Remove(order, i));
    }
  }

  /** The workers, scheduled arbitrarily: some worker that has not run yet takes the mutex next. */
  method Collect(sources: seq<Status>) returns (acc: Acc)
    requires AllUsable(sources)
    ensures acc == Fold(sources)
  {
    acc := Acc(0, 0, 0, 0.0, 0.0);
    var waiting := multiset(sources);
    ghost var order := [];
    while waiting != multiset{}
      invariant multiset(order) + waiting == multiset(sources)
      invariant AllUsable(order) && acc == Fold(order)
      decreases |waiting|
    {
      var s :| s in waiting;
      assert s in multiset(sources);
      assert Usable(s);
      assert (order + [s])[..|order|] == order;
      acc := Next(acc, s);
      waiting := waiting - multiset{s};
      order := order + [s];
    }
    OrderDoesNotMatter(sources, order);
  }

  // ----- the sources, seen from either direction -----

  function Charges(sources: seq<Status>): (r: seq<real>)
    ensures |r| == |sources| && forall i :: 0 <= i < |r| ==> r[i] == sources[i].capacity as real
  {
    if sources == [] then []
    else Charges(sources[..|sources| - 1]) + [sources[|sources| - 1].capacity as real]
  }

  function Headrooms(sources: seq<Status>): (r: seq<real>)
    ensures |r| == |sources|
    ensures forall i :: 0 <= i < |r| ==> r[i] == Room(sources[i].maxCapacity, sources[i].capacity)
  {
    if sources == [] then []
    else
      var last := sources[|sources| - 1];
      Headrooms(sources[..|sources| - 1]) + [Room(last.maxCapacity, last.capacity)]
  }

  function DischargeLimits(sources: seq<Status>): (r: seq<real>)
    ensures |r| == |sources| && forall i :: 0 <= i < |r| ==> r[i] == sources[i].maxDischarging as real
  {
    if sources == [] then []
    else DischargeLimits(sources[..|sources| - 1]) + [sources[|sources| - 1].maxDischarging as real]
  }

  function ChargeLimits(sources: seq<Status>): (r: seq<real>)
    ensures |r| == |sources| && forall i :: 0 <= i < |r| ==> r[i] == sources[i].maxCharging as real
  {
    if sources == [] then []
    else ChargeLimits(sources[..|sources| - 1]) + [sources[|sources| - 1].maxCharging as real]
  }

  function Currents(sources: seq<Status>): (r: seq<int>)
    ensures |r| == |sources| && forall i :: 0 <= i < |r| ==> r[i] == sources[i].current
  {
    if sources == [] then []
    else Currents(sources[..|sources| - 1]) + [sources[|sources| - 1].current]
  }

  /** The accumulated values are the totals and the longest times. */
  lemma {:induction false} FoldIs(sources: seq<Status>)
    requires AllUsable(sources)
    ensures Fold(sources).current == Sums.Sum(Currents(sources))
    ensures Fold(sources).capacity as real == Total(Charges(sources))
    ensures HeadroomOf(Fold(sources)) == Total(Headrooms(sources))
    ensures Fold(sources).dischargeTime == LongestTime(Charges(sources), DischargeLimits(sources))
    ensures Fold(sources).chargeTime == LongestTime(Headrooms(sources), ChargeLimits(sources))
  {
    if sources != [] {
      var k := |sources| - 1;
      FoldIs(sources[..k]);
      assert Currents(sources)[..k] == Currents(sources[..k]);
      assert Charges(sources)[..k] == Charges(sources[..k]) && Headrooms(sources)[..k] == Headrooms(sources[..k]);
      assert DischargeLimits(sources)[..k] == DischargeLimits(sources[..k]);
      assert ChargeLimits(sources)[..k] == ChargeLimits(sources[..k]);
    }
  }

  /** The room that is left in all sources together. */
  function HeadroomOf(acc: Acc): (r: real)
  {
    Room(acc.maxCapacity, acc.capacity)
  }

  function StatusOf(acc: Acc): (r: Status)
  {
    Status(acc.capacity, acc.maxCapacity, acc.current,
           Limit(HeadroomOf(acc), acc.chargeTime),
           Limit(acc.capacity as real, acc.dischargeTime))
  }

  /** A request is refused when there is nothing to give or no room to fill, or beyond the limits. */
  predicate Accepts(status: Status, target: int)
  {
    if target >= 0 then status.capacity != 0 && target <= status.maxDischarging
    else status.capacity < status.maxCapacity && -target <= status.maxCharging
  }

  /** The snapshot is consistent: no source holds less than nothing or more than its maximum. */
  predicate Sane(sources: seq<Status>)
  {
    AllUsable(sources) &&
    forall i :: 0 <= i < |sources| ==> 0 <= sources[i].capacity <= sources[i].maxCapacity
  }

  lemma Discharging(sources: seq<Status>)
    requires Sane(sources)
    ensures Sources(Charges(sources), DischargeLimits(sources)) && Total(Charges(sources)) >= 0.0
    ensures forall i :: 0 <= i < |sources| ==>
              DischargeLimits(sources)[i] == Caps(sources, false)[i] as real && Caps(sources, false)[i] >= 1
  {
    hide Charges, DischargeLimits;
    SumNonNegative(Charges(sources), 0);
  }

  lemma Charging(sources: seq<Status>)
    requires Sane(sources)
    ensures Sources(Headrooms(sources), ChargeLimits(sources)) && Total(Headrooms(sources)) >= 0.0
    ensures forall i :: 0 <= i < |sources| ==>
              ChargeLimits(sources)[i] == Caps(sources, true)[i] as real && Caps(sources, true)[i] >= 1
  {
    hide Headrooms, ChargeLimits;
    SumNonNegative(Headrooms(sources), 0);
  }

  /** The sources' own limits. */
  function Caps(sources: seq<Status>, charging: bool): (r: seq<int>)
    ensures |r| == |sources|
    ensures forall i :: 0 <= i < |r| ==> r[i] == if charging then sources[i].maxCharging else sources[i].maxDischarging
  {
    seq(|sources|, i requires 0 <= i < |sources| =>
      if charging then sources[i].maxCharging else sources[i].maxDischarging)
  }

  /** Every accepted non-zero request asks of each source a current of the right sign within the
      source's own limit, and of all together the target less under one milliampere per source. */
  lemma DischargeIsSafe(sources: seq<Status>, target: int)
    requires Sane(sources) && target > 0 && Accepts(StatusOf(Fold(sources)), target)
    ensures Fold(sources).capacity as real > 0.0
    ensures WithinCaps(Parts(Charges(sources), TimeFor(Fold(sources).capacity as real, target)), Caps(sources, false), target)
  {
    var acc, caps := Fold(sources), Caps(sources, false);
    assert acc.capacity != 0 && target <= Limit(acc.capacity as real, acc.dischargeTime);
    Discharging(sources);
    hide *;
    FoldIs(sources);
    SharesAreSafe(Charges(sources), DischargeLimits(sources), caps, acc.capacity as real, acc.dischargeTime, target);
  }

  lemma ChargeIsSafe(sources: seq<Status>, amount: int)
    requires Sane(sources) && amount > 0 && Accepts(StatusOf(Fold(sources)), -amount)
    ensures HeadroomOf(Fold(sources)) > 0.0
    ensures WithinCaps(Parts(Headrooms(sources), TimeFor(HeadroomOf(Fold(sources)), amount)), Caps(sources, true), amount)
  {
    var acc, caps := Fold(sources), Caps(sources, true);
    AcceptsCharge(acc, amount);
    Charging(sources);
    hide *;
    FoldIs(sources);
    SharesAreSafe(Headrooms(sources), ChargeLimits(sources), caps, HeadroomOf(acc), acc.chargeTime, amount);
  }

  lemma AcceptsCharge(acc: Acc, amount: int)
    requires amount > 0 && Accepts(StatusOf(acc), -amount)
    ensures HeadroomOf(acc) > 0.0 && amount <= Limit(HeadroomOf(acc), acc.chargeTime)
  {
    hide Limit;
  }

  /** Acceptance, exactly: for a source that is not negligible, a positive target is accepted if and only if the aggregate
      holds anything and no source's share of the target, in proportion to the charges, is above the source's own limit. */
  lemma AcceptsDischargeExactly(sources: seq<Status>, target: int)
    requires Sane(sources) && target > 0 && Fold(sources).dischargeTime >= NEGLIGIBLE
    ensures Accepts(StatusOf(Fold(sources)), target) <==>
            Total(Charges(sources)) > 0.0 && SharesFit(Charges(sources), DischargeLimits(sources), target as real)
  {
    var acc := Fold(sources);
    Discharging(sources);
    assert Accepts(StatusOf(acc), target) <==> acc.capacity != 0 && target <= Limit(acc.capacity as real, acc.dischargeTime);
    hide *;
    FoldIs(sources);
    if Total(Charges(sources)) > 0.0 {
      LimitExactly(Charges(sources), DischargeLimits(sources), target);
    }
  }

  /** The same for charging, with the headrooms. */
  lemma AcceptsChargeExactly(sources: seq<Status>, amount: int)
    requires Sane(sources) && amount > 0 && Fold(sources).chargeTime >= NEGLIGIBLE
    ensures Accepts(StatusOf(Fold(sources)), -amount) <==>
            Total(Headrooms(sources)) > 0.0 && SharesFit(Headrooms(sources), ChargeLimits(sources), amount as real)
  {
    var acc := Fold(sources);
    Charging(sources);
    assert Accepts(StatusOf(acc), -amount) <==>
           HeadroomOf(acc) > 0.0 && amount <= Limit(HeadroomOf(acc), acc.chargeTime);
    hide *;
    FoldIs(sources);
    if Total(Headrooms(sources)) > 0.0 {
      LimitExactly(Headrooms(sources), ChargeLimits(sources), amount);
    }
  }

  /** What is left: a target of 0 is accepted if and only if there is any charge, and a source that could be emptied or filled in
      no time at all accepts nothing beyond one milliampere. */
  lemma AcceptsOtherwise(sources: seq<Status>, target: int)
    requires Sane(sources)
    ensures target == 0 ==> (Accepts(StatusOf(Fold(sources)), target) <==> Total(Charges(sources)) > 0.0)
    ensures target > 0 && Fold(sources).dischargeTime < NEGLIGIBLE ==>
              (Accepts(StatusOf(Fold(sources)), target) <==> Total(Charges(sources)) > 0.0 && target == 1)
    ensures target < 0 && Fold(sources).chargeTime < NEGLIGIBLE ==>
              (Accepts(StatusOf(Fold(sources)), target) <==> Total(Headrooms(sources)) > 0.0 && target == -1)
  {
    var acc := Fold(sources);
    Discharging(sources);
    Charging(sources);
    FoldIs(sources);
    if acc.capacity as real > 0.0 && acc.dischargeTime >= NEGLIGIBLE {
      QuotientPositive(acc.capacity as real, acc.dischargeTime);
      TruncBelow(acc.capacity as real / acc.dischargeTime, acc.capacity as real / acc.dischargeTime);
    }
  }

  /** What is asked of each source is its charge's share of the target, cut to a whole number ... */
  lemma DischargeIsShared(sources: seq<Status>, target: int)
    requires Sane(sources) && target > 0 && Accepts(StatusOf(Fold(sources)), target)
    ensures var capacity := Fold(sources).capacity as real;
            capacity > 0.0 &&
            var parts := Parts(Charges(sources), TimeFor(capacity, target));
            forall i :: 0 <= i < |sources| ==> IsShare(parts[i], sources[i].capacity as real, capacity, target)
  {
    DischargeIsSafe(sources, target);
    Discharging(sources);
    hide Fold, Parts, TimeFor, IsShare, Total;
    PartsInProportion(Charges(sources), Fold(sources).capacity as real, target);
  }

  /** ... and its headroom's when charging. */
  lemma ChargeIsShared(sources: seq<Status>, amount: int)
    requires Sane(sources) && amount > 0 && Accepts(StatusOf(Fold(sources)), -amount)
    ensures var headroom := HeadroomOf(Fold(sources));
            headroom > 0.0 &&
            var parts := Parts(Headrooms(sources), TimeFor(headroom, amount));
            forall i :: 0 <= i < |sources| ==>
              IsShare(parts[i], Room(sources[i].maxCapacity, sources[i].capacity), headroom, amount)
  {
    ChargeIsSafe(sources, amount);
    Charging(sources);
    hide Fold, Parts, TimeFor, IsShare, Total, HeadroomOf;
    PartsInProportion(Headrooms(sources), HeadroomOf(Fold(sources)), amount);
  }

  class AggregatorBattery {
    var status: Status

    constructor ()
      ensures status == Status(0, 0, 0, 1, 1)
    {
      status := Status(0, 0, 0, 1, 1);
    }

    method Refresh(sources: seq<Status>)
      requires AllUsable(sources)
      modifies this
      ensures status == StatusOf(Fold(sources))
    {
      var acc := Collect(sources);
      var maxCharging := if acc.chargeTime < NEGLIGIBLE then 1
                         else Trunc(Room(acc.maxCapacity, acc.capacity) / acc.chargeTime);
      var maxDischarging := if acc.dischargeTime < NEGLIGIBLE then 1
                            else Trunc(acc.capacity as real / acc.dischargeTime);
      status := Status(acc.capacity, acc.maxCapacity, acc.current, maxCharging, maxDischarging);
    }

    /** `AggregatorBattery::schedule_set_current` on one snapshot of the sources: the currents that are
        forwarded, in the order of the sources. */
    method ScheduleSetCurrent(target: int, sources: seq<Status>) returns (accepted: bool, currents: seq<int>)
      requires Sane(sources)
      modifies this
      ensures status == StatusOf(Fold(sources))
      ensures accepted == Accepts(status, target)
      ensures !accepted ==> currents == []
      ensures accepted ==> |currents| == |sources|
      ensures accepted && target > 0 ==>
                && (forall i :: 0 <= i < |sources| ==> 0 <= currents[i] <= sources[i].maxDischarging)
                && target - |sources| < Sums.Sum(currents) <= target
                && forall i :: 0 <= i < |sources| ==>
                     IsShare(currents[i], sources[i].capacity as real, status.capacity as real, target)
      ensures accepted && target < 0 ==>
                && (forall i :: 0 <= i < |sources| ==> -sources[i].maxCharging <= currents[i] <= 0)
                && target <= Sums.Sum(currents) < target + |sources|
                && forall i :: 0 <= i < |sources| ==>
                     IsShare(-currents[i], Room(sources[i].maxCapacity, sources[i].capacity),
                             Room(status.maxCapacity, status.capacity), -target)
      ensures accepted && target == 0 ==> forall i :: 0 <= i < |sources| ==> currents[i] == 0
    {
      hide StatusOf, Fold, Sums.Sum, TimeFor, Parts, Charges, Headrooms, IsShare;
      Refresh(sources);
      currents := [];
      if target >= 0 && status.capacity == 0 {
        return false, [];
      } else if target < 0 && status.capacity >= status.maxCapacity {
        return false, [];
      }
      if (target >= 0 && target > status.maxDischarging) || (target < 0 && -target > status.maxCharging) {
        return false, [];
      }
      accepted := true;
      StatusTotals(sources);
      if target > 0 {
        DischargeIsSafe(sources, target);
        DischargeIsShared(sources, target);
        var remaining := TimeFor(status.capacity as real, target);
        currents := ShareOut(Charges(sources), remaining);
      } else if target < 0 {
        ChargeIsSafe(sources, -target);
        ChargeIsShared(sources, -target);
        var remaining := TimeFor(Room(status.maxCapacity, status.capacity), -target);
        var parts := ShareOut(Headrooms(sources), remaining);
        Sums.SumNegated(parts);
        currents := Sums.Negated(parts);
      } else {
        currents := seq(|sources|, i => 0);
      }
    }
  }

  lemma StatusTotals(sources: seq<Status>)
    requires AllUsable(sources)
    ensures StatusOf(Fold(sources)).capacity == Fold(sources).capacity
    ensures StatusOf(Fold(sources)).maxCapacity == Fold(sources).maxCapacity
  {
  }

  /** The loop over the sources. */
  method ShareOut(amounts: seq<real>, time: real) returns (parts: seq<int>)
    requires time > 0.0
    ensures parts == Parts(amounts, time)
  {
    parts := [];
    for i := 0 to |amounts|
      invariant parts == Parts(amounts[..i], time)
    {
      assert amounts[..i + 1][..i] == amounts[..i];
      parts := parts + [Trunc(amounts[i] / time)];
    }
    assert amounts[..|amounts|] == amounts;
  }
}

/** `AggregateBattery` of V3: the loops over the parents. */
module AggregateV3 {
  import opened Aggregation

  /** `set_c_rate` for one direction: collect the rates, then take the smallest. */
  method EffectiveCRate(amounts: seq<real>, limits: seq<real>) returns (rate: real)
    requires |amounts| == |limits| >= 1
    ensures rate == EffectiveRate(amounts, limits)
  {
    var rates: seq<real> := [];
    for i := 0 to |amounts|
      invariant |rates| == i && forall j :: 0 <= j < i ==> rates[j] == CRate(limits[j], amounts[j])
    {
      rates := rates + [CRate(limits[i], amounts[i])];
    }
    rate := rates[0];
    assert rate == EffectiveRate(amounts[..1], limits[..1]);
    for i := 1 to |rates|
      invariant rate == EffectiveRate(amounts[..i], limits[..i])
    {
      assert amounts[..i + 1][..i] == amounts[..i] && limits[..i + 1][..i] == limits[..i];
      if rates[i] < rate {
        rate := rates[i];
      }
    }
    assert amounts[..|rates|] == amounts && limits[..|rates|] == limits;
  }

  lemma RatedNext(amounts: seq<real>, rate: real, i: nat)
    requires i < |amounts|
    ensures Total(Rated(amounts[..i + 1], rate)) == Total(Rated(amounts[..i], rate)) + amounts[i] * rate
  {
    var next := amounts[..i + 1];
    assert next[..i] == amounts[..i];
    assert Rated(next, rate)[..i] == Rated(amounts[..i], rate);
  }

  /** The limit that `calcStatusVals` adds up. */
  method ReportedLimit(amounts: seq<real>, rate: real) returns (limit: real)
    ensures limit == Total(Rated(amounts, rate))
  {
    limit := 0.0;
    for i := 0 to |amounts|
      invariant limit == Total(Rated(amounts[..i], rate))
    {
      hide Total, Rated;
      RatedNext(amounts, rate, i);
      limit := limit + amounts[i] * rate;
    }
    assert amounts[..|amounts|] == amounts;
  }

  /** The discharging side of `schedule_set_current`: the shares that are forwarded to the parents. */
  method Discharge(charges: seq<real>, limits: seq<real>, current: real) returns (accepted: bool, shares: seq<real>)
    requires Sources(charges, limits) && |charges| >= 1 && current >= 0.0
    ensures accepted == (current <= Total(Rated(charges, EffectiveRate(charges, limits))))
    ensures accepted ==>
              && |shares| == |charges| && Total(shares) == current
              && forall i :: 0 <= i < |shares| ==>
                   0.0 <= shares[i] <= limits[i] && shares[i] * Total(charges) == charges[i] * current
  {
    hide Total, EffectiveRate, Rated;
    var rate := EffectiveCRate(charges, limits);
    var limit := ReportedLimit(charges, rate);
    shares := [];
    if current > limit {
      return false, shares;
    }
    var capacity := AddUp(charges);
    var request := CRate(current, capacity);
    shares := Rated(charges, request);
    RatedWithinLimits(charges, limits, current, 0);
    forall i | 0 <= i < |shares|
      ensures 0.0 <= shares[i] <= limits[i] && shares[i] * Total(charges) == charges[i] * current
    {
      RatedWithinLimits(charges, limits, current, i);
    }
    accepted := true;
  }

  method AddUp(xs: seq<real>) returns (total: real)
    ensures total == Total(xs)
  {
    total := 0.0;
    for i := 0 to |xs|
      invariant total == Total(xs[..i])
    {
      assert xs[..i + 1][..i] == xs[..i];
      total := total + xs[i];
    }
    assert xs[..|xs|] == xs;
  }
}
