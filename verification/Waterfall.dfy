/** The in-place distribution loops of the V2 tranche and reservation policies.

    Every loop of `refresh_tranche`, `refresh_reservation` and `DISTRIBUTE_MAX_STATUS` walks over the
    children in one direction and pushes a residual into them: a child that cannot take all of it is
    set to its limit and the rest moves on, the first child that can take it takes it and the loop
    breaks. The backward loops count a `size_t` down with the condition `i >= 0`, which is always
    true, so they stay inside the array exactly if they break.
 */
module Waterfall {
  import opened Sums

  /** Which way the residual pushes. A downward pass lets a child keep up to `slack` less than its
      limit before it counts as overflowing. */
  datatype Push = Up | Down(slack: nat)

  // ----- sums in visiting order -----

  /** The index visited in position `k`; also the position in which index `k` is visited. */
  function At(n: nat, forward: bool, k: nat): (i: nat)
    requires k < n
    ensures i < n
    ensures (if forward then i else n - 1 - i) == k
  {
    if forward then k else n - 1 - k
  }

  /** The sum over the first `k` visited. */
  function Visited(xs: seq<int>, forward: bool, k: nat): (r: int)
    requires k <= |xs|
  {
    if k == 0 then 0 else Visited(xs, forward, k - 1) + xs[At(|xs|, forward, k - 1)]
  }

  /** What the first `k` visited children can take between them before they are all at their limits. */
  function Room(xs: seq<int>, limits: seq<int>, forward: bool, k: nat): (r: int)
    requires k <= |xs| == |limits|
  {
    Visited(limits, forward, k) - Visited(xs, forward, k)
  }

  lemma {:induction false} VisitedSplits(xs: seq<int>, forward: bool, k: nat)
    requires k <= |xs|
    ensures Visited(xs, forward, k) == if forward then Sum(xs[..k]) else Sum(xs) - Sum(xs[..|xs| - k])
  {
    if k == 0 {
      assert xs[..|xs|] == xs;
    } else {
      VisitedSplits(xs, forward, k - 1);
      if forward {
        assert xs[..k][..k - 1] == xs[..k - 1];
      } else {
        assert xs[..|xs| - k + 1][..|xs| - k] == xs[..|xs| - k];
      }
    }
  }

  /** Visiting everybody adds up everything, in either direction. */
  lemma VisitedAll(xs: seq<int>, forward: bool)
    ensures Visited(xs, forward, |xs|) == Sum(xs)
  {
    VisitedSplits(xs, forward, |xs|);
    assert xs[..|xs|] == xs;
  }

  // ----- the specification of a pass -----

  /** The residual `r` does not fit into children with that much room. */
  predicate Overflows(push: Push, r: int, room: int)
  {
    match push
    case Up => r > room
    case Down(slack) => r < room - slack
  }

  /** The position at which the pass breaks: the first prefix of children with enough room. The number
      of children if there is none. */
  function StopAt(xs: seq<int>, limits: seq<int>, forward: bool, push: Push, r: int, k: nat): (stop: nat)
    requires k <= |xs| == |limits|
    ensures k <= stop <= |xs|
    ensures forall j :: k < j <= stop ==> Overflows(push, r, Room(xs, limits, forward, j))
    ensures stop < |xs| ==> !Overflows(push, r, Room(xs, limits, forward, stop + 1))
    decreases |xs| - k
  {
    if k == |xs| || !Overflows(push, r, Room(xs, limits, forward, k + 1)) then k
    else StopAt(xs, limits, forward, push, r, k + 1)
  }

  predicate Breaks(xs: seq<int>, limits: seq<int>, forward: bool, push: Push, r: int)
    requires |xs| == |limits|
  {
    StopAt(xs, limits, forward, push, r, 0) < |xs|
  }

  /** Where every child ends: at its limit before the pivot, unchanged past it, and the pivot takes
      what is left. */
  function Poured(xs: seq<int>, limits: seq<int>, forward: bool, push: Push, r: int): (ys: seq<int>)
    requires |xs| == |limits|
    ensures |ys| == |xs|
  {
    var stop := StopAt(xs, limits, forward, push, r, 0);
    seq(|xs|, i requires 0 <= i < |xs| =>
      var k := At(|xs|, forward, i);
      if k < stop then limits[i]
      else if k == stop then xs[i] + r - Room(xs, limits, forward, stop)
      else xs[i])
  }

  /** What is left when the pass ends. */
  function Left(xs: seq<int>, limits: seq<int>, forward: bool, push: Push, r: int): (left: int)
    requires |xs| == |limits|
  {
    if Breaks(xs, limits, forward, push, r) then 0 else r - Room(xs, limits, forward, |xs|)
  }

  /** All there is to say about a pass: where the children end, what is left, whether it broke. */
  datatype Outcome = Outcome(values: seq<int>, left: int, broke: bool)

  function Pour(xs: seq<int>, limits: seq<int>, forward: bool, push: Push, r: int): (o: Outcome)
    requires |xs| == |limits|
    ensures |o.values| == |xs|
  {
    Outcome(Poured(xs, limits, forward, push, r), Left(xs, limits, forward, push, r),
            Breaks(xs, limits, forward, push, r))
  }

  // ----- conservation, termination, priority -----

  /** The first `k` visited children gain exactly their room while the residual overflows, and the
      whole residual from the pivot on. */
  lemma {:induction false} VisitedPoured(
    xs: seq<int>, limits: seq<int>, forward: bool, push: Push, r: int, k: nat)
    requires k <= |xs| == |limits|
    ensures Visited(Poured(xs, limits, forward, push, r), forward, k) ==
              Visited(xs, forward, k) +
                if k <= StopAt(xs, limits, forward, push, r, 0) then Room(xs, limits, forward, k) else r
  {
    if k != 0 {
      VisitedPoured(xs, limits, forward, push, r, k - 1);
    }
  }

  /** Nothing is lost: the children plus the residual add up to what they did before. */
  lemma PourConserves(xs: seq<int>, limits: seq<int>, forward: bool, push: Push, r: int)
    requires |xs| == |limits|
    ensures Sum(Poured(xs, limits, forward, push, r)) + Left(xs, limits, forward, push, r) == Sum(xs) + r
  {
    VisitedPoured(xs, limits, forward, push, r, |xs|);
    VisitedAll(Poured(xs, limits, forward, push, r), forward);
    VisitedAll(xs, forward);
  }

  /** The pass breaks exactly if some prefix of the visited children has room for the residual. */
  lemma BreaksExactly(xs: seq<int>, limits: seq<int>, forward: bool, push: Push, r: int)
    requires |xs| == |limits|
    ensures Breaks(xs, limits, forward, push, r) <==>
            exists k :: 1 <= k <= |xs| && !Overflows(push, r, Room(xs, limits, forward, k))
  {
    var stop := StopAt(xs, limits, forward, push, r, 0);
    if stop < |xs| {
      assert !Overflows(push, r, Room(xs, limits, forward, stop + 1));
    } else {
      assert forall k :: 0 < k <= |xs| ==> Overflows(push, r, Room(xs, limits, forward, k));
    }
  }

  /** No child is beyond its limit in the direction of the push. */
  ghost predicate HasRoom(xs: seq<int>, limits: seq<int>, push: Push)
  {
    |xs| == |limits| &&
    forall i :: 0 <= i < |xs| ==> if push.Up? then xs[i] <= limits[i] else limits[i] <= xs[i]
  }

  lemma {:induction false} RoomGrows(xs: seq<int>, limits: seq<int>, forward: bool, push: Push, j: nat, k: nat)
    requires HasRoom(xs, limits, push) && j <= k <= |xs|
    ensures var a, b := Room(xs, limits, forward, j), Room(xs, limits, forward, k);
            if push.Up? then a <= b else b <= a
  {
    if j < k {
      RoomGrows(xs, limits, forward, push, j, k - 1);
    }
  }

  /** With no child beyond its limit, the pass breaks exactly if everybody together has room. */
  lemma BreaksIfRoom(xs: seq<int>, limits: seq<int>, forward: bool, push: Push, r: int)
    requires |xs| == |limits| && |xs| >= 1
    ensures !Overflows(push, r, Sum(limits) - Sum(xs)) ==> Breaks(xs, limits, forward, push, r)
    ensures HasRoom(xs, limits, push) && Breaks(xs, limits, forward, push, r) ==>
              !Overflows(push, r, Sum(limits) - Sum(xs))
  {
    VisitedAll(xs, forward);
    VisitedAll(limits, forward);
    BreaksExactly(xs, limits, forward, push, r);
    assert Room(xs, limits, forward, |xs|) == Sum(limits) - Sum(xs);
    if HasRoom(xs, limits, push) && Breaks(xs, limits, forward, push, r) {
      var k :| 1 <= k <= |xs| && !Overflows(push, r, Room(xs, limits, forward, k));
      RoomGrows(xs, limits, forward, push, k, |xs|);
    }
  }

  lemma BreaksWithRoom(xs: seq<int>, limits: seq<int>, forward: bool, push: Push, r: int)
    requires HasRoom(xs, limits, push) && |xs| >= 1
    ensures Breaks(xs, limits, forward, push, r) <==> !Overflows(push, r, Sum(limits) - Sum(xs))
  {
    BreaksIfRoom(xs, limits, forward, push, r);
  }

  /** Another way to hand out the same residual within the same limits. */
  ghost predicate Alternative(xs: seq<int>, limits: seq<int>, push: Push, r: int, ys: seq<int>)
  {
    && |ys| == |xs| == |limits|
    && (forall i :: 0 <= i < |xs| ==>
          if push.Up? then xs[i] <= ys[i] <= limits[i] else limits[i] <= ys[i] <= xs[i])
    && Sum(ys) == Sum(xs) + r
  }

  lemma {:induction false} VisitedBetween(xs: seq<int>, ys: seq<int>, forward: bool, j: nat, k: nat)
    requires j <= k <= |xs| == |ys| && forall i :: 0 <= i < |xs| ==> xs[i] <= ys[i]
    ensures Visited(ys, forward, j) - Visited(xs, forward, j) <= Visited(ys, forward, k) - Visited(xs, forward, k)
  {
    if j < k {
      VisitedBetween(xs, ys, forward, j, k - 1);
    }
  }

  /** Priority: no other distribution of the residual within the limits gives the first `k` visited
      children more of it, for any `k`. */
  lemma PourIsGreedy(xs: seq<int>, limits: seq<int>, forward: bool, push: Push, r: int, ys: seq<int>, k: nat)
    requires Alternative(xs, limits, push, r, ys) && k <= |xs|
    ensures var poured := Visited(Poured(xs, limits, forward, push, r), forward, k);
            if push.Up? then Visited(ys, forward, k) <= poured else poured <= Visited(ys, forward, k)
  {
    VisitedPoured(xs, limits, forward, push, r, k);
    VisitedAll(xs, forward);
    VisitedAll(ys, forward);
    if push.Up? {
      VisitedBetween(xs, ys, forward, k, |xs|);
      VisitedBetween(ys, limits, forward, 0, k);
    } else {
      VisitedBetween(ys, xs, forward, k, |xs|);
      VisitedBetween(limits, ys, forward, 0, k);
    }
  }

  /** A child ends between where it was and its limit, if it started on the right side of it and
      the residual pushes that way. */
  lemma PourStaysBetween(xs: seq<int>, limits: seq<int>, forward: bool, push: Push, r: int, i: nat)
    requires HasRoom(xs, limits, push) && i < |xs| && push in {Up, Down(0)}
    requires if push.Up? then r >= 0 else r <= 0
    ensures var y := Poured(xs, limits, forward, push, r)[i];
            if push.Up? then xs[i] <= y <= limits[i] else limits[i] <= y <= xs[i]
  {
    var stop := StopAt(xs, limits, forward, push, r, 0);
    var k := At(|xs|, forward, i);
    if k == stop {
      assert At(|xs|, forward, stop) == i;
      assert Room(xs, limits, forward, stop + 1) == Room(xs, limits, forward, stop) + limits[i] - xs[i];
      assert stop > 0 ==> Overflows(push, r, Room(xs, limits, forward, stop));
    }
  }
}
