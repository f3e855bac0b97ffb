/** The ordered event set shared by every V2 battery, and the timeline it stands for.

    A `std::set<event_t>` is modelled as a strictly increasing sequence of events. Read as a
    timeline, the queue says for every child and every time which set-current event is in force
    there; scheduling is an edit of that timeline.
 */
module EventQueue {
  import opened Options

  datatype Function = Refresh | SetCurrentEnd | SetCurrent | CancelEvent
  {
    function Ordinal(): (n: nat)
    {
      match this
      case Refresh => 0
      case SetCurrentEnd => 1
      case SetCurrent => 2
      case CancelEvent => 3
    }
  }

  /** One queued event. `child` is the `other_data` pointer read as an index; a null pointer is 0. */
  datatype Event = Event(
    timepoint: int,
    timeAdded: int,
    sequenceNumber: nat,
    func: Function,
    current: int,
    isGreaterThan: bool,
    child: nat)

  /** `operator <` on events: time, then time of insertion, then sequence number, then function. */
  predicate Less(a: Event, b: Event)
  {
    if a.timepoint != b.timepoint then a.timepoint < b.timepoint
    else if a.timeAdded != b.timeAdded then a.timeAdded < b.timeAdded
    else if a.sequenceNumber != b.sequenceNumber then a.sequenceNumber < b.sequenceNumber
    else a.func.Ordinal() < b.func.Ordinal()
  }

  /** Strictly increasing, as the elements of a `std::set` are. */
  ghost predicate Sorted(q: seq<Event>)
  {
    forall i, j :: 0 <= i < j < |q| ==> Less(q[i], q[j])
  }

  /** `std::set::emplace`: insertion in order; nothing happens when an equivalent event is there. */
  function Emplace(q: seq<Event>, e: Event): (r: seq<Event>)
  {
    if q == [] then [e]
    else if Less(e, q[0]) then [e] + q
    else if Less(q[0], e) then [q[0]] + Emplace(q[1..], e)
    else q
  }

  /** The queue without the events in `dead`. */
  function Erase(q: seq<Event>, dead: set<Event>): (r: seq<Event>)
  {
    if q == [] then []
    else
      var rest := Erase(q[..|q| - 1], dead);
      if q[|q| - 1] in dead then rest else rest + [q[|q| - 1]]
  }

  /** Set-current events of one child; refresh events concern nobody's current. */
  predicate Concerns(e: Event, child: nat)
  {
    !e.func.Refresh? && e.child == child
  }

  /** The event in force for `child` at time `t`: the last one that is due by then. */
  function InForce(q: seq<Event>, child: nat, t: int): (r: Option<Event>)
  {
    if q == [] then None
    else
      var last := q[|q| - 1];
      if Concerns(last, child) && last.timepoint <= t then Some(last)
      else InForce(q[..|q| - 1], child, t)
  }

  /** The current that the queue asks of `child` at time `t`, if nothing is due yet `base`. */
  function CurrentAt(q: seq<Event>, child: nat, base: int, t: int): (r: int)
  {
    match InForce(q, child, t)
    case None => base
    case Some(e) => e.current
  }

  function EventsOf(q: seq<Event>): (r: set<Event>)
  {
    set e | e in q
  }

  /** The child's events with a timepoint in the closed interval [from, until]. */
  function Overlapped(q: seq<Event>, child: nat, from: int, until: int): (r: set<Event>)
  {
    set e | e in q && Concerns(e, child) && from <= e.timepoint <= until
  }

  /** The edit made by one accepted request. */
  function Rescheduled(q: seq<Event>, begin: Event, end: Event): (r: seq<Event>)
  {
    Emplace(Emplace(Erase(q, Overlapped(q, begin.child, begin.timepoint, end.timepoint)), begin), end)
  }

  /** How many leading events are due at time `at`. */
  function DueCount(q: seq<Event>, at: int): (n: nat)
    ensures n <= |q|
    ensures forall i :: 0 <= i < n ==> q[i].timepoint <= at
    ensures n < |q| ==> q[n].timepoint > at
  {
    if q == [] || q[0].timepoint > at then 0 else 1 + DueCount(q[1..], at)
  }

  // ----- the queue as an ordered set -----

  lemma {:induction false} EmplaceKeepsOrder(q: seq<Event>, e: Event)
    requires Sorted(q)
    ensures Sorted(Emplace(q, e))
    ensures forall x :: x in Emplace(q, e) ==> x in q || x == e
    ensures forall x :: x in q ==> x in Emplace(q, e)
    ensures (forall x :: x in q ==> Less(x, e) || Less(e, x)) ==> e in Emplace(q, e)
  {
    if q == [] {
    } else if Less(e, q[0]) {
    } else if Less(q[0], e) {
      EmplaceKeepsOrder(q[1..], e);
      var rest := Emplace(q[1..], e);
      assert q == [q[0]] + q[1..];
      forall j | 0 <= j < |rest| ensures Less(q[0], rest[j]) {
        assert rest[j] in rest;
      }
    } else {
      assert q[0] in q;
    }
  }

  lemma {:induction false} EraseKeepsOrder(q: seq<Event>, dead: set<Event>)
    requires Sorted(q)
    ensures Sorted(Erase(q, dead))
    ensures forall x :: x in Erase(q, dead) <==> x in q && x !in dead
  {
    if q != [] {
      var front := q[..|q| - 1];
      EraseKeepsOrder(front, dead);
      assert q == front + [q[|q| - 1]];
      forall i | 0 <= i < |Erase(front, dead)|
        ensures Less(Erase(front, dead)[i], q[|q| - 1])
      {
        assert Erase(front, dead)[i] in front;
      }
    }
  }

  /** Erasing one more event at a time is erasing them all at once. */
  lemma {:induction false} EraseOneMore(q: seq<Event>, dead: set<Event>, e: Event)
    ensures Erase(Erase(q, dead), {e}) == Erase(q, dead + {e})
  {
    if q != [] {
      EraseOneMore(q[..|q| - 1], dead, e);
      var rest := Erase(q[..|q| - 1], dead);
      if q[|q| - 1] !in dead {
        assert (rest + [q[|q| - 1]])[..|rest|] == rest;
      }
    }
  }

  lemma {:induction false} EraseNothing(q: seq<Event>)
    ensures Erase(q, {}) == q
  {
    if q != [] {
      EraseNothing(q[..|q| - 1]);
    }
  }

  // ----- the queue as a timeline -----

  /** The event in force is the greatest of the due ones. */
  lemma {:induction false} InForceIsLatest(q: seq<Event>, child: nat, t: int)
    requires Sorted(q)
    ensures match InForce(q, child, t)
            case None => forall x :: x in q && Concerns(x, child) ==> x.timepoint > t
            case Some(e) =>
              && e in q && Concerns(e, child) && e.timepoint <= t
              && forall x :: x in q && Concerns(x, child) && x.timepoint <= t ==> x == e || Less(x, e)
  {
    if q != [] {
      var last := q[|q| - 1];
      assert q == q[..|q| - 1] + [last];
      if !(Concerns(last, child) && last.timepoint <= t) {
        InForceIsLatest(q[..|q| - 1], child, t);
      }
    }
  }

  /** ... and is determined by that. */
  lemma InForceUnique(q: seq<Event>, child: nat, t: int, e: Event)
    requires Sorted(q)
    requires e in q && Concerns(e, child) && e.timepoint <= t
    requires forall x :: x in q && Concerns(x, child) && x.timepoint <= t ==> x == e || Less(x, e)
    ensures InForce(q, child, t) == Some(e)
  {
    InForceIsLatest(q, child, t);
  }

  /** Two queues with the same due events of a child agree on it. */
  lemma InForceAgree(q: seq<Event>, p: seq<Event>, child: nat, t: int)
    requires Sorted(q) && Sorted(p)
    requires forall x :: Concerns(x, child) && x.timepoint <= t ==> (x in q <==> x in p)
    ensures InForce(q, child, t) == InForce(p, child, t)
  {
    InForceIsLatest(q, child, t);
    InForceIsLatest(p, child, t);
  }

  /** The event in force at `t` is the one in force at an earlier `u` unless one falls in between. */
  lemma InForceEarlier(q: seq<Event>, child: nat, u: int, t: int)
    requires Sorted(q) && u <= t
    ensures var r := InForce(q, child, t);
            !(r.Some? && r.value.timepoint > u) ==> r == InForce(q, child, u)
  {
    InForceIsLatest(q, child, t);
    InForceIsLatest(q, child, u);
  }

  /** Events that are not due yet can be ignored. */
  lemma {:induction false} InForcePrefix(q: seq<Event>, n: nat, child: nat, t: int)
    requires n <= |q|
    requires forall j :: n <= j < |q| ==> q[j].timepoint > t
    ensures InForce(q, child, t) == InForce(q[..n], child, t)
  {
    if n == |q| {
      assert q[..n] == q;
    } else {
      InForcePrefix(q[..|q| - 1], n, child, t);
      assert q[..|q| - 1][..n] == q[..n];
    }
  }

  lemma SortedByTime(q: seq<Event>, n: nat, t: int)
    requires Sorted(q) && n < |q| && q[n].timepoint > t
    ensures forall j :: n <= j < |q| ==> q[j].timepoint > t
  {
    forall j | n <= j < |q| ensures q[j].timepoint > t {
      if n < j {
        assert Less(q[n], q[j]);
      }
    }
  }

  /** The scans that collect the overlapped events see one event after another ... */
  lemma OverlappedNext(q: seq<Event>, i: nat, child: nat, from: int, until: int)
    requires i < |q|
    ensures Overlapped(q[..i + 1], child, from, until) ==
              Overlapped(q[..i], child, from, until) +
                if Concerns(q[i], child) && from <= q[i].timepoint <= until then {q[i]} else {}
  {
    assert q[..i + 1] == q[..i] + [q[i]];
  }

  /** ... and may stop at the first one past the interval. */
  lemma OverlappedPrefix(q: seq<Event>, i: nat, child: nat, from: int, until: int)
    requires i <= |q| && forall j :: i <= j < |q| ==> q[j].timepoint > until
    ensures Overlapped(q, child, from, until) == Overlapped(q[..i], child, from, until)
  {
    assert q == q[..i] + q[i..];
  }

  lemma EventsOfNext(q: seq<Event>, e: Event)
    ensures EventsOf(q + [e]) == EventsOf(q) + {e}
  {
  }

  // ----- one request edits the timeline -----

  /** The pair of events a request inserts is newer than everything queued. */
  ghost predicate Fresh(q: seq<Event>, begin: Event, end: Event)
  {
    && (forall x :: x in q ==> x.timeAdded <= begin.timeAdded)
    && (forall x :: x in q && !x.func.Refresh? ==> x.sequenceNumber < begin.sequenceNumber)
    && begin.func == SetCurrent && end.func == SetCurrentEnd
    && begin.timeAdded <= end.timeAdded && begin.sequenceNumber < end.sequenceNumber
    && begin.child == end.child
  }

  /** The edit, seen as a set: the overlapped events go, the two new events come. */
  lemma RescheduledContents(q: seq<Event>, begin: Event, end: Event)
    requires Sorted(q) && Fresh(q, begin, end)
    ensures Sorted(Rescheduled(q, begin, end))
    ensures forall x :: x in Rescheduled(q, begin, end) <==>
              x == begin || x == end ||
              (x in q && !(Concerns(x, begin.child) && begin.timepoint <= x.timepoint <= end.timepoint))
  {
    var dead := Overlapped(q, begin.child, begin.timepoint, end.timepoint);
    EraseKeepsOrder(q, dead);
    var kept := Erase(q, dead);
    EmplaceKeepsOrder(kept, begin);
    EmplaceKeepsOrder(Emplace(kept, begin), end);
  }

  /** What is in force after a request, for an ordered interval. */
  lemma RescheduledInForce(q: seq<Event>, begin: Event, end: Event, t: int)
    requires Sorted(q) && Fresh(q, begin, end) && begin.timepoint <= end.timepoint
    ensures var was := InForce(q, begin.child, t);
            InForce(Rescheduled(q, begin, end), begin.child, t) ==
              if t < begin.timepoint then was
              else if t < end.timepoint then Some(begin)
              else if was.Some? && was.value.timepoint > end.timepoint then was
              else Some(end)
  {
    var q' := Rescheduled(q, begin, end);
    RescheduledContents(q, begin, end);
    InForceIsLatest(q, begin.child, t);
    var was := InForce(q, begin.child, t);
    if t < begin.timepoint {
      InForceAgree(q, q', begin.child, t);
    } else if t < end.timepoint {
      InForceUnique(q', begin.child, t, begin);
    } else if was.Some? && was.value.timepoint > end.timepoint {
      InForceUnique(q', begin.child, t, was.value);
    } else {
      InForceUnique(q', begin.child, t, end);
    }
  }

  /** What is in force after a request whose interval ends before it begins: nothing is erased and
      the begin event is never undone. */
  lemma MisorderedInForce(q: seq<Event>, begin: Event, end: Event, t: int)
    requires Sorted(q) && Fresh(q, begin, end) && begin.timepoint > end.timepoint
    ensures var was := InForce(q, begin.child, t);
            InForce(Rescheduled(q, begin, end), begin.child, t) ==
              if t < end.timepoint then was
              else if t < begin.timepoint then
                if was.Some? && was.value.timepoint > end.timepoint then was else Some(end)
              else if was.Some? && was.value.timepoint > begin.timepoint then was
              else Some(begin)
  {
    var q' := Rescheduled(q, begin, end);
    RescheduledContents(q, begin, end);
    InForceIsLatest(q, begin.child, t);
    var was := InForce(q, begin.child, t);
    if t < end.timepoint {
      InForceAgree(q, q', begin.child, t);
    } else if t < begin.timepoint {
      if was.Some? && was.value.timepoint > end.timepoint {
        InForceUnique(q', begin.child, t, was.value);
      } else {
        InForceUnique(q', begin.child, t, end);
      }
    } else if was.Some? && was.value.timepoint > begin.timepoint {
      InForceUnique(q', begin.child, t, was.value);
    } else {
      InForceUnique(q', begin.child, t, begin);
    }
  }

  /** A request for one child is invisible to every other child. */
  lemma RescheduledOthers(q: seq<Event>, begin: Event, end: Event, other: nat, t: int)
    requires Sorted(q) && Fresh(q, begin, end) && other != begin.child
    ensures InForce(Rescheduled(q, begin, end), other, t) == InForce(q, other, t)
  {
    RescheduledContents(q, begin, end);
    InForceAgree(q, Rescheduled(q, begin, end), other, t);
  }

  // ----- draining the due events -----

  /** Later events of the queue overlay earlier ones. */
  lemma {:induction false} SuffixOverlays(q: seq<Event>, n: nat, child: nat, t: int)
    requires n <= |q|
    ensures InForce(q, child, t) ==
              if InForce(q[n..], child, t).Some? then InForce(q[n..], child, t) else InForce(q[..n], child, t)
  {
    if n == |q| {
      assert q[..n] == q;
    } else {
      SuffixOverlays(q[..|q| - 1], n, child, t);
      assert q[..|q| - 1][n..] == q[n..][..|q| - n - 1];
      assert q[..|q| - 1][..n] == q[..n];
    }
  }

  /** A stretch that is all due at `at` looks the same at every later time. */
  lemma {:induction false} AllDue(q: seq<Event>, child: nat, at: int, t: int)
    requires at <= t && forall i :: 0 <= i < |q| ==> q[i].timepoint <= at
    ensures InForce(q, child, t) == InForce(q, child, at)
  {
    if q != [] {
      AllDue(q[..|q| - 1], child, at, t);
    }
  }

  /** Draining what is due at `at` splits the timeline: before and at `at` it is the drained part,
      after `at` the remaining events overlay it. */
  lemma DrainSplits(q: seq<Event>, at: int, child: nat, t: int)
    requires Sorted(q) && at <= t
    ensures var n := DueCount(q, at);
            && Sorted(q[n..])
            && InForce(q[..n], child, at) == InForce(q, child, at)
            && InForce(q, child, t) ==
                 (if InForce(q[n..], child, t).Some? then InForce(q[n..], child, t) else InForce(q, child, at))
  {
    var n := DueCount(q, at);
    if n < |q| {
      SortedByTime(q, n, at);
    }
    InForcePrefix(q, n, child, at);
    SuffixOverlays(q, n, child, t);
    AllDue(q[..n], child, at, t);
  }

  /** A refresh event changes nobody's timeline. */
  lemma RefreshIsInvisible(q: seq<Event>, r: Event, child: nat, t: int)
    requires Sorted(q) && r.func == Refresh
    ensures Sorted(Emplace(q, r))
    ensures InForce(Emplace(q, r), child, t) == InForce(q, child, t)
  {
    EmplaceKeepsOrder(q, r);
    InForceAgree(q, Emplace(q, r), child, t);
  }

  // ----- refresh events -----

  /** A refresh event is queued for time `t`. */
  predicate RefreshAt(q: seq<Event>, t: int)
  {
    exists i :: 0 <= i < |q| && q[i].func.Refresh? && q[i].timepoint == t
  }

  lemma RefreshEmplaced(q: seq<Event>, r: Event)
    requires Sorted(q) && r.func.Refresh?
    ensures RefreshAt(Emplace(q, r), r.timepoint)
    ensures forall t :: RefreshAt(q, t) ==> RefreshAt(Emplace(q, r), t)
    ensures forall t :: RefreshAt(Emplace(q, r), t) ==> RefreshAt(q, t) || t == r.timepoint
  {
    EmplaceKeepsOrder(q, r);
    var q' := Emplace(q, r);
    if r !in q' {
      var x :| x in q && !Less(x, r) && !Less(r, x);
      assert x in q';
    }
    forall t | RefreshAt(q, t) ensures RefreshAt(q', t) {
      var i :| 0 <= i < |q| && q[i].func.Refresh? && q[i].timepoint == t;
      assert q[i] in q';
    }
    forall t | RefreshAt(q', t) ensures RefreshAt(q, t) || t == r.timepoint {
      var i :| 0 <= i < |q'| && q'[i].func.Refresh? && q'[i].timepoint == t;
      assert q'[i] in q';
    }
  }

  lemma LaterRefreshes(q: seq<Event>, at: int, t: int)
    requires Sorted(q)
    ensures RefreshAt(q[DueCount(q, at)..], t) <==> t > at && RefreshAt(q, t)
  {
    var n := DueCount(q, at);
    if RefreshAt(q[n..], t) {
      var i :| 0 <= i < |q[n..]| && q[n..][i].func.Refresh? && q[n..][i].timepoint == t;
      SortedByTime(q, n, at);
      assert q[n + i].timepoint == t;
    }
    if t > at && RefreshAt(q, t) {
      var i :| 0 <= i < |q| && q[i].func.Refresh? && q[i].timepoint == t;
      assert q[n..][i - n] == q[i];
    }
  }

  /** An edit of the queue neither adds nor removes a refresh event. */
  lemma RescheduledRefreshes(q: seq<Event>, begin: Event, end: Event, t: int)
    requires Sorted(q) && Fresh(q, begin, end) && !begin.func.Refresh? && !end.func.Refresh?
    ensures RefreshAt(Rescheduled(q, begin, end), t) <==> RefreshAt(q, t)
  {
    var q' := Rescheduled(q, begin, end);
    RescheduledContents(q, begin, end);
    if RefreshAt(q, t) {
      var i :| 0 <= i < |q| && q[i].func.Refresh? && q[i].timepoint == t;
      assert q[i] in q';
    }
    if RefreshAt(q', t) {
      var i :| 0 <= i < |q'| && q'[i].func.Refresh? && q'[i].timepoint == t;
      assert q'[i] in q';
    }
  }
}
