/** What a removal that stops has taken out by then: everything to the left of a way down from its target that ends where
    a child is no longer there in its turn.
 */
module StoppedRemoval {
  import opened Topology
  import opened DirectoryRemoval
  import opened RemovalOrder
  import opened DirectoryManager

  /** A battery on the way down, and how many of its children came before the one whose turn it is. */
  datatype Turn = Turn(name: Name, before: nat)

  /** A way down from `n`, each time to the child whose turn it is, that ends at a child that is at or below one of the
      children before it. */
  ghost predicate Trail(d: Directory, n: Name, trail: seq<Turn>)
    decreases trail
  {
    var l := ListOf(d.parentGraph, n);
    && trail != [] && trail[0].name == n && trail[0].before < |l|
    && if |trail| == 1 then l[trail[0].before] in Cones(d, l[..trail[0].before])
       else Trail(d, l[trail[0].before], trail[1..])
  }

  /** Everything at or below a child that came before. */
  ghost function LeftOf(d: Directory, n: Name, trail: seq<Turn>): (r: set<Name>)
    requires Trail(d, n, trail)
    decreases trail
  {
    var l := ListOf(d.parentGraph, n);
    Cones(d, l[..trail[0].before]) + if |trail| == 1 then {} else LeftOf(d, l[trail[0].before], trail[1..])
  }

  lemma TrailNext(d: Directory, n: Name, k: nat, rest: seq<Turn>)
    requires k < |ListOf(d.parentGraph, n)| && Trail(d, ListOf(d.parentGraph, n)[k], rest)
    ensures var l, trail := ListOf(d.parentGraph, n), [Turn(n, k)] + rest;
            Trail(d, n, trail) && LeftOf(d, n, trail) == Cones(d, l[..k]) + LeftOf(d, l[k], rest)
  {
    hide Cones;
    assert ([Turn(n, k)] + rest)[1..] == rest;
  }

  /** Where a name of a thinned list stood in the whole list. */
  lemma {:induction false} StoodAt(l: seq<Name>, gone: set<Name>, i: nat) returns (j: nat)
    requires i < |Without(l, gone)|
    ensures j < |l| && l[j] == Without(l, gone)[i] && Without(l[..j], gone) == Without(l, gone)[..i]
  {
    var k := |l| - 1;
    var front := Without(l[..k], gone);
    WithoutLast(l, gone);
    if i < |front| {
      j := StoodAt(l[..k], gone, i);
      assert l[..k][..j] == l[..j];
    } else {
      j := k;
      assert Without(l, gone)[..i] == front;
    }
  }

  lemma ConeWithout(d: Directory, rank: Name -> nat, gone: set<Name>, c: Name)
    requires Ranked(d.parentGraph, rank) && Closed(d, gone)
    ensures gone + Cone(Induced(d, gone), c) == gone + Cone(d, c)
    ensures c in gone ==> Cone(d, c) <= gone
  {
    InducedCone(d, rank, gone, c);
    if c in gone {
      forall x | x in Cone(d, c) ensures x in gone {
        ClosedReach(d, rank, gone, c, x);
      }
    }
  }

  /** Nothing is below less once a closed set is gone, except for what is in it. */
  lemma {:induction false} ConesWithout(d: Directory, rank: Name -> nat, gone: set<Name>, l: seq<Name>)
    requires Ranked(d.parentGraph, rank) && Closed(d, gone)
    ensures gone + Cones(Induced(d, gone), Without(l, gone)) == gone + Cones(d, l)
  {
    if l != [] {
      var k := |l| - 1;
      ConesWithout(d, rank, gone, l[..k]);
      WithoutLast(l, gone);
      var front, w := Without(l[..k], gone), Without(l, gone);
      assert if l[k] in gone then w == front else w[..|w| - 1] == front && w[|w| - 1] == l[k];
      hide Without, Cone, Induced, Closed, Ranked;
      ConeWithout(d, rank, gone, l[k]);
    }
  }

  /** A way down in what is left is one in the whole directory. */
  lemma {:induction false} TrailBefore(d: Directory, rank: Name -> nat, gone: set<Name>, n: Name, after: seq<Turn>)
    returns (trail: seq<Turn>)
    requires Ranked(d.parentGraph, rank) && Closed(d, gone) && Trail(Induced(d, gone), n, after)
    ensures Trail(d, n, trail) && gone + LeftOf(d, n, trail) == gone + LeftOf(Induced(d, gone), n, after)
    ensures |trail| == |after| && forall i :: 0 <= i < |trail| ==> trail[i].name == after[i].name && trail[i].name !in gone
    decreases |after|
  {
    hide Cones, Closed, Ranked, Induced, Without;
    var d' := Induced(d, gone);
    var l := ListOf(d.parentGraph, n);
    assert n !in gone && ListOf(d'.parentGraph, n) == Without(l, gone) by {
      StillListed(d, gone, n);
    }
    var i := after[0].before;
    var j := StoodAt(l, gone, i);
    ConesWithout(d, rank, gone, l[..j]);
    StayedThere(l, gone, i);
    if |after| == 1 {
      trail := [Turn(n, j)];
    } else {
      var rest := TrailBefore(d, rank, gone, l[j], after[1..]);
      trail := [Turn(n, j)] + rest;
      assert trail[1..] == rest;
    }
  }

  lemma StillListed(d: Directory, gone: set<Name>, n: Name)
    requires ListOf(Induced(d, gone).parentGraph, n) != []
    ensures n !in gone && ListOf(Induced(d, gone).parentGraph, n) == Without(ListOf(d.parentGraph, n), gone)
  {
  }

  lemma StayedThere(l: seq<Name>, gone: set<Name>, i: nat)
    requires i < |Without(l, gone)|
    ensures Without(l, gone)[i] !in gone
  {
    assert Without(l, gone)[i] in Without(l, gone);
  }

  /** Where the loop over the children stops, and what is left for that child. */
  lemma StopParts(d: Directory, rank: Name -> nat, n: Name) returns (k: nat)
    requires Consistent(d) && Ranked(d.parentGraph, rank) && n in d.batteries && !Removable(d, rank, n)
    ensures var l := ListOf(d.parentGraph, n);
            && k < |l| && l[k] in d.batteries && rank(l[k]) < rank(n)
            && n !in Removed(d, rank, n)
            && var gone := Cones(d, l[..k]);
               var d' := Induced(d, gone);
               && Closed(d, gone) && Consistent(d') && Ranked(d'.parentGraph, rank)
               && (l[k] in gone || !Removable(d', rank, l[k]))
               && Removed(d, rank, n) == gone + if l[k] in gone then {} else Removed(d', rank, l[k])
  {
    var l := ListOf(d.parentGraph, n);
    RemovableIs(d, rank, n);
    StopExists(d, rank, n, 0);
    k :| StopsAt(d, rank, n, k);
    RemovedBelowAt(d, rank, n, k);
    ConesGoneAt(d, rank, n, k);
    InducedConsistent(d, rank, Cones(d, l[..k]));
    ChildRank(d, rank, n, k);
    RemovedIs(d, rank, n);
    assert Linked(d.parentGraph, n, l[k]);
  }

  /** A removal that stops has taken out exactly what is to the left of a way down to where it stops; nothing on the way
      down goes. */
  lemma {:induction false} StoppedExactly(d: Directory, rank: Name -> nat, n: Name) returns (trail: seq<Turn>)
    requires Consistent(d) && Ranked(d.parentGraph, rank) && n in d.batteries && !Removable(d, rank, n)
    ensures Trail(d, n, trail) && Removed(d, rank, n) == LeftOf(d, n, trail)
    ensures forall i :: 0 <= i < |trail| ==> trail[i].name !in Removed(d, rank, n)
    decreases rank(n)
  {
    var k := StopParts(d, rank, n);
    var l := ListOf(d.parentGraph, n);
    var gone := Cones(d, l[..k]);
    if l[k] in gone {
      trail := [Turn(n, k)];
    } else {
      hide *;
      var after := StoppedExactly(Induced(d, gone), rank, l[k]);
      var rest := TrailBefore(d, rank, gone, l[k], after);
      TrailNext(d, n, k, rest);
      trail := [Turn(n, k)] + rest;
    }
  }

  lemma {:induction false} TrailEnd(d: Directory, n: Name, trail: seq<Turn>)
    requires Trail(d, n, trail)
    ensures var end := trail[|trail| - 1];
            var l := ListOf(d.parentGraph, end.name);
            end.before < |l| && l[end.before] in Cones(d, l[..end.before])
    decreases |trail|
  {
    if |trail| > 1 {
      TrailEnd(d, ListOf(d.parentGraph, n)[trail[0].before], trail[1..]);
    }
  }

  /** In every state that callers can bring about, a removal stops where a child is listed once more, and has taken out by then
      exactly what is to the left of the way down to there. */
  lemma StopsAtRepeat(d: Directory, n: Name) returns (trail: seq<Turn>)
    requires Invariant(d) && n in d.batteries && !ListedOnce(d, n)
    ensures Trail(d, n, trail) && Gone(d, n) == LeftOf(d, n, trail)
    ensures forall i :: 0 <= i < |trail| ==> trail[i].name !in Gone(d, n)
    ensures var end := trail[|trail| - 1];
            var l := ListOf(d.parentGraph, end.name);
            end.before < |l| && l[end.before] in l[..end.before]
  {
    var rank: Name -> nat :| Ranked(d.parentGraph, rank);
    InvariantAntichains(d);
    RemovableExactly(d, rank, n);
    GoneIs(d, rank, n);
    trail := StoppedExactly(d, rank, n);
    hide Trail, LeftOf, Removable, Removed, ListedOnce;
    TrailEnd(d, n, trail);
    var end := trail[|trail| - 1];
    var l := ListOf(d.parentGraph, end.name);
    InCones(d, l[..end.before], l[end.before]);
    var i :| 0 <= i < end.before && l[end.before] in Cone(d, l[..end.before][i]);
    assert Linked(d.parentGraph, end.name, l[i]) && Linked(d.parentGraph, end.name, l[end.before]);
    assert l[..end.before][i] == l[end.before];
  }
}
