/** The order in which the recursive removal of V3 reaches batteries, read off the graph before the removal starts.
 */
module RemovalOrder {
  import opened Topology
  import opened DirectoryRemoval

  /** How often a name is listed. */
  function Times(l: seq<Name>, n: Name): (k: nat)
  {
    if l == [] then 0 else Times(l[..|l| - 1], n) + if l[|l| - 1] == n then 1 else 0
  }

  lemma {:induction false} TimesAppend(l: seq<Name>, m: seq<Name>, n: Name)
    ensures Times(l + m, n) == Times(l, n) + Times(m, n)
  {
    if m == [] {
      assert l + m == l;
    } else {
      var k := |m| - 1;
      assert (l + m)[..|l| + k] == l + m[..k];
      TimesAppend(l, m[..k], n);
    }
  }

  /** A name is not listed, or listed once, or stands before itself. */
  lemma {:induction false} TimesIs(l: seq<Name>, n: Name)
    ensures n in l <==> Times(l, n) >= 1
    ensures Before(l, n, n) <==> Times(l, n) >= 2
  {
    if l != [] {
      var k := |l| - 1;
      TimesIs(l[..k], n);
      if Before(l[..k], n, n) {
        var i, j :| 0 <= i < j < k && l[..k][i] == n && l[..k][j] == n;
        assert l[i] == n && l[j] == n;
      }
      if n in l[..k] {
        var i :| 0 <= i < k && l[..k][i] == n;
        assert l[k] == n ==> Before(l, n, n) by {
          assert l[i] == n;
        }
      }
      if Before(l, n, n) {
        var i, j :| 0 <= i < j < |l| && l[i] == n && l[j] == n;
        assert l[..k][i] == n;
        assert j < k ==> l[..k][j] == n;
      }
    }
  }

  lemma {:induction false} WithoutAppend(l: seq<Name>, m: seq<Name>, gone: set<Name>)
    ensures Without(l + m, gone) == Without(l, gone) + Without(m, gone)
  {
    if l == [] {
      assert l + m == m;
    } else {
      assert (l + m)[1..] == l[1..] + m;
      WithoutAppend(l[1..], m, gone);
    }
  }

  /** A list is what comes before its last name, and that name if it stays. */
  lemma WithoutLast(l: seq<Name>, gone: set<Name>)
    requires l != []
    ensures Without(l, gone) == Without(l[..|l| - 1], gone) + if l[|l| - 1] in gone then [] else [l[|l| - 1]]
  {
    var front, last := l[..|l| - 1], l[|l| - 1];
    assert l == front + [last];
    WithoutAppend(front, [last], gone);
    WithoutOne(last, gone);
  }

  lemma WithoutOne(n: Name, gone: set<Name>)
    ensures Without([n], gone) == if n in gone then [] else [n]
  {
    assert [n][1..] == [];
  }

  lemma {:induction false} WithoutTimes(l: seq<Name>, gone: set<Name>, n: Name)
    requires n !in gone
    ensures Times(Without(l, gone), n) == Times(l, n)
  {
    if l != [] {
      WithoutLast(l, gone);
      var front, w := Without(l[..|l| - 1], gone), Without(l, gone);
      assert if l[|l| - 1] in gone then w == front else w[..|w| - 1] == front;
      WithoutTimes(l[..|l| - 1], gone, n);
    }
  }

  /** The children that stay, of a battery that stays. */
  lemma InducedList(d: Directory, gone: set<Name>, n: Name)
    requires n !in gone
    ensures ListOf(Induced(d, gone).parentGraph, n) == Without(ListOf(d.parentGraph, n), gone)
  {
  }

  // ----- the way down -----

  /** The first listed battery that `x` is at or below of. */
  ghost function FirstAbove(d: Directory, l: seq<Name>, x: Name): (c: Name)
    requires x in Cones(d, l)
    ensures c in l && x in Cone(d, c)
  {
    var k := |l| - 1;
    if x in Cones(d, l[..k]) then FirstAbove(d, l[..k], x) else l[k]
  }

  lemma {:induction false} FirstAboveAt(d: Directory, l: seq<Name>, i: nat, x: Name)
    requires i < |l| && x in Cone(d, l[i]) && x !in Cones(d, l[..i])
    ensures x in Cones(d, l) && FirstAbove(d, l, x) == l[i]
  {
    var k := |l| - 1;
    if i < k {
      assert l[..k][..i] == l[..i];
      FirstAboveAt(d, l[..k], i, x);
    }
  }

  /** There is such a position. */
  lemma {:induction false} FirstIndex(d: Directory, l: seq<Name>, x: Name) returns (i: nat)
    requires x in Cones(d, l)
    ensures i < |l| && x in Cone(d, l[i]) && x !in Cones(d, l[..i])
  {
    var k := |l| - 1;
    if x in Cones(d, l[..k]) {
      i := FirstIndex(d, l[..k], x);
      assert l[..k][..i] == l[..i];
    } else {
      i := k;
    }
  }

  /** A battery below `n` is at or below one of its children. */
  lemma BelowChildren(d: Directory, n: Name, x: Name)
    requires Consistent(d) && x in Cone(d, n) && x != n
    ensures n in d.batteries && x in Cones(d, ListOf(d.parentGraph, n))
  {
    var c := FirstStep(d.parentGraph, n, x);
    ConeSplit(d, n);
  }

  lemma {:induction false} SubsetSize(a: set<Name>, b: set<Name>)
    requires a <= b
    ensures |a| <= |b|
  {
    if a != {} {
      var x :| x in a;
      SubsetSize(a - {x}, b - {x});
    }
  }

  /** There is less below a child. */
  lemma SmallerCone(d: Directory, n: Name, c: Name)
    requires Consistent(d) && Acyclic(d) && Linked(d.parentGraph, n, c)
    ensures |Cone(d, c)| < |Cone(d, n)|
  {
    var rank: Name -> nat :| Ranked(d.parentGraph, rank);
    if n in Cone(d, c) {
      ReachLowers(d.parentGraph, rank, c, n);
      assert false;
    }
    ReachSelf(d.parentGraph, n);
    forall x | x in Cone(d, c) ensures x in Cone(d, n) - {n} {
      ReachFirst(d.parentGraph, n, c, x);
    }
    SubsetSize(Cone(d, c), Cone(d, n) - {n});
  }

  /** The parent through which the removal of `n` first reaches `x`: go down from `n`, each time to the first child that
      `x` is at or below of. */
  ghost function FirstParent(d: Directory, n: Name, x: Name): (p: Name)
    requires Consistent(d) && Acyclic(d) && x in Cone(d, n) && x != n
    ensures Linked(d.parentGraph, p, x) && p in Cone(d, n)
    decreases |Cone(d, n)|
  {
    BelowChildren(d, n, x);
    var c := FirstAbove(d, ListOf(d.parentGraph, n), x);
    assert Linked(d.parentGraph, n, c);
    SmallerCone(d, n, c);
    ReachSelf(d.parentGraph, n);
    if c == x then n
    else
      var p := FirstParent(d, c, x);
      ReachFirst(d.parentGraph, n, c, p);
      p
  }

  /** Everything below `n` is listed once by the parent through which removal first reaches it. */
  ghost predicate ListedOnce(d: Directory, n: Name)
    requires Consistent(d) && Acyclic(d)
  {
    forall x :: x in Cone(d, n) && x != n ==> Times(ListOf(d.parentGraph, FirstParent(d, n, x)), x) == 1
  }

  // ----- the way down does not change while other batteries go -----

  lemma {:induction false} FirstAboveStays(d: Directory, rank: Name -> nat, gone: set<Name>, l: seq<Name>, x: Name)
    requires Ranked(d.parentGraph, rank) && Closed(d, gone) && x !in gone
    ensures x in Cones(Induced(d, gone), Without(l, gone)) <==> x in Cones(d, l)
    ensures x in Cones(d, l) ==> FirstAbove(Induced(d, gone), Without(l, gone), x) == FirstAbove(d, l, x)
  {
    if l != [] {
      hide Cone, Induced, Closed, Ranked, Without;
      var k := |l| - 1;
      FirstAboveStays(d, rank, gone, l[..k], x);
      WithoutLast(l, gone);
      var front, w := Without(l[..k], gone), Without(l, gone);
      assert if l[k] in gone then w == front else w[..|w| - 1] == front && w[|w| - 1] == l[k];
      ConeOutside(d, rank, gone, l[k], x);
    }
  }

  /** What stays is below the same batteries that stay, and below none that go. */
  lemma ConeOutside(d: Directory, rank: Name -> nat, gone: set<Name>, c: Name, x: Name)
    requires Ranked(d.parentGraph, rank) && Closed(d, gone) && x !in gone
    ensures x in Cone(Induced(d, gone), c) <==> x in Cone(d, c)
    ensures c in gone ==> x !in Cone(d, c)
  {
    InducedCone(d, rank, gone, c);
    if c in gone && x in Cone(d, c) {
      ClosedReach(d, rank, gone, c, x);
    }
  }

  lemma {:induction false} FirstParentStays(d: Directory, rank: Name -> nat, gone: set<Name>, n: Name, x: Name)
    requires Consistent(d) && Ranked(d.parentGraph, rank) && Closed(d, gone)
    requires x in Cone(d, n) && x != n && n !in gone && x !in gone
    ensures Consistent(Induced(d, gone)) && Acyclic(Induced(d, gone)) && x in Cone(Induced(d, gone), n)
    ensures FirstParent(Induced(d, gone), n, x) == FirstParent(d, n, x)
    decreases rank(n)
  {
    InducedConsistent(d, rank, gone);
    InducedCone(d, rank, gone, n);
    InducedList(d, gone, n);
    BelowChildren(d, n, x);
    var l := ListOf(d.parentGraph, n);
    FirstAboveStays(d, rank, gone, l, x);
    var c := FirstAbove(d, l, x);
    assert Linked(d.parentGraph, n, c);
    ConeOutside(d, rank, gone, c, x);
    if c != x {
      FirstParentStays(d, rank, gone, c, x);
    }
  }

  // ----- removal succeeds exactly if everything is listed once on the way down -----

  /** No battery is below a sibling. */
  ghost predicate Antichains(d: Directory)
  {
    forall n, a, b :: Linked(d.parentGraph, n, a) && Linked(d.parentGraph, n, b) && b in Cone(d, a) ==> a == b
  }

  lemma InducedAntichains(d: Directory, rank: Name -> nat, gone: set<Name>)
    requires Ranked(d.parentGraph, rank) && Antichains(d)
    ensures Antichains(Induced(d, gone))
  {
    var d' := Induced(d, gone);
    forall n, a, b | Linked(d'.parentGraph, n, a) && Linked(d'.parentGraph, n, b) && b in Cone(d', a) ensures a == b {
      PrunedLinks(d.parentGraph, gone, n, a);
      PrunedLinks(d.parentGraph, gone, n, b);
      InducedReachesBack(d, rank, gone, a, b);
      assert b in Cone(d, a);
    }
  }

  lemma {:induction false} ConesGoneAt(d: Directory, rank: Name -> nat, n: Name, i: nat)
    requires Consistent(d) && Ranked(d.parentGraph, rank) && n in d.batteries && i <= |ListOf(d.parentGraph, n)|
    ensures ConesGone(d, n, i, Cones(d, ListOf(d.parentGraph, n)[..i]))
  {
    var l := ListOf(d.parentGraph, n);
    if i == 0 {
      NoneGone(d, n);
    } else {
      ConesGoneAt(d, rank, n, i - 1);
      NextConeGone(d, rank, n, i - 1, Cones(d, l[..i - 1]));
      assert l[..i][..i - 1] == l[..i - 1];
    }
  }

  /** What child `i` of `n` is the first to lead to is reached from there in the same way when its turn comes. */
  lemma Descend(d: Directory, rank: Name -> nat, n: Name, i: nat, x: Name)
    requires Consistent(d) && Ranked(d.parentGraph, rank) && n in d.batteries && i < |ListOf(d.parentGraph, n)|
    requires var l := ListOf(d.parentGraph, n); x in Cone(d, l[i]) && x !in Cones(d, l[..i]) && x != l[i]
    ensures x in Cone(d, n) && x != n
    ensures var l := ListOf(d.parentGraph, n);
            var d' := Induced(d, Cones(d, l[..i]));
            && Consistent(d') && Acyclic(d') && x in Cone(d', l[i])
            && FirstParent(d, n, x) == FirstParent(d', l[i], x)
            && Times(ListOf(d'.parentGraph, FirstParent(d, n, x)), x) == Times(ListOf(d.parentGraph, FirstParent(d, n, x)), x)
  {
    hide Consistent, Ranked, Cones, Cone;
    var l := ListOf(d.parentGraph, n);
    var gone := Cones(d, l[..i]);
    ConesGoneAt(d, rank, n, i);
    NextConeGone(d, rank, n, i, gone);
    ConeOutside(d, rank, gone, l[i], x);
    FirstParentStays(d, rank, gone, l[i], x);
    FirstAboveAt(d, l, i, x);
    NotAbove(d, rank, n, l, x);
    var p := FirstParent(d, l[i], x);
    PrunedLinks(d.parentGraph, gone, p, x);
    InducedList(d, gone, p);
    WithoutTimes(ListOf(d.parentGraph, p), gone, x);
  }

  lemma NotAbove(d: Directory, rank: Name -> nat, n: Name, l: seq<Name>, x: Name)
    requires Consistent(d) && Ranked(d.parentGraph, rank) && n in d.batteries && l == ListOf(d.parentGraph, n)
    requires x in Cones(d, l)
    ensures x in Cone(d, n) && x != n
  {
    ConeSplit(d, n);
    assert forall i :: 0 <= i < |l| ==> Linked(d.parentGraph, n, l[i]);
    NotBelowChildren(d, rank, n, l);
  }

  /** The parent that removal reaches a child of `n` through is `n` itself, if siblings are apart. */
  lemma FirstParentOfChild(d: Directory, rank: Name -> nat, n: Name, x: Name)
    requires Consistent(d) && Ranked(d.parentGraph, rank) && Antichains(d) && Linked(d.parentGraph, n, x)
    ensures x in Cone(d, n) && x != n && FirstParent(d, n, x) == n
  {
    var l := ListOf(d.parentGraph, n);
    ChildInCones(d, n, x);
    NotAbove(d, rank, n, l, x);
    assert Linked(d.parentGraph, n, FirstAbove(d, l, x));
  }

  /** A grandchild is first reached through the first child that leads to it, whatever other parents it has. */
  lemma FirstParentVia(d: Directory, n: Name, i: nat, x: Name)
    requires Consistent(d) && Acyclic(d) && Antichains(d) && n in d.batteries && i < |ListOf(d.parentGraph, n)|
    requires var l := ListOf(d.parentGraph, n); Linked(d.parentGraph, l[i], x) && x !in Cones(d, l[..i])
    ensures x in Cone(d, n) && x != n && FirstParent(d, n, x) == ListOf(d.parentGraph, n)[i]
  {
    hide Consistent, Antichains, Cone, Cones;
    var rank: Name -> nat :| Ranked(d.parentGraph, rank);
    var l := ListOf(d.parentGraph, n);
    FirstParentOfChild(d, rank, l[i], x);
    FirstAboveAt(d, l, i, x);
    NotAbove(d, rank, n, l, x);
  }

  lemma RemovableIsListedOnce(d: Directory, rank: Name -> nat, n: Name)
    requires Consistent(d) && Ranked(d.parentGraph, rank) && n in d.batteries
    requires var l := ListOf(d.parentGraph, n);
             forall i :: 0 <= i < |l| ==>
               var d' := Induced(d, Cones(d, l[..i]));
               l[i] in d'.batteries && Consistent(d') && Acyclic(d') && ListedOnce(d', l[i])
    ensures ListedOnce(d, n)
  {
    var l := ListOf(d.parentGraph, n);
    forall x | x in Cone(d, n) && x != n ensures Times(ListOf(d.parentGraph, FirstParent(d, n, x)), x) == 1 {
      BelowChildren(d, n, x);
      var i := FirstIndex(d, l, x);
      FirstAboveAt(d, l, i, x);
      if x == l[i] {
        forall j | 0 <= j < |l| ensures l[j] !in Cones(d, l[..j]) {
          assert l[j] in Induced(d, Cones(d, l[..j])).batteries;
        }
        OnceInTurn(d, n, i);
      } else {
        Descend(d, rank, n, i, x);
      }
    }
  }

  lemma StandsBefore(l: seq<Name>, i: nat, j: nat)
    requires i < j < |l|
    ensures Before(l, l[i], l[j])
  {
  }

  /** A child whose later namesakes would not be there in their turn has none. */
  lemma OnceInTurn(d: Directory, n: Name, i: nat)
    requires Consistent(d) && i < |ListOf(d.parentGraph, n)|
    requires var l := ListOf(d.parentGraph, n);
             forall j :: 0 <= j < |l| ==> l[j] !in Cones(d, l[..j])
    ensures Times(ListOf(d.parentGraph, n), ListOf(d.parentGraph, n)[i]) == 1
  {
    var l := ListOf(d.parentGraph, n);
    TimesIs(l, l[i]);
    if Before(l, l[i], l[i]) {
      var j, k :| 0 <= j < k < |l| && l[j] == l[i] && l[k] == l[i];
      assert l[k] in Cone(d, l[j]) by {
        assert Linked(d.parentGraph, n, l[k]);
        ReachSelf(d.parentGraph, l[k]);
      }
      OutsideCones(d, l, k, l[k]);
    }
  }

  /** If siblings are apart, a list without repeats lets every child wait for its turn. */
  lemma InTurn(d: Directory, rank: Name -> nat, n: Name, i: nat)
    requires Consistent(d) && Ranked(d.parentGraph, rank) && Antichains(d) && ListedOnce(d, n)
    requires i < |ListOf(d.parentGraph, n)|
    ensures var l := ListOf(d.parentGraph, n); l[i] in Induced(d, Cones(d, l[..i])).batteries
  {
    var l := ListOf(d.parentGraph, n);
    assert Linked(d.parentGraph, n, l[i]);
    FirstParentOfChild(d, rank, n, l[i]);
    TimesIs(l, l[i]);
    OutsideCones(d, l, i, l[i]);
    forall j | 0 <= j < i ensures l[i] !in Cone(d, l[j]) {
      assert Linked(d.parentGraph, n, l[j]);
      StandsBefore(l, j, i);
    }
  }

  lemma ListedOnceInTurn(d: Directory, rank: Name -> nat, n: Name, i: nat)
    requires Consistent(d) && Ranked(d.parentGraph, rank) && ListedOnce(d, n) && n in d.batteries
    requires i < |ListOf(d.parentGraph, n)|
    ensures var l := ListOf(d.parentGraph, n);
            var d' := Induced(d, Cones(d, l[..i]));
            Consistent(d') && Acyclic(d') && ListedOnce(d', l[i])
  {
    var l := ListOf(d.parentGraph, n);
    var gone := Cones(d, l[..i]);
    var d' := Induced(d, gone);
    ConesGoneAt(d, rank, n, i);
    InducedConsistent(d, rank, gone);
    InducedCone(d, rank, gone, l[i]);
    forall x | x in Cone(d', l[i]) && x != l[i] ensures Times(ListOf(d'.parentGraph, FirstParent(d', l[i], x)), x) == 1 {
      Descend(d, rank, n, i, x);
    }
  }

  /** Where no battery is below a sibling, removal of `n` succeeds if and only if everything below `n` is listed once by
      the parent through which removal first reaches it. */
  lemma {:induction false} RemovableExactly(d: Directory, rank: Name -> nat, n: Name)
    requires Consistent(d) && Ranked(d.parentGraph, rank) && Antichains(d) && n in d.batteries
    ensures Removable(d, rank, n) <==> ListedOnce(d, n)
    decreases rank(n)
  {
    var l := ListOf(d.parentGraph, n);
    RemovableIs(d, rank, n);
    forall i | 0 <= i < |l|
      ensures var d' := Induced(d, Cones(d, l[..i]));
              && Consistent(d') && Acyclic(d')
              && (RemovableAt(d, rank, n, i) <==> l[i] in d'.batteries && ListedOnce(d', l[i]))
    {
      var gone := Cones(d, l[..i]);
      ConesGoneAt(d, rank, n, i);
      InducedConsistent(d, rank, gone);
      InducedAntichains(d, rank, gone);
      ChildRank(d, rank, n, i);
      if l[i] in Induced(d, gone).batteries {
        RemovableExactly(Induced(d, gone), rank, l[i]);
      }
    }
    if Removable(d, rank, n) {
      forall i | 0 <= i < |l|
        ensures var d' := Induced(d, Cones(d, l[..i])); l[i] in d'.batteries && ListedOnce(d', l[i])
      {
        assert RemovableAt(d, rank, n, i);
      }
      RemovableIsListedOnce(d, rank, n);
    }
    if ListedOnce(d, n) {
      forall i | 0 <= i < |l| ensures RemovableAt(d, rank, n, i) {
        InTurn(d, rank, n, i);
        ListedOnceInTurn(d, rank, n, i);
      }
    }
  }

  // ----- what a removal takes out -----

  /** It is closed and lies below the battery; a removal that stops leaves the battery itself and takes out something. */
  lemma {:induction false} RemovedIs(d: Directory, rank: Name -> nat, n: Name)
    requires Consistent(d) && Ranked(d.parentGraph, rank)
    ensures Closed(d, Removed(d, rank, n)) && Removed(d, rank, n) <= Cone(d, n)
    ensures n in d.batteries && !Removable(d, rank, n) ==> n !in Removed(d, rank, n) && Removed(d, rank, n) != {}
    decreases rank(n)
  {
    if n in d.batteries && Removable(d, rank, n) {
      ConeIsClosed(d, n);
    } else if n in d.batteries {
      var l := ListOf(d.parentGraph, n);
      RemovableIs(d, rank, n);
      StopExists(d, rank, n, 0);
      var k: nat :| StopsAt(d, rank, n, k);
      RemovedBelowAt(d, rank, n, k);
      var gone := Cones(d, l[..k]);
      ConesGoneAt(d, rank, n, k);
      InducedConsistent(d, rank, gone);
      ChildRank(d, rank, n, k);
      TurnOf(d, rank, n, k, gone);
      RemovedIs(Induced(d, gone), rank, l[k]);
      hide Consistent, Closed, Cone, Induced, Removable, RemovableAt;
      PartGone(d, rank, n, k, gone, Removed(Induced(d, gone), rank, l[k]));
    }
  }

  /** Nothing depends on the ranks. */
  lemma {:induction false} RemovableSame(d: Directory, r: Name -> nat, s: Name -> nat, n: Name)
    requires Ranked(d.parentGraph, r) && Ranked(d.parentGraph, s)
    ensures Removable(d, r, n) <==> Removable(d, s, n)
    ensures forall i: nat :: RemovableAt(d, r, n, i) <==> RemovableAt(d, s, n, i)
    decreases r(n)
  {
    var l := ListOf(d.parentGraph, n);
    forall i: nat ensures RemovableAt(d, r, n, i) <==> RemovableAt(d, s, n, i) {
      if i < |l| {
        ChildRank(d, r, n, i);
        InducedRanked(d, r, Cones(d, l[..i]));
        InducedRanked(d, s, Cones(d, l[..i]));
        RemovableSame(Induced(d, Cones(d, l[..i])), r, s, l[i]);
      }
    }
    RemovableIs(d, r, n);
    RemovableIs(d, s, n);
  }

  lemma {:induction false} RemovedSame(d: Directory, r: Name -> nat, s: Name -> nat, n: Name)
    requires Ranked(d.parentGraph, r) && Ranked(d.parentGraph, s)
    ensures Removed(d, r, n) == Removed(d, s, n)
    decreases r(n)
  {
    RemovableSame(d, r, s, n);
    if n in d.batteries && !Removable(d, r, n) {
      var l := ListOf(d.parentGraph, n);
      RemovableIs(d, r, n);
      StopExists(d, r, n, 0);
      var k: nat :| StopsAt(d, r, n, k);
      assert StopsAt(d, s, n, k);
      RemovedBelowAt(d, r, n, k);
      RemovedBelowAt(d, s, n, k);
      ChildRank(d, r, n, k);
      RemovedSame(Induced(d, Cones(d, l[..k])), r, s, l[k]);
    }
  }

  ghost function Gone(d: Directory, n: Name): (gone: set<Name>)
    requires Acyclic(d)
  {
    var rank: Name -> nat :| Ranked(d.parentGraph, rank);
    Removed(d, rank, n)
  }

  lemma GoneIs(d: Directory, rank: Name -> nat, n: Name)
    requires Ranked(d.parentGraph, rank)
    ensures Acyclic(d) && Gone(d, n) == Removed(d, rank, n)
  {
    forall r: Name -> nat | Ranked(d.parentGraph, r) ensures Removed(d, r, n) == Removed(d, rank, n) {
      RemovedSame(d, r, rank, n);
    }
  }

  // ----- how often an edge is listed -----

  /** The two maps list every edge equally often. */
  ghost predicate Balanced(d: Directory)
  {
    forall p, c :: EdgeBalanced(d, p, c)
  }

  predicate EdgeBalanced(d: Directory, p: Name, c: Name)
  {
    Times(ListOf(d.parentGraph, p), c) == Times(ListOf(d.childGraph, c), p)
  }

  lemma PrunedTimes(g: Graph, gone: set<Name>, a: Name, b: Name)
    ensures Times(ListOf(Pruned(g, gone), a), b) == if a in gone || b in gone then 0 else Times(ListOf(g, a), b)
  {
    var l, w := ListOf(g, a), Without(ListOf(g, a), gone);
    assert a !in gone ==> ListOf(Pruned(g, gone), a) == w;
    if b in gone {
      TimesIs(w, b);
    } else {
      WithoutTimes(l, gone, b);
    }
  }

  lemma InducedBalanced(d: Directory, gone: set<Name>)
    requires Balanced(d)
    ensures Balanced(Induced(d, gone))
  {
    forall p, c ensures EdgeBalanced(Induced(d, gone), p, c) {
      assert EdgeBalanced(d, p, c);
      PrunedTimes(d.parentGraph, gone, p, c);
      PrunedTimes(d.childGraph, gone, c, p);
    }
  }

  lemma WithEdgeBalanced(d: Directory, parent: Name, child: Name)
    requires Balanced(d)
    ensures Balanced(WithEdge(d, parent, child))
  {
    forall p, c ensures EdgeBalanced(WithEdge(d, parent, child), p, c) {
      assert EdgeBalanced(d, p, c);
      TimesAppend(ListOf(d.parentGraph, parent), [child], c);
      TimesAppend(ListOf(d.childGraph, child), [parent], p);
      TimesOne(child, c);
      TimesOne(parent, p);
    }
  }

  lemma TimesOne(a: Name, b: Name)
    ensures Times([a], b) == if a == b then 1 else 0
  {
    assert [a][..0] == [];
  }
}
