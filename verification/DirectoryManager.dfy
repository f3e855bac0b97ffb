/** `BatteryDirectoryManager` of V3: the topologies that the create operations allow, and exactly when a removal on them
    succeeds. It always does if no aggregate names a source twice.
 */
module DirectoryManager {
  import opened Topology
  import opened DirectoryRemoval
  import opened RemovalOrder

  // ----- what every reachable topology looks like -----

  /** A partition has its manager as its only parent, and the manager is there. */
  ghost predicate PartitionsManaged(d: Directory)
  {
    forall n :: n in d.batteries && d.batteries[n].Partition? ==>
      var m := d.batteries[n].manager;
      && m in d.batteries && d.batteries[m] == Manager
      && Linked(d.parentGraph, m, n)
      && forall p :: Linked(d.parentGraph, p, n) ==> p == m
  }

  /** A battery feeds one consumer, unless it is a manager and they are all its partitions. */
  ghost predicate OneConsumer(d: Directory)
  {
    forall p, a, b :: Linked(d.parentGraph, p, a) && Linked(d.parentGraph, p, b) && a != b ==>
      a in d.batteries && d.batteries[a] == Partition(p)
  }

  ghost predicate Invariant(d: Directory)
  {
    Consistent(d) && Balanced(d) && Acyclic(d) && PartitionsManaged(d) && OneConsumer(d)
  }

  /** No child is listed twice. */
  ghost predicate NoRepeats(d: Directory)
  {
    forall n, x :: !Before(ListOf(d.parentGraph, n), x, x)
  }

  /** Then no parent is either. */
  lemma NoRepeatedParents(d: Directory, n: Name, x: Name)
    requires Invariant(d) && NoRepeats(d)
    ensures !Before(ListOf(d.childGraph, n), x, x)
  {
    assert EdgeBalanced(d, x, n);
    TimesIs(ListOf(d.parentGraph, x), n);
    TimesIs(ListOf(d.childGraph, n), x);
  }

  /** A battery that is not a manager feeds at most one consumer. */
  lemma OnlyManagersSplit(d: Directory, p: Name, a: Name, b: Name)
    requires Invariant(d) && Linked(d.parentGraph, p, a) && Linked(d.parentGraph, p, b) && a != b
    ensures p in d.batteries && d.batteries[p] == Manager
  {
    assert d.batteries[a] == Partition(p);
  }

  /** In such a topology no battery is below a sibling. */
  lemma InvariantAntichains(d: Directory)
    requires Invariant(d)
    ensures Antichains(d)
  {
    var rank: Name -> nat :| Ranked(d.parentGraph, rank);
    forall n, a, b | Linked(d.parentGraph, n, a) && Linked(d.parentGraph, n, b) && b in Cone(d, a) ensures a == b {
      if a != b {
        var p := LastStep(d.parentGraph, a, b);
        assert d.batteries[b] == Partition(n);
        assert p == n;
        ReachLowers(d.parentGraph, rank, a, n);
        assert false;
      }
    }
  }

  /** Without repeats, no child of a battery stands in the way of a later one. */
  lemma InvariantApart(d: Directory, n: Name)
    requires Invariant(d) && NoRepeats(d)
    ensures ApartAt(d, n)
  {
    InvariantAntichains(d);
    forall a, b | Before(ListOf(d.parentGraph, n), a, b) ensures b !in Cone(d, a) {
      assert Linked(d.parentGraph, n, a) && Linked(d.parentGraph, n, b) && a != b;
    }
  }

  // ----- growing: a new battery below existing ones -----

  /** The edges from each of the parents, added in order. */
  function WithParents(d: Directory, parents: seq<Name>, child: Name): (r: Directory)
    ensures r.batteries == d.batteries
  {
    if parents == [] then d
    else WithEdge(WithParents(d, parents[..|parents| - 1], child), parents[|parents| - 1], child)
  }

  function Grown(d: Directory, name: Name, kind: Kind, parents: seq<Name>): (r: Directory)
  {
    WithParents(d.(batteries := d.batteries[name := kind]), parents, name)
  }

  /** When the code grows the directory: the name is new, the parents are there and free; or the parent
      is a manager that has nothing but partitions. */
  ghost predicate CanGrow(d: Directory, name: Name, kind: Kind, parents: seq<Name>)
  {
    && name !in d.batteries
    && (forall p :: p in parents ==> p in d.batteries)
    && (if kind.Partition? then
          && parents == [kind.manager] && d.batteries[kind.manager] == Manager
          && forall c :: Linked(d.parentGraph, kind.manager, c) ==>
               c in d.batteries && d.batteries[c] == kind
        else
          forall p :: p in parents ==> p !in d.parentGraph)
  }

  lemma {:induction false} WithParentsLinks(d: Directory, parents: seq<Name>, child: Name, p: Name, c: Name)
    ensures Linked(WithParents(d, parents, child).parentGraph, p, c) <==>
            Linked(d.parentGraph, p, c) || (p in parents && c == child)
    ensures Linked(WithParents(d, parents, child).childGraph, c, p) <==>
            Linked(d.childGraph, c, p) || (p in parents && c == child)
  {
    if parents != [] {
      WithParentsLinks(d, parents[..|parents| - 1], child, p, c);
    }
  }

  lemma {:induction false} WithParentsNonEmpty(d: Directory, parents: seq<Name>, child: Name)
    requires forall n :: n in d.parentGraph ==> d.parentGraph[n] != []
    requires forall n :: n in d.childGraph ==> d.childGraph[n] != []
    ensures forall n :: n in WithParents(d, parents, child).parentGraph ==>
              WithParents(d, parents, child).parentGraph[n] != []
    ensures forall n :: n in WithParents(d, parents, child).childGraph ==>
              WithParents(d, parents, child).childGraph[n] != []
  {
    if parents != [] {
      WithParentsNonEmpty(d, parents[..|parents| - 1], child);
    }
  }

  lemma GrownBatteries(d: Directory, name: Name, kind: Kind, parents: seq<Name>)
    ensures Grown(d, name, kind, parents).batteries == d.batteries[name := kind]
  {
  }

  lemma GrownLinks(d: Directory, name: Name, kind: Kind, parents: seq<Name>)
    ensures forall p, c :: Linked(Grown(d, name, kind, parents).parentGraph, p, c) <==>
              Linked(d.parentGraph, p, c) || (p in parents && c == name)
    ensures forall p, c :: Linked(Grown(d, name, kind, parents).childGraph, c, p) <==>
              Linked(d.childGraph, c, p) || (p in parents && c == name)
  {
    forall p, c
      ensures Linked(Grown(d, name, kind, parents).parentGraph, p, c) <==>
              Linked(d.parentGraph, p, c) || (p in parents && c == name)
      ensures Linked(Grown(d, name, kind, parents).childGraph, c, p) <==>
              Linked(d.childGraph, c, p) || (p in parents && c == name)
    {
      WithParentsLinks(d.(batteries := d.batteries[name := kind]), parents, name, p, c);
    }
  }

  lemma GrownConsistent(d: Directory, name: Name, kind: Kind, parents: seq<Name>)
    requires Consistent(d) && CanGrow(d, name, kind, parents)
    ensures Consistent(Grown(d, name, kind, parents))
  {
    GrownLinks(d, name, kind, parents);
    WithParentsNonEmpty(d.(batteries := d.batteries[name := kind]), parents, name);
    var d' := Grown(d, name, kind, parents);
    forall p, c ensures Linked(d'.parentGraph, p, c) <==> Linked(d'.childGraph, c, p) {
      assert Linked(d.parentGraph, p, c) <==> Linked(d.childGraph, c, p);
    }
  }

  /** The new battery goes below everything else. */
  lemma GrownAcyclic(d: Directory, name: Name, kind: Kind, parents: seq<Name>)
    requires Consistent(d) && Acyclic(d) && CanGrow(d, name, kind, parents)
    ensures Acyclic(Grown(d, name, kind, parents))
  {
    var rank: Name -> nat :| Ranked(d.parentGraph, rank);
    var below: Name -> nat := n => if n == name then 0 else rank(n) + 1;
    GrownLinks(d, name, kind, parents);
    hide Grown, Linked;
    assert Ranked(Grown(d, name, kind, parents).parentGraph, below) by {
      forall p, c | Linked(Grown(d, name, kind, parents).parentGraph, p, c) ensures below(c) < below(p) {
        assert p in d.batteries;
      }
    }
  }

  lemma GrownShape(d: Directory, name: Name, kind: Kind, parents: seq<Name>)
    requires Invariant(d) && CanGrow(d, name, kind, parents)
    ensures PartitionsManaged(Grown(d, name, kind, parents)) && OneConsumer(Grown(d, name, kind, parents))
  {
    hide Acyclic;
    var d' := Grown(d, name, kind, parents);
    GrownLinks(d, name, kind, parents);
    forall p, a, b | Linked(d'.parentGraph, p, a) && Linked(d'.parentGraph, p, b) && a != b
      ensures a in d'.batteries && d'.batteries[a] == Partition(p)
    {
      if !kind.Partition? {
        assert p !in parents;
      }
    }
  }

  lemma {:induction false} WithParentsBalanced(d: Directory, parents: seq<Name>, child: Name)
    requires Balanced(d)
    ensures Balanced(WithParents(d, parents, child))
  {
    if parents != [] {
      WithParentsBalanced(d, parents[..|parents| - 1], child);
      WithEdgeBalanced(WithParents(d, parents[..|parents| - 1], child), parents[|parents| - 1], child);
    }
  }

  lemma GrownBalanced(d: Directory, name: Name, kind: Kind, parents: seq<Name>)
    requires Balanced(d)
    ensures Balanced(Grown(d, name, kind, parents))
  {
    var d' := d.(batteries := d.batteries[name := kind]);
    forall p, c ensures EdgeBalanced(d', p, c) {
      assert EdgeBalanced(d, p, c);
    }
    WithParentsBalanced(d', parents, name);
  }

  lemma GrownInvariant(d: Directory, name: Name, kind: Kind, parents: seq<Name>)
    requires Invariant(d) && CanGrow(d, name, kind, parents)
    ensures Invariant(Grown(d, name, kind, parents))
  {
    hide Consistent, Balanced, Acyclic, PartitionsManaged, OneConsumer;
    GrownConsistent(d, name, kind, parents);
    GrownBalanced(d, name, kind, parents);
    GrownAcyclic(d, name, kind, parents);
    GrownShape(d, name, kind, parents);
  }

  // ----- repeated edges -----

  function Copies(n: Name, k: nat): (r: seq<Name>)
    ensures |r| == k && forall i :: 0 <= i < k ==> r[i] == n
  {
    seq(k, i => n)
  }

  /** The children of a battery after growing: the old ones, and the new one as often as the battery is
      named among the parents. */
  lemma {:induction false} WithParentsList(d: Directory, parents: seq<Name>, child: Name, p: Name)
    ensures ListOf(WithParents(d, parents, child).parentGraph, p) ==
            ListOf(d.parentGraph, p) + Copies(child, Times(parents, p))
  {
    if parents != [] {
      WithParentsList(d, parents[..|parents| - 1], child, p);
      var k := Times(parents[..|parents| - 1], p);
      assert Copies(child, k + 1) == Copies(child, k) + [child];
    }
  }

  lemma {:induction false} TimesCopies(child: Name, k: nat)
    ensures Times(Copies(child, k), child) == k
  {
    if k > 0 {
      assert Copies(child, k)[..k - 1] == Copies(child, k - 1);
      TimesCopies(child, k - 1);
    }
  }

  lemma {:induction false} WithParentsOthers(d: Directory, parents: seq<Name>, child: Name, c: Name)
    requires c != child
    ensures c in WithParents(d, parents, child).childGraph <==> c in d.childGraph
    ensures ListOf(WithParents(d, parents, child).childGraph, c) == ListOf(d.childGraph, c)
  {
    if parents != [] {
      WithParentsOthers(d, parents[..|parents| - 1], child, c);
    }
  }

  lemma WithoutCopies(l: seq<Name>, child: Name, k: nat)
    requires child !in l
    ensures Without(l + Copies(child, k), {child}) == l
  {
    WithoutAppend(l, Copies(child, k), {child});
    WithoutAll(Copies(child, k), {child});
    WithoutNothing(l, {child});
  }

  /** A graph is what pruning another one leaves, if that is so list by list. */
  lemma PrunedIs(g: Graph, g': Graph, gone: set<Name>)
    requires forall n :: n in g ==> g[n] != [] && n !in gone
    requires forall n :: n !in gone ==> Without(ListOf(g', n), gone) == ListOf(g, n)
    ensures Pruned(g', gone) == g
  {
    var r := Pruned(g', gone);
    forall n ensures n in r <==> n in g {
      assert n !in gone ==> Without(ListOf(g', n), gone) == ListOf(g, n);
    }
    forall n | n in g ensures r[n] == g[n] {
      assert Without(ListOf(g', n), gone) == ListOf(g, n);
    }
  }

  /** A new name is nowhere in the graphs. */
  lemma NewName(d: Directory, name: Name, n: Name)
    requires Consistent(d) && name !in d.batteries
    ensures name !in ListOf(d.parentGraph, n) && name !in ListOf(d.childGraph, n)
    ensures name !in d.parentGraph && name !in d.childGraph
  {
    assert !Linked(d.parentGraph, n, name) && !Linked(d.parentGraph, name, n);
    if name in d.parentGraph {
      assert Linked(d.parentGraph, name, d.parentGraph[name][0]);
      assert false;
    }
    if name in d.childGraph {
      assert Linked(d.childGraph, name, d.childGraph[name][0]);
      assert false;
    }
  }

  lemma GrownParentsUndone(d: Directory, name: Name, kind: Kind, parents: seq<Name>)
    requires Consistent(d) && name !in d.batteries
    ensures Pruned(Grown(d, name, kind, parents).parentGraph, {name}) == d.parentGraph
  {
    var g, g' := d.parentGraph, Grown(d, name, kind, parents).parentGraph;
    NewName(d, name, name);
    forall n ensures Without(ListOf(g', n), {name}) == ListOf(g, n) {
      hide Consistent, WithParents, Without;
      NewName(d, name, n);
      WithParentsList(d.(batteries := d.batteries[name := kind]), parents, name, n);
      WithoutCopies(ListOf(g, n), name, Times(parents, n));
    }
    hide Grown;
    PrunedIs(g, g', {name});
  }

  lemma GrownChildrenUndone(d: Directory, name: Name, kind: Kind, parents: seq<Name>)
    requires Consistent(d) && name !in d.batteries
    ensures Pruned(Grown(d, name, kind, parents).childGraph, {name}) == d.childGraph
  {
    var g, g' := d.childGraph, Grown(d, name, kind, parents).childGraph;
    NewName(d, name, name);
    forall n | n != name ensures Without(ListOf(g', n), {name}) == ListOf(g, n) {
      hide Consistent, WithParents, Without;
      NewName(d, name, n);
      WithParentsOthers(d.(batteries := d.batteries[name := kind]), parents, name, n);
      WithoutNothing(ListOf(g, n), {name});
    }
    hide Grown;
    PrunedIs(g, g', {name});
  }

  /** Growing can be undone: taking the new battery out gives the directory back. */
  lemma GrownUndone(d: Directory, name: Name, kind: Kind, parents: seq<Name>)
    requires Consistent(d) && CanGrow(d, name, kind, parents)
    ensures Induced(Grown(d, name, kind, parents), {name}) == d
    ensures Closed(Grown(d, name, kind, parents), {name})
  {
    var d' := Grown(d, name, kind, parents);
    GrownParentsUndone(d, name, kind, parents);
    GrownChildrenUndone(d, name, kind, parents);
    assert d'.batteries == d.batteries[name := kind];
    hide Grown, Pruned;
    assert Induced(d', {name}).batteries == d.batteries;
    GrownLinks(d, name, kind, parents);
    NewName(d, name, name);
  }

  /** What a new aggregate does to the removal of any battery that was there before: it still succeeds, if it did, exactly
      if the source through which removal first reaches the aggregate is named once among the sources. The earlier
      topology may have repeats of its own. */
  lemma RepeatedSourceBlocks(d: Directory, name: Name, parents: seq<Name>, n: Name)
    requires Invariant(d) && CanGrow(d, name, Aggregate, parents) && n in d.batteries
    ensures Invariant(Grown(d, name, Aggregate, parents))
    ensures var d' := Grown(d, name, Aggregate, parents);
            ListedOnce(d', n) <==>
              && ListedOnce(d, n)
              && (name in Cone(d', n) ==> Times(parents, FirstParent(d', n, name)) == 1)
  {
    hide Consistent, Ranked, Grown, Cone, PartitionsManaged, OneConsumer, Times, FirstParent, Induced, Pruned;
    var d' := Grown(d, name, Aggregate, parents);
    GrownInvariant(d, name, Aggregate, parents);
    GrownUndone(d, name, Aggregate, parents);
    var rank: Name -> nat :| Ranked(d'.parentGraph, rank);
    InducedConsistent(d', rank, {name});
    hide CanGrow, Acyclic;
    forall x | x in Cone(d', n) && x != n && x != name
      ensures x in Cone(d, n)
      ensures Times(ListOf(d'.parentGraph, FirstParent(d', n, x)), x) == Times(ListOf(d.parentGraph, FirstParent(d, n, x)), x)
    {
      OlderListed(d, rank, name, parents, n, x);
    }
    InducedCone(d', rank, {name}, n);
    if name in Cone(d', n) {
      NewListed(d, name, parents, FirstParent(d', n, name));
    }
  }

  lemma OlderListed(d: Directory, rank: Name -> nat, name: Name, parents: seq<Name>, n: Name, x: Name)
    requires Invariant(d) && CanGrow(d, name, Aggregate, parents) && n in d.batteries
    requires Ranked(Grown(d, name, Aggregate, parents).parentGraph, rank) && Consistent(Grown(d, name, Aggregate, parents))
    requires x in Cone(Grown(d, name, Aggregate, parents), n) && x != n && x != name
    ensures var d' := Grown(d, name, Aggregate, parents);
            && x in Cone(d, n) && Acyclic(d')
            && Times(ListOf(d'.parentGraph, FirstParent(d', n, x)), x) == Times(ListOf(d.parentGraph, FirstParent(d, n, x)), x)
  {
    hide Grown, Cone;
    var d' := Grown(d, name, Aggregate, parents);
    GrownUndone(d, name, Aggregate, parents);
    FirstParentStays(d', rank, {name}, n, x);
    var p := FirstParent(d', n, x);
    InducedList(d', {name}, p);
    WithoutTimes(ListOf(d'.parentGraph, p), {name}, x);
  }

  lemma NewListed(d: Directory, name: Name, parents: seq<Name>, p: Name)
    requires Consistent(d) && name !in d.batteries
    ensures Times(ListOf(Grown(d, name, Aggregate, parents).parentGraph, p), name) == Times(parents, p)
  {
    WithParentsList(d.(batteries := d.batteries[name := Aggregate]), parents, name, p);
    TimesCopies(name, Times(parents, p));
    TimesAppend(ListOf(d.parentGraph, p), Copies(name, Times(parents, p)), name);
    TimesIs(ListOf(d.parentGraph, p), name);
    assert !Linked(d.parentGraph, p, name);
  }

  /** In particular, the directory can remove one of the sources exactly if that source is named once. */
  lemma SourceNamedOnce(d: Directory, name: Name, parents: seq<Name>, p: Name)
    requires Invariant(d) && CanGrow(d, name, Aggregate, parents) && p in parents
    ensures Invariant(Grown(d, name, Aggregate, parents))
    ensures ListedOnce(Grown(d, name, Aggregate, parents), p) <==> Times(parents, p) == 1
  {
    var d' := Grown(d, name, Aggregate, parents);
    RepeatedSourceBlocks(d, name, parents, p);
    GrownLinks(d, name, Aggregate, parents);
    InvariantAntichains(d');
    var rank: Name -> nat :| Ranked(d'.parentGraph, rank);
    FirstParentOfChild(d', rank, p, name);
    NothingBelow(d, p);
  }

  lemma NothingBelow(d: Directory, p: Name)
    requires Consistent(d) && Acyclic(d) && p !in d.parentGraph
    ensures ListedOnce(d, p) && Cone(d, p) <= {p}
  {
    forall x | x in Cone(d, p) ensures x == p {
      if x != p {
        var c := FirstStep(d.parentGraph, p, x);
        assert false;
      }
    }
  }

  /** The manager removes a partition together with its siblings, so there it is the first listed sibling leading to the
      aggregate that counts, here one that is itself a source. */
  lemma FirstListedSource(d: Directory, name: Name, parents: seq<Name>, m: Name, i: nat)
    requires Invariant(d) && CanGrow(d, name, Aggregate, parents) && m in d.batteries
    requires var d' := Grown(d, name, Aggregate, parents);
             var l := ListOf(d'.parentGraph, m);
             i < |l| && l[i] in parents && name !in Cones(d', l[..i])
    ensures Invariant(Grown(d, name, Aggregate, parents))
    ensures var d' := Grown(d, name, Aggregate, parents);
            var l := ListOf(d'.parentGraph, m);
            ListedOnce(d', m) <==> ListedOnce(d, m) && Times(parents, l[i]) == 1
  {
    var d' := Grown(d, name, Aggregate, parents);
    var l := ListOf(d'.parentGraph, m);
    RepeatedSourceBlocks(d, name, parents, m);
    GrownLinks(d, name, Aggregate, parents);
    GrownBatteries(d, name, Aggregate, parents);
    assert Linked(d'.parentGraph, l[i], name);
    InvariantAntichains(d');
    hide *;
    FirstParentVia(d', m, i, name);
  }

  lemma GrownNoRepeats(d: Directory, name: Name, kind: Kind, parents: seq<Name>)
    requires Invariant(d) && NoRepeats(d) && CanGrow(d, name, kind, parents)
    requires forall p :: Times(parents, p) <= 1
    ensures NoRepeats(Grown(d, name, kind, parents))
  {
    var d' := Grown(d, name, kind, parents);
    forall n, x ensures !Before(ListOf(d'.parentGraph, n), x, x) {
      var was, l := ListOf(d.parentGraph, n), ListOf(d'.parentGraph, n);
      WithParentsList(d.(batteries := d.batteries[name := kind]), parents, name, n);
      assert name !in was by {
        assert !Linked(d.parentGraph, n, name);
      }
      assert !Before(was, x, x) && |l| <= |was| + 1;
      forall i, j | 0 <= i < j < |l| ensures !(l[i] == x && l[j] == x) {
        assert j < |was| && was[i] == x && was[j] == x ==> Before(was, x, x);
      }
    }
  }

  // ----- removing -----

  lemma InducedInvariant(d: Directory, gone: set<Name>)
    requires Invariant(d) && Closed(d, gone)
    ensures Invariant(Induced(d, gone))
  {
    var rank: Name -> nat :| Ranked(d.parentGraph, rank);
    InducedConsistent(d, rank, gone);
    InducedBalanced(d, gone);
    hide Balanced, Consistent;
    var d' := Induced(d, gone);
    forall a, b ensures Linked(d'.parentGraph, a, b) <==> Linked(d.parentGraph, a, b) && a !in gone && b !in gone {
      PrunedLinks(d.parentGraph, gone, a, b);
    }
  }

  lemma InducedNoRepeats(d: Directory, gone: set<Name>)
    requires NoRepeats(d)
    ensures NoRepeats(Induced(d, gone))
  {
    forall n, x ensures !Before(ListOf(Induced(d, gone).parentGraph, n), x, x) {
      assert !Before(ListOf(d.parentGraph, n), x, x);
      if Before(ListOf(Induced(d, gone).parentGraph, n), x, x) {
        WithoutBefore(d.parentGraph[n], gone, x, x);
      }
    }
  }

  // ----- the operations of the manager -----

  /** The two proportions of a partition. */
  datatype Scale = Scale(charge: real, capacity: real)

  function TotalScale(scales: seq<Scale>): (r: Scale)
  {
    if scales == [] then Scale(0.0, 0.0)
    else
      var front, last := TotalScale(scales[..|scales| - 1]), scales[|scales| - 1];
      Scale(front.charge + last.charge, front.capacity + last.capacity)
  }

  function Decimal(n: nat): (r: string)
  {
    if n < 10 then ["0123456789"[n]] else Decimal(n / 10) + ["0123456789"[n % 10]]
  }

  function ManagerName(counter: nat): (r: Name)
  {
    "pManager" + Decimal(counter)
  }

  /** The process ends when a manager's name is already taken. */
  datatype World = World(directory: Directory, counter: nat, exited: bool)

  predicate Free(d: Directory, n: Name)
  {
    n in d.batteries && n !in d.parentGraph
  }

  predicate CanAggregate(d: Directory, name: Name, parents: seq<Name>, idle: Name -> bool)
  {
    && parents != [] && name !in d.batteries
    && forall p :: p in parents ==> Free(d, p) && idle(p)
  }

  predicate CanPartition(d: Directory, source: Name, names: seq<Name>, scales: seq<Scale>, idle: Name -> bool)
  {
    && TotalScale(scales) == Scale(1.0, 1.0) && |names| == |scales|
    && Free(d, source) && idle(source)
  }

  /** The partitions are added one by one until a name is taken; what was added stays. */
  function Partitioned(d: Directory, manager: Name, names: seq<Name>): (r: (Directory, bool))
    decreases |names|
  {
    if names == [] then (d, true)
    else
      var name := names[|names| - 1];
      var before := Partitioned(d, manager, names[..|names| - 1]);
      if !before.1 || name in before.0.batteries then (before.0, false)
      else (Grown(before.0, name, Partition(manager), [manager]), true)
  }

  /** A partition cannot be removed alone: its manager goes, with all of its partitions. */
  function Target(d: Directory, n: Name): (r: Name)
  {
    if n in d.batteries && d.batteries[n].Partition? then d.batteries[n].manager else n
  }

  datatype Op =
    | CreatePlain(name: Name)
    | CreateAggregate(name: Name, parents: seq<Name>, idle: Name -> bool)
    | CreatePartition(source: Name, names: seq<Name>, scales: seq<Scale>, idle: Name -> bool)
    | Remove(name: Name)

  ghost function Step(w: World, op: Op): (r: World)
  {
    var d := w.directory;
    if w.exited then w
    else
      match op
      case CreatePlain(name) =>
        if name in d.batteries then w else w.(directory := Grown(d, name, Plain, []))
      case CreateAggregate(name, parents, idle) =>
        if CanAggregate(d, name, parents, idle) then w.(directory := Grown(d, name, Aggregate, parents)) else w
      case CreatePartition(source, names, scales, idle) =>
        var manager := ManagerName(w.counter);
        if !CanPartition(d, source, names, scales, idle) then w
        else if manager in d.batteries then w.(counter := w.counter + 1, exited := true)
        else
          World(Partitioned(Grown(d, manager, Manager, [source]), manager, names).0, w.counter + 1, false)
      case Remove(name) =>
        if Acyclic(d) then w.(directory := Induced(d, Gone(d, Target(d, name)))) else w
  }

  /** The one thing asked of the callers: an aggregate's sources are all different. */
  ghost predicate DistinctSources(op: Op)
  {
    op.CreateAggregate? ==> forall p :: Times(op.parents, p) <= 1
  }

  ghost predicate Good(d: Directory)
  {
    Invariant(d) && NoRepeats(d)
  }

  lemma GrownGood(d: Directory, name: Name, kind: Kind, parents: seq<Name>)
    requires Good(d) && CanGrow(d, name, kind, parents) && forall p :: Times(parents, p) <= 1
    ensures Good(Grown(d, name, kind, parents))
  {
    GrownInvariant(d, name, kind, parents);
    GrownNoRepeats(d, name, kind, parents);
  }

  /** Everything below the manager is one of its partitions. */
  ghost predicate OnlyPartitions(d: Directory, manager: Name)
  {
    && manager in d.batteries && d.batteries[manager] == Manager
    && forall c :: Linked(d.parentGraph, manager, c) ==> c in d.batteries && d.batteries[c] == Partition(manager)
  }

  lemma AddPartition(d: Directory, manager: Name, name: Name)
    requires Invariant(d) && OnlyPartitions(d, manager) && name !in d.batteries
    ensures var d' := Grown(d, name, Partition(manager), [manager]);
            && Invariant(d') && OnlyPartitions(d', manager)
            && (NoRepeats(d) ==> NoRepeats(d'))
  {
    GrownInvariant(d, name, Partition(manager), [manager]);
    GrownLinks(d, name, Partition(manager), [manager]);
    if NoRepeats(d) {
      GrownNoRepeats(d, name, Partition(manager), [manager]);
    }
  }

  lemma {:induction false} PartitionedInvariant(d: Directory, manager: Name, names: seq<Name>)
    requires Invariant(d) && OnlyPartitions(d, manager)
    ensures var d' := Partitioned(d, manager, names).0;
            && Invariant(d') && OnlyPartitions(d', manager)
            && (NoRepeats(d) ==> NoRepeats(d'))
    decreases |names|
  {
    hide Invariant, NoRepeats, OnlyPartitions;
    if names != [] {
      PartitionedInvariant(d, manager, names[..|names| - 1]);
      var before, name := Partitioned(d, manager, names[..|names| - 1]), names[|names| - 1];
      if before.1 && name !in before.0.batteries {
        AddPartition(before.0, manager, name);
      }
    }
  }

  lemma NewManager(d: Directory, manager: Name, source: Name)
    requires Invariant(d) && Free(d, source) && manager !in d.batteries
    ensures var d' := Grown(d, manager, Manager, [source]);
            && Invariant(d') && OnlyPartitions(d', manager)
            && (NoRepeats(d) ==> NoRepeats(d'))
  {
    GrownInvariant(d, manager, Manager, [source]);
    GrownLinks(d, manager, Manager, [source]);
    if NoRepeats(d) {
      GrownNoRepeats(d, manager, Manager, [source]);
    }
  }

  lemma GoneClosed(d: Directory, n: Name)
    requires Invariant(d)
    ensures Closed(d, Gone(d, n))
  {
    var rank: Name -> nat :| Ranked(d.parentGraph, rank);
    GoneIs(d, rank, n);
    RemovedIs(d, rank, n);
  }

  lemma RemovedInvariant(d: Directory, n: Name)
    requires Invariant(d)
    ensures Invariant(Induced(d, Gone(d, n)))
    ensures NoRepeats(d) ==> NoRepeats(Induced(d, Gone(d, n)))
  {
    GoneClosed(d, n);
    InducedInvariant(d, Gone(d, n));
    if NoRepeats(d) {
      InducedNoRepeats(d, Gone(d, n));
    }
  }

  /** Exactly the target and everything below it goes if everything below it is listed once on the way down; otherwise the
      target stays, and something below it goes with all that is below that. */
  lemma GoneExactly(d: Directory, n: Name)
    requires Invariant(d) && n in d.batteries
    ensures if ListedOnce(d, n) then Gone(d, n) == Cone(d, n)
            else Gone(d, n) != {} && Closed(d, Gone(d, n)) && Gone(d, n) <= Cone(d, n) - {n}
  {
    var rank: Name -> nat :| Ranked(d.parentGraph, rank);
    InvariantAntichains(d);
    RemovableExactly(d, rank, n);
    hide Balanced, PartitionsManaged, OneConsumer, Antichains;
    GoneIs(d, rank, n);
    RemovedIs(d, rank, n);
  }

  lemma StepGood(w: World, op: Op)
    requires Good(w.directory) && DistinctSources(op)
    ensures Good(Step(w, op).directory)
  {
    hide Invariant, NoRepeats, Cone;
    var d := w.directory;
    match op
    case CreatePlain(name) =>
      if name !in d.batteries {
        GrownGood(d, name, Plain, []);
      }
    case CreateAggregate(name, parents, idle) =>
      if CanAggregate(d, name, parents, idle) {
        GrownGood(d, name, Aggregate, parents);
      }
    case CreatePartition(source, names, scales, idle) =>
      var manager := ManagerName(w.counter);
      if CanPartition(d, source, names, scales, idle) && manager !in d.batteries {
        NewManager(d, manager, source);
        PartitionedInvariant(Grown(d, manager, Manager, [source]), manager, names);
      }
    case Remove(name) => RemovedInvariant(d, Target(d, name));
  }

  ghost function Run(w: World, ops: seq<Op>): (r: World)
  {
    if ops == [] then w else Step(Run(w, ops[..|ops| - 1]), ops[|ops| - 1])
  }

  function Empty(): (w: World)
  {
    World(Directory(map[], map[], map[]), 1, false)
  }

  /** The topology invariant holds in every state that the manager can reach. */
  lemma {:induction false} ReachableIsGood(ops: seq<Op>)
    requires forall i :: 0 <= i < |ops| ==> DistinctSources(ops[i])
    ensures Good(Run(Empty(), ops).directory)
  {
    if ops == [] {
      var rank: Name -> nat := n => 0;
      assert Ranked(Empty().directory.parentGraph, rank);
    } else {
      ReachableIsGood(ops[..|ops| - 1]);
      StepGood(Run(Empty(), ops[..|ops| - 1]), ops[|ops| - 1]);
    }
  }

  /** Nothing is listed twice, so everything can be removed. */
  lemma GoodIsRemovable(d: Directory, n: Name)
    requires Good(d)
    ensures ListedOnce(d, n)
  {
    forall x | x in Cone(d, n) && x != n ensures Times(ListOf(d.parentGraph, FirstParent(d, n, x)), x) == 1 {
      TimesIs(ListOf(d.parentGraph, FirstParent(d, n, x)), x);
    }
  }

  // ----- runs in which sources may be repeated -----

  /** A removal that is stopped by a repeat. */
  ghost predicate Stuck(w: World, op: Op)
  {
    var d := w.directory;
    op.Remove? && !w.exited && Invariant(d) && op.name in d.batteries && !ListedOnce(d, Target(d, op.name))
  }

  lemma StepInvariant(w: World, op: Op)
    requires Invariant(w.directory)
    ensures Invariant(Step(w, op).directory)
  {
    hide Invariant, NoRepeats, Cone;
    var d := w.directory;
    match op
    case CreatePlain(name) =>
      if name !in d.batteries {
        GrownInvariant(d, name, Plain, []);
      }
    case CreateAggregate(name, parents, idle) =>
      if CanAggregate(d, name, parents, idle) {
        GrownInvariant(d, name, Aggregate, parents);
      }
    case CreatePartition(source, names, scales, idle) =>
      var manager := ManagerName(w.counter);
      if CanPartition(d, source, names, scales, idle) && manager !in d.batteries {
        NewManager(d, manager, source);
        PartitionedInvariant(Grown(d, manager, Manager, [source]), manager, names);
      }
    case Remove(name) => RemovedInvariant(d, Target(d, name));
  }

  /** Whatever callers do, repeated sources and stuck removals included, the two maps list the same edges equally often, are
      acyclic, and every battery feeds one consumer or is a manager of partitions. */
  lemma {:induction false} RunInvariant(ops: seq<Op>)
    ensures Invariant(Run(Empty(), ops).directory)
  {
    if ops == [] {
      ReachableIsGood([]);
    } else {
      RunInvariant(ops[..|ops| - 1]);
      StepInvariant(Run(Empty(), ops[..|ops| - 1]), ops[|ops| - 1]);
    }
  }

  // ----- removals that get stuck -----

  lemma CreateStep(w: World, name: Name, parents: seq<Name>, idle: Name -> bool)
    requires !w.exited && CanAggregate(w.directory, name, parents, idle)
    ensures Step(w, CreateAggregate(name, parents, idle)) == w.(directory := Grown(w.directory, name, Aggregate, parents))
  {
    hide Grown, CanAggregate;
  }

  lemma RemoveStep(w: World, n: Name)
    requires !w.exited && Acyclic(w.directory)
    ensures Step(w, Remove(n)) == w.(directory := Induced(w.directory, Gone(w.directory, Target(w.directory, n))))
  {
    hide Acyclic, Induced, Gone, Target;
  }

  /** After a new aggregate, removing an older battery gets stuck exactly if its target does not list everything once. */
  lemma StuckAfter(w: World, name: Name, parents: seq<Name>, idle: Name -> bool, n: Name)
    requires !w.exited && Invariant(w.directory) && CanAggregate(w.directory, name, parents, idle)
    requires n in w.directory.batteries
    ensures Invariant(Grown(w.directory, name, Aggregate, parents))
    ensures Stuck(Step(w, CreateAggregate(name, parents, idle)), Remove(n)) <==>
            !ListedOnce(Grown(w.directory, name, Aggregate, parents), Target(w.directory, n))
  {
    GrownInvariant(w.directory, name, Aggregate, parents);
    GrownBatteries(w.directory, name, Aggregate, parents);
    CreateStep(w, name, parents, idle);
    hide Step, Grown, ListedOnce, CanAggregate, Consistent, Balanced, Acyclic, PartitionsManaged, OneConsumer;
  }

  ghost function Source(): (w: World)
  {
    Step(Empty(), CreatePlain("s"))
  }

  lemma SourceIs()
    ensures Source() == World(Directory(map["s" := Plain], map[], map[]), 1, false)
    ensures Good(Source().directory)
  {
    ReachableIsGood([]);
    StepGood(Empty(), CreatePlain("s"));
  }

  /** An aggregate that names its source twice: removing the source gets stuck after the aggregate, and succeeds when it is
      asked for again. */
  lemma RepeatedSource(idle: Name -> bool)
    requires idle("s")
    ensures var w := Step(Source(), CreateAggregate("A", ["s", "s"], idle));
            && Stuck(w, Remove("s"))
            && Step(w, Remove("s")) == Source()
            && !Stuck(Source(), Remove("s"))
  {
    hide Grown, Step, Source, Invariant, NoRepeats, ListedOnce;
    SourceIs();
    var w, parents := Source(), ["s", "s"];
    var d := w.directory;
    assert CanAggregate(d, "A", parents, idle);
    assert Target(d, "s") == "s" && CanGrow(d, "A", Aggregate, parents);
    GoodIsRemovable(d, "s");
    assert !Stuck(w, Remove("s"));
    StandsBefore(parents, 0, 1);
    TimesIs(parents, "s");
    hide *;
    StuckAfter(w, "A", parents, idle, "s");
    SourceNamedOnce(d, "A", parents, "s");
    BackAgain(w, "A", parents, "s", idle);
  }

  /** When only the aggregate is below one of its sources, a removal of that source that gets stuck takes out the aggregate
      and nothing else. */
  lemma BackAgain(w: World, name: Name, parents: seq<Name>, p: Name, idle: Name -> bool)
    requires !w.exited && Invariant(w.directory) && CanAggregate(w.directory, name, parents, idle)
    requires p in parents && Target(w.directory, p) == p && Times(parents, p) != 1
    ensures Step(Step(w, CreateAggregate(name, parents, idle)), Remove(p)) == w
  {
    var d := w.directory;
    OneGone(d, name, parents, p);
    GrownBatteries(d, name, Aggregate, parents);
    CreateStep(w, name, parents, idle);
    hide Step, Grown, Induced, Invariant, Gone, Times, Acyclic;
    RemoveStep(w.(directory := Grown(d, name, Aggregate, parents)), p);
  }

  lemma OneGone(d: Directory, name: Name, parents: seq<Name>, p: Name)
    requires Invariant(d) && CanGrow(d, name, Aggregate, parents) && p in parents && Times(parents, p) != 1
    ensures var d' := Grown(d, name, Aggregate, parents);
            Acyclic(d') && Induced(d', Gone(d', p)) == d
  {
    hide Balanced, PartitionsManaged, OneConsumer, Grown, Induced, Closed, ListedOnce, Times, Consistent, Acyclic;
    var d' := Grown(d, name, Aggregate, parents);
    SourceNamedOnce(d, name, parents, p);
    GrownUndone(d, name, Aggregate, parents);
    GrownBatteries(d, name, Aggregate, parents);
    OnlyBelow(d, name, parents, p);
    GoneExactly(d', p);
    assert Gone(d', p) == {name};
  }

  lemma OnlyBelow(d: Directory, name: Name, parents: seq<Name>, p: Name)
    requires Invariant(d) && CanGrow(d, name, Aggregate, parents) && p in parents
    ensures Cone(Grown(d, name, Aggregate, parents), p) <= {p, name}
  {
    var d' := Grown(d, name, Aggregate, parents);
    GrownLinks(d, name, Aggregate, parents);
    NewName(d, name, name);
    hide Grown;
    forall x | x in Cone(d', p) && x != p ensures x == name {
      var c := FirstStep(d'.parentGraph, p, x);
      assert c == name;
      if x != name {
        var e := FirstStep(d'.parentGraph, name, x);
        assert false;
      }
    }
  }

  /** A source split in two halves. */
  ghost function Halves(idle: Name -> bool): (w: World)
  {
    Step(Source(), CreatePartition("s", ["p1", "p2"], [Scale(0.5, 0.5), Scale(0.5, 0.5)], idle))
  }

  const MANAGER: Name := "pManager1"

  /** The directory of the halves. */
  ghost predicate AreHalves(d: Directory)
  {
    && d.batteries == map["s" := Plain, MANAGER := Manager, "p1" := Partition(MANAGER), "p2" := Partition(MANAGER)]
    && d.parentGraph == map["s" := [MANAGER], MANAGER := ["p1", "p2"]]
  }

  lemma DifferentNames()
    ensures MANAGER !in {"s", "p1", "p2", "A"}
  {
    assert |MANAGER| == 9;
  }

  /** One more battery at the end of one list. */
  lemma GrownGraph(d: Directory, name: Name, kind: Kind, parent: Name)
    ensures var d' := Grown(d, name, kind, [parent]);
            && d'.batteries == d.batteries[name := kind]
            && d'.parentGraph == d.parentGraph[parent := ListOf(d.parentGraph, parent) + [name]]
  {
    GrownByOne(d, name, kind, parent);
  }

  lemma OneHalfAdded(d: Directory)
    requires d.batteries == map["s" := Plain, MANAGER := Manager] && d.parentGraph == map["s" := [MANAGER]]
    ensures var (d', ok) := Partitioned(d, MANAGER, ["p1"]);
            && ok && d'.batteries == map["s" := Plain, MANAGER := Manager, "p1" := Partition(MANAGER)]
            && d'.parentGraph == map["s" := [MANAGER], MANAGER := ["p1"]]
  {
    DifferentNames();
    hide Grown, MANAGER;
    assert ["p1"][..0] == [];
    assert Partitioned(d, MANAGER, []) == (d, true);
    GrownGraph(d, "p1", Partition(MANAGER), MANAGER);
    assert ListOf(d.parentGraph, MANAGER) + ["p1"] == ["p1"];
  }

  lemma HalvesAdded(d: Directory)
    requires d.batteries == map["s" := Plain, MANAGER := Manager] && d.parentGraph == map["s" := [MANAGER]]
    ensures Partitioned(d, MANAGER, ["p1", "p2"]).1 && AreHalves(Partitioned(d, MANAGER, ["p1", "p2"]).0)
  {
    DifferentNames();
    hide Grown, MANAGER;
    OneHalfAdded(d);
    var d1 := Partitioned(d, MANAGER, ["p1"]).0;
    assert ["p1", "p2"][..1] == ["p1"];
    GrownGraph(d1, "p2", Partition(MANAGER), MANAGER);
    assert ListOf(d1.parentGraph, MANAGER) + ["p2"] == ["p1", "p2"];
  }

  lemma HalvesAre(idle: Name -> bool)
    requires idle("s")
    ensures Good(Halves(idle).directory) && !Halves(idle).exited && AreHalves(Halves(idle).directory)
  {
    hide Good, Grown, AreHalves, Partitioned;
    var names, scales := ["p1", "p2"], [Scale(0.5, 0.5), Scale(0.5, 0.5)];
    SourceIs();
    StepGood(Source(), CreatePartition("s", names, scales, idle));
    ScalesOfHalves(scales);
    assert ManagerName(1) == MANAGER;
    DifferentNames();
    hide Source, ManagerName, MANAGER, TotalScale;
    var d := Source().directory;
    GrownGraph(d, MANAGER, Manager, "s");
    assert ListOf(d.parentGraph, "s") + [MANAGER] == [MANAGER];
    HalvesAdded(Grown(d, MANAGER, Manager, ["s"]));
  }

  lemma ScalesOfHalves(scales: seq<Scale>)
    requires scales == [Scale(0.5, 0.5), Scale(0.5, 0.5)]
    ensures TotalScale(scales) == Scale(1.0, 1.0)
  {
    assert scales[..1] == [Scale(0.5, 0.5)] && [Scale(0.5, 0.5)][..0] == [];
    assert TotalScale([Scale(0.5, 0.5)]) == Scale(0.5, 0.5);
  }

  lemma AggregateHalves(d: Directory, parents: seq<Name>)
    requires Good(d) && AreHalves(d) && parents != [] && forall p :: p in parents ==> p in {"p1", "p2"}
    ensures Invariant(Grown(d, "A", Aggregate, parents))
    ensures ListOf(Grown(d, "A", Aggregate, parents).parentGraph, MANAGER) == ["p1", "p2"]
    ensures ListOf(Grown(d, "A", Aggregate, parents).parentGraph, "p1") == Copies("A", Times(parents, "p1"))
  {
    GrownInvariant(d, "A", Aggregate, parents);
    DifferentNames();
    hide Good, Invariant, MANAGER;
    WithParentsList(d.(batteries := d.batteries["A" := Aggregate]), parents, "A", MANAGER);
    WithParentsList(d.(batteries := d.batteries["A" := Aggregate]), parents, "A", "p1");
    TimesIs(parents, MANAGER);
  }

  lemma HalvesRemovable(d: Directory, parents: seq<Name>)
    requires Good(d) && AreHalves(d) && parents != [] && forall p :: p in parents ==> p in {"p1", "p2"}
    ensures Invariant(Grown(d, "A", Aggregate, parents))
    ensures ListedOnce(Grown(d, "A", Aggregate, parents), MANAGER) <==>
            Times(parents, if "p1" in parents then "p1" else "p2") == 1
  {
    var d' := Grown(d, "A", Aggregate, parents);
    assert CanGrow(d, "A", Aggregate, parents);
    DifferentNames();
    AggregateHalves(d, parents);
    GoodIsRemovable(d, MANAGER);
    assert MANAGER in d.batteries;
    hide Grown, CanGrow, NoRepeats, PartitionsManaged, OneConsumer, AreHalves, Cone, Consistent;
    var l := ListOf(d'.parentGraph, MANAGER);
    if "p1" in parents {
      FirstListedSource(d, "A", parents, MANAGER, 0);
    } else {
      assert parents[0] in parents;
      TimesIs(parents, "p1");
      NoChildren(d', "p1");
      NothingBelow(d', "p1");
      OutsideCones(d', l, 1, "A");
      FirstListedSource(d, "A", parents, MANAGER, 1);
    }
  }

  lemma NoChildren(d: Directory, n: Name)
    requires Consistent(d) && ListOf(d.parentGraph, n) == []
    ensures n !in d.parentGraph
  {
  }

  /** An aggregate of the two halves, in any order and with any repeats: removing either half succeeds exactly if the
      first half, or the second if the first is no source, is named once. */
  lemma RepeatedHalves(idle: Name -> bool, parents: seq<Name>, half: Name)
    requires idle("s") && idle("p1") && idle("p2") && half in {"p1", "p2"}
    requires parents != [] && forall p :: p in parents ==> p in {"p1", "p2"}
    ensures var w := Step(Halves(idle), CreateAggregate("A", parents, idle));
            Stuck(w, Remove(half)) <==> Times(parents, if "p1" in parents then "p1" else "p2") != 1
  {
    hide *;
    HalvesAre(idle);
    HalvesCanAggregate(Halves(idle).directory, parents, idle);
    HalvesRemovable(Halves(idle).directory, parents);
    StuckAfter(Halves(idle), "A", parents, idle, half);
  }

  lemma HalvesCanAggregate(d: Directory, parents: seq<Name>, idle: Name -> bool)
    requires Good(d) && AreHalves(d) && idle("p1") && idle("p2")
    requires parents != [] && forall p :: p in parents ==> p in {"p1", "p2"}
    ensures Invariant(d) && CanAggregate(d, "A", parents, idle)
    ensures forall half :: half in {"p1", "p2"} ==> half in d.batteries && Target(d, half) == MANAGER
  {
    DifferentNames();
  }

  /** The second half is named once and cannot be removed, or named twice and can. */
  lemma NamedOnceIsNotIt(idle: Name -> bool)
    requires idle("s") && idle("p1") && idle("p2")
    ensures Stuck(Step(Halves(idle), CreateAggregate("A", ["p1", "p1", "p2"], idle)), Remove("p2"))
    ensures !Stuck(Step(Halves(idle), CreateAggregate("A", ["p1", "p2", "p2"], idle)), Remove("p2"))
  {
    hide Stuck, Step, Halves;
    RepeatedHalves(idle, ["p1", "p1", "p2"], "p2");
    RepeatedHalves(idle, ["p1", "p2", "p2"], "p2");
    var one: seq<Name> := ["p1"];
    assert one[..0] == [] && Times(one, "p1") == 1;
    assert ["p1", "p1"][..1] == one && ["p1", "p2"][..1] == one;
    assert Times(["p1", "p1"], "p1") == 2 && Times(["p1", "p2"], "p1") == 1;
    assert ["p1", "p1", "p2"][..2] == ["p1", "p1"] && ["p1", "p2", "p2"][..2] == ["p1", "p2"];
    assert "p1" in ["p1", "p1", "p2"] && "p1" in ["p1", "p2", "p2"];
  }

  /** In every state reached with distinct sources, every battery is removable, turn by turn. */
  lemma ReachableIsRemovable(ops: seq<Op>, rank: Name -> nat, n: Name)
    requires forall i :: 0 <= i < |ops| ==> DistinctSources(ops[i])
    requires var d := Run(Empty(), ops).directory; Ranked(d.parentGraph, rank) && n in d.batteries
    ensures Removable(Run(Empty(), ops).directory, rank, n)
  {
    hide Run;
    ReachableIsGood(ops);
    var d := Run(Empty(), ops).directory;
    InvariantAntichains(d);
    GoodIsRemovable(d, n);
    RemovableExactly(d, rank, n);
  }

  /** The partitions of a manager go together: removing any one of them removes all of them. */
  lemma PartitionsGoTogether(d: Directory, n: Name, sibling: Name)
    requires Invariant(d) && n in d.batteries && d.batteries[n].Partition?
    requires sibling in d.batteries && d.batteries[sibling] == d.batteries[n]
    ensures {n, sibling, Target(d, n)} <= Cone(d, Target(d, n))
  {
    var m := d.batteries[n].manager;
    ReachSelf(d.parentGraph, m);
    ReachLast(d.parentGraph, m, m, n);
    ReachLast(d.parentGraph, m, m, sibling);
  }

  // ----- the imperative form -----

  lemma GrownByOne(d: Directory, name: Name, kind: Kind, parent: Name)
    ensures Grown(d, name, kind, [parent]) == WithEdge(d.(batteries := d.batteries[name := kind]), parent, name)
  {
    var d' := d.(batteries := d.batteries[name := kind]);
    assert [parent][..0] == [];
    assert WithParents(d', [], name) == d';
    assert WithParents(d', [parent], name) == WithEdge(WithParents(d', [], name), parent, name);
  }

  /** Once a name is taken, the rest of the names does not matter. */
  lemma {:induction false} PartitionedStops(d: Directory, manager: Name, names: seq<Name>, i: nat)
    requires i <= |names| && !Partitioned(d, manager, names[..i]).1
    ensures Partitioned(d, manager, names) == Partitioned(d, manager, names[..i])
    decreases |names|
  {
    if i == |names| {
      assert names[..i] == names;
    } else {
      assert names[..|names| - 1][..i] == names[..i];
      PartitionedStops(d, manager, names[..|names| - 1], i);
    }
  }

  class BatteryDirectoryManager {
    const directory: BatteryDirectory
    var pManagerCounter: nat
    var exited: bool

    ghost function Value(): (w: World)
      reads this, directory
    {
      World(directory.Value(), pManagerCounter, exited)
    }

    ghost predicate Valid()
      reads this, directory
    {
      Invariant(directory.Value())
    }

    constructor ()
      ensures Valid() && Value() == Empty() && fresh(directory)
    {
      pManagerCounter, exited := 1, false;
      directory := new BatteryDirectory();
      new;
      ReachableIsGood([]);
    }

    /** The edges from each parent to a battery that is there already. */
    method AddEdges(parents: seq<Name>, child: Name)
      requires child in directory.batteryMap
      requires forall p :: p in parents ==> p in directory.batteryMap
      modifies directory
      ensures directory.Value() == WithParents(old(directory.Value()), parents, child)
    {
      ghost var d := directory.Value();
      for i := 0 to |parents|
        invariant directory.Value() == WithParents(d, parents[..i], child)
      {
        assert parents[..i + 1][..i] == parents[..i];
        var ok := directory.AddEdge(parents[i], child);
      }
      assert parents[..|parents|] == parents;
    }

    /** Physical, dynamic and secure batteries. */
    method CreatePlainBattery(name: Name) returns (ok: bool)
      requires Valid() && !exited
      modifies this, directory
      ensures Valid()
      ensures ok == (name !in old(directory.batteryMap))
      ensures Value() == Step(old(Value()), CreatePlain(name))
    {
      if name !in directory.batteryMap {
        GrownInvariant(directory.Value(), name, Plain, []);
      }
      ok := directory.AddBattery(name, Plain);
    }

    method CreateAggregateBattery(name: Name, parentNames: seq<Name>, idle: Name -> bool) returns (ok: bool)
      requires Valid() && !exited
      modifies this, directory
      ensures Valid()
      ensures ok == (&& parentNames != [] && name !in old(directory.batteryMap)
                     && forall p :: p in parentNames ==>
                          p in old(directory.batteryMap) && p !in old(directory.parentGraph) && idle(p))
      ensures Value() == Step(old(Value()), CreateAggregate(name, parentNames, idle))
    {
      ghost var d := directory.Value();
      for i := 0 to |parentNames|
        invariant directory.Value() == d && Value() == old(Value())
        invariant forall j :: 0 <= j < i ==> Free(d, parentNames[j]) && idle(parentNames[j])
      {
        var p := parentNames[i];
        if p !in directory.batteryMap || !idle(p) || !directory.CanBeSource(p) {
          assert p in parentNames;
          return false;
        }
      }
      if parentNames == [] {
        return false;
      }
      ok := directory.AddBattery(name, Aggregate);
      if !ok {
        return;
      }
      assert CanAggregate(d, name, parentNames, idle);
      GrownInvariant(d, name, Aggregate, parentNames);
      AddEdges(parentNames, name);
    }

    /** `createPartitionBattery`; `ok` is false when the returned vector is empty. */
    method CreatePartitionBattery(source: Name, names: seq<Name>, scales: seq<Scale>, idle: Name -> bool)
      returns (ok: bool)
      requires Valid() && !exited
      modifies this, directory
      ensures Valid()
      ensures Value() == Step(old(Value()), CreatePartition(source, names, scales, idle))
      ensures ok ==> && TotalScale(scales) == Scale(1.0, 1.0) && |names| == |scales|
                     && source in old(directory.batteryMap) && source !in old(directory.parentGraph) && idle(source)
      ensures var d, manager := old(directory.Value()), ManagerName(old(pManagerCounter));
              ok == (&& CanPartition(d, source, names, scales, idle) && manager !in d.batteries
                     && Partitioned(Grown(d, manager, Manager, [source]), manager, names).1)
    {
      hide Invariant;
      var total := AddScales(scales);
      if total.charge != 1.0 || total.capacity != 1.0 || |names| != |scales| || !directory.CanBeSource(source) {
        return false;
      }
      if !idle(source) {
        return false;
      }
      ghost var d := directory.Value();
      var manager := ManagerName(pManagerCounter);
      pManagerCounter := pManagerCounter + 1;
      ok := directory.AddBattery(manager, Manager);
      if !ok {
        exited := true;
        return;
      }
      NewManager(d, manager, source);
      AddEdges([source], manager);
      PartitionedInvariant(Grown(d, manager, Manager, [source]), manager, names);
      ok := AddPartitions(manager, names);
    }

    /** The last loop of `createPartitionBattery`. */
    method AddPartitions(manager: Name, names: seq<Name>) returns (ok: bool)
      requires manager in directory.batteryMap
      modifies directory
      ensures (directory.Value(), ok) == Partitioned(old(directory.Value()), manager, names)
    {
      ghost var d := directory.Value();
      for i := 0 to |names|
        invariant (directory.Value(), true) == Partitioned(d, manager, names[..i])
        invariant manager in directory.batteryMap
      {
        assert names[..i + 1][..i] == names[..i];
        ok := directory.AddBattery(names[i], Partition(manager));
        if !ok {
          PartitionedStops(d, manager, names, i + 1);
          return;
        }
        var _ := directory.AddEdge(manager, names[i]);
        GrownByOne(Partitioned(d, manager, names[..i]).0, names[i], Partition(manager), manager);
      }
      assert names[..|names|] == names;
      ok := true;
    }

    /** `BatteryDirectoryManager::removeBattery`. It succeeds exactly for the names that exist and whose target lists
        everything below it once on the way down, and then removes exactly the target and everything below it. Without
        repeated edges that is every name that exists. */
    method RemoveBattery(name: Name) returns (ok: bool)
      requires Valid() && !exited
      modifies this, directory
      ensures Valid()
      ensures ok <==> name in old(directory.batteryMap) &&
                      old(ListedOnce(directory.Value(), Target(directory.Value(), name)))
      ensures Value() == Step(old(Value()), Remove(name))
      ensures ok ==> directory.Value() ==
                     old(Induced(directory.Value(), Cone(directory.Value(), Target(directory.Value(), name))))
      ensures old(NoRepeats(directory.Value())) ==>
                ok == (name in old(directory.batteryMap)) && NoRepeats(directory.Value())
    {
      hide Balanced, PartitionsManaged, OneConsumer, Induced, NoRepeats, ListedOnce;
      ghost var d := directory.Value();
      if name !in directory.batteryMap {
        MissingGone(d, name);
        return false;
      }
      var target := if directory.batteryMap[name].Partition? then directory.batteryMap[name].manager else name;
      TargetIsThere(d, name);
      ghost var rank: Name -> nat :| Ranked(d.parentGraph, rank);
      InvariantAntichains(d);
      RemovableExactly(d, rank, target);
      ghost var gone;
      ok, gone := directory.RemoveBattery(target, rank);
      GoneIs(d, rank, target);
      RemovedInvariant(d, target);
      if NoRepeats(d) {
        GoodIsRemovable(d, target);
      }
    }
  }

  lemma TargetIsThere(d: Directory, n: Name)
    requires Invariant(d) && n in d.batteries
    ensures Target(d, n) in d.batteries
  {
  }

  lemma MissingGone(d: Directory, n: Name)
    requires Invariant(d) && n !in d.batteries
    ensures Induced(d, Gone(d, n)) == d
  {
    var rank: Name -> nat :| Ranked(d.parentGraph, rank);
    GoneIs(d, rank, n);
    InducedNothing(d);
  }

  method AddScales(scales: seq<Scale>) returns (total: Scale)
    ensures total == TotalScale(scales)
  {
    total := Scale(0.0, 0.0);
    for i := 0 to |scales|
      invariant total == TotalScale(scales[..i])
    {
      assert scales[..i + 1][..i] == scales[..i];
      total := Scale(total.charge + scales[i].charge, total.capacity + scales[i].capacity);
    }
    assert scales[..|scales|] == scales;
  }
}
