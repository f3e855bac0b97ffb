/** The V3 battery topology as a value: two adjacency maps over battery names, reachability, and the
    graph that is left when a set of batteries is taken out.
 */
module Topology {

  type Name = string
  type Graph = map<Name, seq<Name>>

  /** `Plain` stands for physical, dynamic and secure batteries. A partition knows its manager. */
  datatype Kind = Plain | Aggregate | Manager | Partition(manager: Name)

  /** `parentGraph` maps a battery to its children, `childGraph` a battery to its parents. */
  datatype Directory = Directory(batteries: map<Name, Kind>, childGraph: Graph, parentGraph: Graph)

  predicate Linked(g: Graph, a: Name, b: Name)
  {
    a in g && b in g[a]
  }

  /** The two maps are inverse to each other, mention only batteries that exist and hold no empty list. */
  ghost predicate Consistent(d: Directory)
  {
    && (forall p, c :: Linked(d.parentGraph, p, c) <==> Linked(d.childGraph, c, p))
    && (forall p, c :: Linked(d.parentGraph, p, c) ==> p in d.batteries && c in d.batteries)
    && (forall n :: n in d.parentGraph ==> d.parentGraph[n] != [])
    && (forall n :: n in d.childGraph ==> d.childGraph[n] != [])
  }

  /** Edges go down in rank, so the graph is acyclic. */
  ghost predicate Ranked(g: Graph, rank: Name -> nat)
  {
    forall p, c :: Linked(g, p, c) ==> rank(c) < rank(p)
  }

  ghost predicate Acyclic(d: Directory)
  {
    exists rank: Name -> nat :: Ranked(d.parentGraph, rank)
  }

  // ----- reachability -----

  ghost predicate Path(g: Graph, path: seq<Name>)
  {
    |path| >= 1 && forall i :: 0 <= i < |path| - 1 ==> Linked(g, path[i], path[i + 1])
  }

  ghost predicate PathFrom(g: Graph, path: seq<Name>, a: Name, b: Name)
  {
    Path(g, path) && path[0] == a && path[|path| - 1] == b
  }

  ghost predicate Reaches(g: Graph, a: Name, b: Name)
  {
    exists path :: PathFrom(g, path, a, b)
  }

  lemma ReachSelf(g: Graph, a: Name)
    ensures Reaches(g, a, a)
  {
    assert PathFrom(g, [a], a, a);
  }

  lemma ReachFirst(g: Graph, a: Name, c: Name, b: Name)
    requires Linked(g, a, c) && Reaches(g, c, b)
    ensures Reaches(g, a, b)
  {
    var path :| PathFrom(g, path, c, b);
    var longer := [a] + path;
    forall i | 0 <= i < |longer| - 1 ensures Linked(g, longer[i], longer[i + 1]) {
      if i > 0 {
        assert Linked(g, path[i - 1], path[i - 1 + 1]);
      }
    }
    assert PathFrom(g, longer, a, b);
  }

  lemma ReachLast(g: Graph, a: Name, p: Name, b: Name)
    requires Reaches(g, a, p) && Linked(g, p, b)
    ensures Reaches(g, a, b)
  {
    var path :| PathFrom(g, path, a, p);
    var longer := path + [b];
    forall i | 0 <= i < |longer| - 1 ensures Linked(g, longer[i], longer[i + 1]) {
      if i < |path| - 1 {
        assert Linked(g, path[i], path[i + 1]);
      }
    }
    assert PathFrom(g, longer, a, b);
  }

  /** A battery that reaches another one does so through one of its children ... */
  lemma FirstStep(g: Graph, a: Name, b: Name) returns (c: Name)
    requires Reaches(g, a, b) && a != b
    ensures Linked(g, a, c) && Reaches(g, c, b)
  {
    var path :| PathFrom(g, path, a, b);
    assert Linked(g, path[0], path[0 + 1]);
    c := path[1];
    var shorter := path[1..];
    forall i | 0 <= i < |shorter| - 1 ensures Linked(g, shorter[i], shorter[i + 1]) {
      assert Linked(g, path[i + 1], path[i + 1 + 1]);
    }
    assert PathFrom(g, shorter, c, b);
  }

  /** ... and through one of the other's parents. */
  lemma LastStep(g: Graph, a: Name, b: Name) returns (p: Name)
    requires Reaches(g, a, b) && a != b
    ensures Reaches(g, a, p) && Linked(g, p, b)
  {
    var path :| PathFrom(g, path, a, b);
    var k := |path| - 2;
    assert Linked(g, path[k], path[k + 1]);
    p := path[k];
    var shorter := path[..k + 1];
    forall i | 0 <= i < |shorter| - 1 ensures Linked(g, shorter[i], shorter[i + 1]) {
      assert Linked(g, path[i], path[i + 1]);
    }
    assert PathFrom(g, shorter, a, p);
  }

  lemma {:induction false} ReachLowers(g: Graph, rank: Name -> nat, a: Name, b: Name)
    requires Ranked(g, rank) && Reaches(g, a, b)
    ensures a == b || rank(b) < rank(a)
    decreases rank(a)
  {
    if a != b {
      var c := FirstStep(g, a, b);
      ReachLowers(g, rank, c, b);
    }
  }

  /** The battery and everything below it. */
  ghost function Cone(d: Directory, n: Name): (r: set<Name>)
  {
    set x | x in d.batteries && Reaches(d.parentGraph, n, x)
  }

  /** Everything below a battery of the set is in the set. */
  ghost predicate Closed(d: Directory, gone: set<Name>)
  {
    forall p, c :: Linked(d.parentGraph, p, c) && p in gone ==> c in gone
  }

  lemma {:induction false} ClosedReach(d: Directory, rank: Name -> nat, gone: set<Name>, a: Name, b: Name)
    requires Ranked(d.parentGraph, rank) && Closed(d, gone) && a in gone && Reaches(d.parentGraph, a, b)
    ensures b in gone
    decreases rank(a)
  {
    if a != b {
      var c := FirstStep(d.parentGraph, a, b);
      ClosedReach(d, rank, gone, c, b);
    }
  }

  lemma ConeIsClosed(d: Directory, n: Name)
    requires Consistent(d)
    ensures Closed(d, Cone(d, n))
  {
    forall p, c | Linked(d.parentGraph, p, c) && p in Cone(d, n) ensures c in Cone(d, n) {
      ReachLast(d.parentGraph, n, p, c);
    }
  }

  // ----- taking batteries out -----

  /** A list without some names, in the same order. */
  function Without(l: seq<Name>, gone: set<Name>): (r: seq<Name>)
    ensures forall x :: x in r <==> x in l && x !in gone
  {
    if l == [] then []
    else if l[0] in gone then Without(l[1..], gone)
    else [l[0]] + Without(l[1..], gone)
  }

  /** The part of a graph among the remaining names; lists that become empty disappear. */
  function Pruned(g: Graph, gone: set<Name>): (r: Graph)
  {
    map n | n in g && n !in gone && Without(g[n], gone) != [] :: Without(g[n], gone)
  }

  /** The directory on the remaining batteries. */
  function Induced(d: Directory, gone: set<Name>): (r: Directory)
  {
    Directory(map n | n in d.batteries && n !in gone :: d.batteries[n],
              Pruned(d.childGraph, gone), Pruned(d.parentGraph, gone))
  }

  lemma {:induction false} WithoutTwice(l: seq<Name>, a: set<Name>, b: set<Name>)
    ensures Without(Without(l, a), b) == Without(l, a + b)
  {
    if l != [] {
      WithoutTwice(l[1..], a, b);
      if l[0] !in a {
        assert Without(l, a)[1..] == Without(l[1..], a);
      }
    }
  }

  lemma {:induction false} WithoutNothing(l: seq<Name>, gone: set<Name>)
    requires forall x :: x in l ==> x !in gone
    ensures Without(l, gone) == l
  {
    if l != [] {
      assert l[0] in l;
      WithoutNothing(l[1..], gone);
    }
  }

  lemma WithoutAll(l: seq<Name>, gone: set<Name>)
    requires forall x :: x in l ==> x in gone
    ensures Without(l, gone) == []
  {
  }

  lemma PrunedLinks(g: Graph, gone: set<Name>, a: Name, b: Name)
    ensures Linked(Pruned(g, gone), a, b) <==> Linked(g, a, b) && a !in gone && b !in gone
  {
  }

  lemma PrunedTwice(g: Graph, a: set<Name>, b: set<Name>)
    ensures Pruned(Pruned(g, a), b) == Pruned(g, a + b)
  {
    forall n | n in g ensures Without(Without(g[n], a), b) == Without(g[n], a + b) {
      WithoutTwice(g[n], a, b);
    }
  }

  lemma InducedTwice(d: Directory, a: set<Name>, b: set<Name>)
    ensures Induced(Induced(d, a), b) == Induced(d, a + b)
  {
    PrunedTwice(d.childGraph, a, b);
    PrunedTwice(d.parentGraph, a, b);
  }

  lemma InducedNothing(d: Directory)
    requires Consistent(d)
    ensures Induced(d, {}) == d
  {
    forall n | n in d.parentGraph ensures Without(d.parentGraph[n], {}) == d.parentGraph[n] {
      WithoutNothing(d.parentGraph[n], {});
    }
    forall n | n in d.childGraph ensures Without(d.childGraph[n], {}) == d.childGraph[n] {
      WithoutNothing(d.childGraph[n], {});
    }
  }

  lemma InducedConsistent(d: Directory, rank: Name -> nat, gone: set<Name>)
    requires Consistent(d) && Ranked(d.parentGraph, rank)
    ensures Consistent(Induced(d, gone)) && Ranked(Induced(d, gone).parentGraph, rank)
  {
    var d' := Induced(d, gone);
    forall p, c
      ensures Linked(d'.parentGraph, p, c) <==> Linked(d.parentGraph, p, c) && p !in gone && c !in gone
      ensures Linked(d'.childGraph, c, p) <==> Linked(d.parentGraph, p, c) && p !in gone && c !in gone
    {
      PrunedLinks(d.parentGraph, gone, p, c);
      PrunedLinks(d.childGraph, gone, c, p);
    }
  }

  lemma {:induction false} InducedReachesBack(
    d: Directory, rank: Name -> nat, gone: set<Name>, a: Name, b: Name)
    requires Ranked(d.parentGraph, rank) && Reaches(Induced(d, gone).parentGraph, a, b)
    ensures Reaches(d.parentGraph, a, b)
    decreases rank(a)
  {
    if a == b {
      ReachSelf(d.parentGraph, a);
    } else {
      var c := FirstStep(Induced(d, gone).parentGraph, a, b);
      PrunedLinks(d.parentGraph, gone, a, c);
      InducedReachesBack(d, rank, gone, c, b);
      ReachFirst(d.parentGraph, a, c, b);
    }
  }

  /** When everything below a removed battery is removed, paths between the remaining ones stay. */
  lemma {:induction false} InducedReaches(d: Directory, rank: Name -> nat, gone: set<Name>, a: Name, b: Name)
    requires Ranked(d.parentGraph, rank) && Closed(d, gone) && b !in gone && Reaches(d.parentGraph, a, b)
    ensures Reaches(Induced(d, gone).parentGraph, a, b)
    decreases rank(a)
  {
    if a == b {
      ReachSelf(Induced(d, gone).parentGraph, a);
    } else {
      var c := FirstStep(d.parentGraph, a, b);
      if a in gone {
        ClosedReach(d, rank, gone, a, b);
      } else if c in gone {
        ClosedReach(d, rank, gone, c, b);
      } else {
        PrunedLinks(d.parentGraph, gone, a, c);
        InducedReaches(d, rank, gone, c, b);
        ReachFirst(Induced(d, gone).parentGraph, a, c, b);
      }
    }
  }

  /** The cone in what remains is what remains of the cone. */
  lemma InducedCone(d: Directory, rank: Name -> nat, gone: set<Name>, n: Name)
    requires Ranked(d.parentGraph, rank) && Closed(d, gone)
    ensures Cone(Induced(d, gone), n) == Cone(d, n) - gone
  {
    var d' := Induced(d, gone);
    forall x | x in d.batteries && x !in gone
      ensures Reaches(d'.parentGraph, n, x) <==> Reaches(d.parentGraph, n, x)
    {
      if Reaches(d'.parentGraph, n, x) {
        InducedReachesBack(d, rank, gone, n, x);
      }
      if Reaches(d.parentGraph, n, x) {
        InducedReaches(d, rank, gone, n, x);
      }
    }
  }

  /** What is closed in the remainder is closed together with what was taken out. */
  lemma ClosedUnion(d: Directory, gone: set<Name>, more: set<Name>)
    requires Closed(d, gone) && Closed(Induced(d, gone), more)
    ensures Closed(d, gone + more)
  {
    forall p, c | Linked(d.parentGraph, p, c) && p in gone + more ensures c in gone + more {
      PrunedLinks(d.parentGraph, gone, p, c);
    }
  }
}

/** `BatteryDirectory` of V3: the recursive removal, on any acyclic directory.
 */
module DirectoryRemoval {
  import opened Topology

  function ListOf(g: Graph, n: Name): (r: seq<Name>)
  {
    if n in g then g[n] else []
  }

  function WithEdge(d: Directory, parent: Name, child: Name): (r: Directory)
  {
    d.(childGraph := d.childGraph[child := ListOf(d.childGraph, child) + [parent]],
       parentGraph := d.parentGraph[parent := ListOf(d.parentGraph, parent) + [child]])
  }

  ghost predicate Before(l: seq<Name>, a: Name, b: Name)
  {
    exists i, j :: 0 <= i < j < |l| && l[i] == a && l[j] == b
  }

  /** No child of `n` is listed after a sibling that it is below of; in particular none is listed twice. */
  ghost predicate ApartAt(d: Directory, n: Name)
  {
    forall a, b :: Before(ListOf(d.parentGraph, n), a, b) ==> b !in Cone(d, a)
  }

  /** Everything at or below one of the listed names. */
  ghost function Cones(d: Directory, l: seq<Name>): (r: set<Name>)
  {
    if l == [] then {} else Cones(d, l[..|l| - 1]) + Cone(d, l[|l| - 1])
  }

  lemma {:induction false} InCones(d: Directory, l: seq<Name>, x: Name)
    ensures x in Cones(d, l) <==> exists i :: 0 <= i < |l| && x in Cone(d, l[i])
  {
    if l != [] {
      var k := |l| - 1;
      InCones(d, l[..k], x);
      if x in Cones(d, l[..k]) {
        var i :| 0 <= i < k && x in Cone(d, l[..k][i]);
        assert x in Cone(d, l[i]);
      }
      if i :| 0 <= i < |l| && x in Cone(d, l[i]) {
        assert i < k ==> x in Cone(d, l[..k][i]);
      }
    }
  }

  /** A cone is its top and the cones of the children. */
  lemma ConeSplit(d: Directory, n: Name)
    requires Consistent(d) && n in d.batteries
    ensures Cone(d, n) == {n} + Cones(d, ListOf(d.parentGraph, n))
  {
    var l := ListOf(d.parentGraph, n);
    forall x ensures x in Cone(d, n) <==> x == n || x in Cones(d, l) {
      InCones(d, l, x);
      ReachSelf(d.parentGraph, n);
      if x in Cone(d, n) && x != n {
        var c := FirstStep(d.parentGraph, n, x);
        var i :| 0 <= i < |l| && l[i] == c;
        assert x in Cone(d, l[i]);
      }
      if x in Cones(d, l) {
        var i :| 0 <= i < |l| && x in Cone(d, l[i]);
        assert Linked(d.parentGraph, n, l[i]);
        ReachFirst(d.parentGraph, n, l[i], x);
      }
    }
  }

  lemma {:induction false} WithoutBefore(l: seq<Name>, gone: set<Name>, a: Name, b: Name)
    requires Before(Without(l, gone), a, b)
    ensures Before(l, a, b)
  {
    var w := Without(l, gone);
    var i, j :| 0 <= i < j < |w| && w[i] == a && w[j] == b;
    if l[0] in gone {
      WithoutBefore(l[1..], gone, a, b);
      BeforeTail(l, a, b);
    } else if i == 0 {
      assert b in Without(l[1..], gone) by { assert w[1..] == Without(l[1..], gone) && w[1..][j - 1] == b; }
      var k :| 0 <= k < |l[1..]| && l[1..][k] == b;
      assert l[0] == a && l[k + 1] == b;
    } else {
      assert w[1..] == Without(l[1..], gone) && w[1..][i - 1] == a && w[1..][j - 1] == b;
      WithoutBefore(l[1..], gone, a, b);
      BeforeTail(l, a, b);
    }
  }

  lemma BeforeTail(l: seq<Name>, a: Name, b: Name)
    requires l != [] && Before(l[1..], a, b)
    ensures Before(l, a, b)
  {
    var i, j :| 0 <= i < j < |l[1..]| && l[1..][i] == a && l[1..][j] == b;
    assert l[i + 1] == a && l[j + 1] == b;
  }

  /** Taking batteries out does not bring siblings together. */
  lemma ApartStays(d: Directory, rank: Name -> nat, gone: set<Name>, n: Name)
    requires Ranked(d.parentGraph, rank) && ApartAt(d, n)
    ensures ApartAt(Induced(d, gone), n)
  {
    var d' := Induced(d, gone);
    forall a, b | Before(ListOf(d'.parentGraph, n), a, b) ensures b !in Cone(d', a) {
      assert n in d.parentGraph;
      WithoutBefore(d.parentGraph[n], gone, a, b);
      assert b !in Cone(d, a);
      if b in Cone(d', a) {
        InducedReachesBack(d, rank, gone, a, b);
        assert false;
      }
    }
  }

  /** A battery is not below any of its children. */
  lemma NotBelowChildren(d: Directory, rank: Name -> nat, n: Name, l: seq<Name>)
    requires Ranked(d.parentGraph, rank) && forall i :: 0 <= i < |l| ==> Linked(d.parentGraph, n, l[i])
    ensures n !in Cones(d, l)
  {
    InCones(d, l, n);
    if i :| 0 <= i < |l| && n in Cone(d, l[i]) {
      ReachLowers(d.parentGraph, rank, l[i], n);
    }
  }

  /** The graph with `name` taken out of the lists of the given parents. */
  function Detached(g: Graph, name: Name, parents: seq<Name>): (r: Graph)
  {
    map n | n in g && (n in parents ==> Without(g[n], {name}) != []) ::
      if n in parents then Without(g[n], {name}) else g[n]
  }

  lemma DetachedIsPruned(g: Graph, name: Name, parents: seq<Name>)
    requires name !in g
    requires forall n :: n in g ==> n in parents || (name !in g[n] && g[n] != [])
    ensures Detached(g, name, parents) == Pruned(g, {name})
  {
    forall n | n in g && n !in parents ensures Without(g[n], {name}) == g[n] {
      WithoutNothing(g[n], {name});
    }
  }

  /** Detaching a battery without children from its parents and dropping it leaves the induced graph. */
  lemma LeafDetached(d: Directory, name: Name)
    requires Consistent(d) && name in d.batteries && name !in d.parentGraph
    ensures Detached(d.parentGraph, name, ListOf(d.childGraph, name)) == Pruned(d.parentGraph, {name})
  {
    hide Detached, Pruned;
    forall n | n in d.parentGraph
      ensures n in ListOf(d.childGraph, name) || (name !in d.parentGraph[n] && d.parentGraph[n] != [])
    {
      assert Linked(d.parentGraph, n, name) <==> Linked(d.childGraph, name, n);
    }
    DetachedIsPruned(d.parentGraph, name, ListOf(d.childGraph, name));
  }

  lemma LeafDropped(d: Directory, name: Name)
    requires Consistent(d) && name in d.batteries && name !in d.parentGraph
    ensures d.childGraph - {name} == Pruned(d.childGraph, {name})
    ensures d.batteries - {name} == Induced(d, {name}).batteries
  {
    forall n | n in d.childGraph && n != name
      ensures Without(d.childGraph[n], {name}) == d.childGraph[n]
    {
      assert !Linked(d.parentGraph, name, n);
      assert !Linked(d.childGraph, n, name);
      WithoutNothing(d.childGraph[n], {name});
    }
  }

  /** What holds after the cones of the first `i` children of `n` are gone. */
  ghost predicate ConesGone(d: Directory, n: Name, i: nat, gone: set<Name>)
  {
    var l := ListOf(d.parentGraph, n);
    && i <= |l|
    && gone == Cones(d, l[..i])
    && Closed(d, gone)
    && gone <= Cone(d, n) && n !in gone
  }

  /** One more child removed, from a state in which the first `i` cones are gone. */
  lemma NextConeGone(d: Directory, rank: Name -> nat, n: Name, i: nat, gone: set<Name>)
    requires Consistent(d) && Ranked(d.parentGraph, rank) && n in d.batteries
    requires i < |ListOf(d.parentGraph, n)| && ConesGone(d, n, i, gone)
    ensures var c := ListOf(d.parentGraph, n)[i];
            && Cone(Induced(d, gone), c) == Cone(d, c) - gone
            && ConesGone(d, n, i + 1, gone + Cone(d, c))
  {
    hide Consistent, Ranked, Reaches;
    var l := ListOf(d.parentGraph, n);
    InducedCone(d, rank, gone, l[i]);
    assert l[..i + 1][..i] == l[..i];
    ConeIsClosed(d, l[i]);
    assert forall k :: 0 <= k < |l| ==> Linked(d.parentGraph, n, l[k]);
    NotBelowChildren(d, rank, n, l[..i + 1]);
    forall x | x in Cone(d, l[i]) ensures x in Cone(d, n) {
      ReachFirst(d.parentGraph, n, l[i], x);
    }
  }

  /** A child removed in part keeps the parent. */
  lemma PartGone(d: Directory, rank: Name -> nat, n: Name, i: nat, gone: set<Name>, more: set<Name>)
    requires Consistent(d) && Ranked(d.parentGraph, rank) && n in d.batteries
    requires i < |ListOf(d.parentGraph, n)| && ConesGone(d, n, i, gone)
    requires Closed(Induced(d, gone), more) && more <= Cone(Induced(d, gone), ListOf(d.parentGraph, n)[i])
    ensures Closed(d, gone + more) && gone + more <= Cone(d, n) && n !in gone + more
  {
    NextConeGone(d, rank, n, i, gone);
    ClosedUnion(d, gone, more);
  }

  /** A name outside the first cones is below none of the first children. */
  lemma OutsideCones(d: Directory, l: seq<Name>, i: nat, x: Name)
    requires i <= |l|
    ensures x !in Cones(d, l[..i]) <==> forall j :: 0 <= j < i ==> x !in Cone(d, l[j])
  {
    InCones(d, l[..i], x);
    forall j | 0 <= j < i ensures l[..i][j] == l[j] {
    }
  }

  ghost predicate AllApart(d: Directory, n: Name)
  {
    forall v :: v in Cone(d, n) ==> ApartAt(d, v)
  }

  /** Siblings that are kept apart are all there when their turn comes, and apart below as well. */
  lemma NextIsReady(d: Directory, rank: Name -> nat, n: Name, i: nat, gone: set<Name>)
    requires Consistent(d) && Ranked(d.parentGraph, rank) && n in d.batteries && AllApart(d, n)
    requires i < |ListOf(d.parentGraph, n)| && ConesGone(d, n, i, gone)
    ensures var c := ListOf(d.parentGraph, n)[i];
            c in Induced(d, gone).batteries && AllApart(Induced(d, gone), c)
  {
    var l := ListOf(d.parentGraph, n);
    assert Linked(d.parentGraph, n, l[i]);
    ReachSelf(d.parentGraph, n);
    assert ApartAt(d, n);
    forall j | 0 <= j < i ensures l[i] !in Cone(d, l[j]) {
      assert Before(l, l[j], l[i]);
    }
    OutsideCones(d, l, i, l[i]);
    NextConeGone(d, rank, n, i, gone);
    forall v | v in Cone(Induced(d, gone), l[i]) ensures ApartAt(Induced(d, gone), v) {
      ReachFirst(d.parentGraph, n, l[i], v);
      ApartStays(d, rank, gone, v);
    }
  }

  /** A child that was still there when its turn came is below none of its earlier siblings. */
  lemma StillThere(d: Directory, n: Name, i: nat, gone: set<Name>)
    requires i < |ListOf(d.parentGraph, n)| && ConesGone(d, n, i, gone)
    requires ListOf(d.parentGraph, n)[i] in Induced(d, gone).batteries
    ensures forall j :: 0 <= j < i ==> ListOf(d.parentGraph, n)[i] !in Cone(d, ListOf(d.parentGraph, n)[j])
  {
    OutsideCones(d, ListOf(d.parentGraph, n), i, ListOf(d.parentGraph, n)[i]);
  }

  /** The children of `n` gone, nothing hangs on `n` any more. */
  lemma AllConesGone(d: Directory, n: Name, gone: set<Name>)
    requires Consistent(d) && n in d.batteries && ConesGone(d, n, |ListOf(d.parentGraph, n)|, gone)
    ensures n in Induced(d, gone).batteries && n !in Induced(d, gone).parentGraph
    ensures gone + {n} == Cone(d, n)
  {
    hide Cone, Consistent, Closed;
    var l := ListOf(d.parentGraph, n);
    assert l[..|l|] == l;
    ConeSplit(d, n);
    forall x | x in l ensures x in gone {
      ChildInCones(d, n, x);
    }
    WithoutAll(l, gone);
  }

  lemma ChildInCones(d: Directory, n: Name, x: Name)
    requires Consistent(d) && x in ListOf(d.parentGraph, n)
    ensures x in Cones(d, ListOf(d.parentGraph, n))
  {
    var l := ListOf(d.parentGraph, n);
    assert Linked(d.parentGraph, n, x);
    var i :| 0 <= i < |l| && l[i] == x;
    ReachSelf(d.parentGraph, x);
    assert x in Cone(d, l[i]);
    InCones(d, l, x);
  }

  lemma NoneGone(d: Directory, n: Name)
    requires Consistent(d)
    ensures Induced(d, {}) == d && ConesGone(d, n, 0, {})
  {
    InducedNothing(d);
  }

  lemma ChildRank(d: Directory, rank: Name -> nat, n: Name, i: nat)
    requires Ranked(d.parentGraph, rank) && i < |ListOf(d.parentGraph, n)|
    ensures rank(ListOf(d.parentGraph, n)[i]) < rank(n)
  {
    assert Linked(d.parentGraph, n, ListOf(d.parentGraph, n)[i]);
  }

  // ----- when removal succeeds -----

  /** Every child of `n` is still there when its turn comes, after the cones of the children before it are gone, and is
      removable then. */
  ghost predicate Removable(d: Directory, rank: Name -> nat, n: Name)
    decreases rank(n)
  {
    var l := ListOf(d.parentGraph, n);
    forall i :: 0 <= i < |l| ==>
      var d' := Induced(d, Cones(d, l[..i]));
      rank(l[i]) < rank(n) && l[i] in d'.batteries && Removable(d', rank, l[i])
  }

  /** The first `k` children of `n` are removed one after another. */
  ghost predicate RemovableUpTo(d: Directory, rank: Name -> nat, n: Name, k: nat)
  {
    var l := ListOf(d.parentGraph, n);
    k <= |l| && forall i :: 0 <= i < k ==> RemovableAt(d, rank, n, i)
  }

  ghost predicate RemovableAt(d: Directory, rank: Name -> nat, n: Name, i: nat)
  {
    var l := ListOf(d.parentGraph, n);
    i < |l| &&
    var d' := Induced(d, Cones(d, l[..i]));
    l[i] in d'.batteries && Removable(d', rank, l[i])
  }

  lemma RemovableIs(d: Directory, rank: Name -> nat, n: Name)
    requires Ranked(d.parentGraph, rank)
    ensures Removable(d, rank, n) <==> RemovableUpTo(d, rank, n, |ListOf(d.parentGraph, n)|)
  {
    var l := ListOf(d.parentGraph, n);
    forall i | 0 <= i < |l| ensures rank(l[i]) < rank(n) {
      ChildRank(d, rank, n, i);
    }
    if Removable(d, rank, n) {
      forall i | 0 <= i < |l| ensures RemovableAt(d, rank, n, i) {
      }
    }
    if RemovableUpTo(d, rank, n, |l|) {
      forall i | 0 <= i < |l|
        ensures var d' := Induced(d, Cones(d, l[..i])); l[i] in d'.batteries && Removable(d', rank, l[i])
      {
        assert RemovableAt(d, rank, n, i);
      }
    }
  }

  /** The first child of `n` that is not there or not removable in its turn. */
  ghost predicate StopsAt(d: Directory, rank: Name -> nat, n: Name, k: nat)
  {
    k < |ListOf(d.parentGraph, n)| && RemovableUpTo(d, rank, n, k) && !RemovableAt(d, rank, n, k)
  }

  lemma {:induction false} StopExists(d: Directory, rank: Name -> nat, n: Name, j: nat)
    requires RemovableUpTo(d, rank, n, j) && !RemovableUpTo(d, rank, n, |ListOf(d.parentGraph, n)|)
    ensures exists k: nat :: StopsAt(d, rank, n, k)
    decreases |ListOf(d.parentGraph, n)| - j
  {
    if j < |ListOf(d.parentGraph, n)| && RemovableAt(d, rank, n, j) {
      assert RemovableUpTo(d, rank, n, j + 1);
      StopExists(d, rank, n, j + 1);
    } else {
      assert StopsAt(d, rank, n, j);
    }
  }

  lemma StopUnique(d: Directory, rank: Name -> nat, n: Name, j: nat, k: nat)
    requires StopsAt(d, rank, n, j) && StopsAt(d, rank, n, k)
    ensures j == k
  {
  }

  lemma InducedRanked(d: Directory, rank: Name -> nat, gone: set<Name>)
    requires Ranked(d.parentGraph, rank)
    ensures Ranked(Induced(d, gone).parentGraph, rank)
  {
    forall p, c | Linked(Induced(d, gone).parentGraph, p, c) ensures rank(c) < rank(p) {
      PrunedLinks(d.parentGraph, gone, p, c);
    }
  }

  /** What the removal of `n` takes out: everything at or below it if it is removable; otherwise the cones of the children
      before the one at which it stops, and what the removal of that one takes out by then. */
  ghost function Removed(d: Directory, rank: Name -> nat, n: Name): (gone: set<Name>)
    requires Ranked(d.parentGraph, rank)
    decreases rank(n), 1
  {
    if n !in d.batteries then {}
    else if Removable(d, rank, n) then Cone(d, n)
    else
      RemovableIs(d, rank, n);
      RemovedBelow(d, rank, n)
  }

  ghost function RemovedBelow(d: Directory, rank: Name -> nat, n: Name): (gone: set<Name>)
    requires Ranked(d.parentGraph, rank) && !RemovableUpTo(d, rank, n, |ListOf(d.parentGraph, n)|)
    decreases rank(n), 0
  {
    StopExists(d, rank, n, 0);
    var k: nat :| StopsAt(d, rank, n, k);
    var l := ListOf(d.parentGraph, n);
    ChildRank(d, rank, n, k);
    InducedRanked(d, rank, Cones(d, l[..k]));
    Cones(d, l[..k]) + Removed(Induced(d, Cones(d, l[..k])), rank, l[k])
  }

  lemma RemovedBelowAt(d: Directory, rank: Name -> nat, n: Name, k: nat)
    requires Ranked(d.parentGraph, rank) && StopsAt(d, rank, n, k)
    ensures !RemovableUpTo(d, rank, n, |ListOf(d.parentGraph, n)|)
    ensures var l := ListOf(d.parentGraph, n);
            var d' := Induced(d, Cones(d, l[..k]));
            Ranked(d'.parentGraph, rank) && RemovedBelow(d, rank, n) == Cones(d, l[..k]) + Removed(d', rank, l[k])
  {
    hide RemovableAt, Cones, Induced;
    var l := ListOf(d.parentGraph, n);
    InducedRanked(d, rank, Cones(d, l[..k]));
    assert !RemovableUpTo(d, rank, n, |l|);
    StopExists(d, rank, n, 0);
    forall j: nat | StopsAt(d, rank, n, j) ensures j == k {
      StopUnique(d, rank, n, j, k);
    }
  }

  class BatteryDirectory {
    var batteryMap: map<Name, Kind>
    var childGraph: Graph
    var parentGraph: Graph

    ghost function Value(): (d: Directory)
      reads this
    {
      Directory(batteryMap, childGraph, parentGraph)
    }

    constructor ()
      ensures Value() == Directory(map[], map[], map[])
    {
      batteryMap, childGraph, parentGraph := map[], map[], map[];
    }

    method AddBattery(name: Name, kind: Kind) returns (ok: bool)
      modifies this`batteryMap
      ensures ok == (name !in old(batteryMap))
      ensures batteryMap == if ok then old(batteryMap)[name := kind] else old(batteryMap)
    {
      if name in batteryMap {
        return false;
      }
      batteryMap := batteryMap[name := kind];
      return true;
    }

    predicate CanBeSource(name: Name)
      reads this
    {
      name in batteryMap && name !in parentGraph
    }

    method AddEdge(parent: Name, child: Name) returns (ok: bool)
      modifies this`childGraph, this`parentGraph
      ensures ok == (parent in batteryMap && child in batteryMap)
      ensures Value() == if ok then WithEdge(old(Value()), parent, child) else old(Value())
    {
      if parent !in batteryMap || child !in batteryMap {
        return false;
      }
      childGraph := childGraph[child := ListOf(childGraph, child) + [parent]];
      parentGraph := parentGraph[parent := ListOf(parentGraph, parent) + [child]];
      return true;
    }

    /** The tail of `removeBattery`, for a battery whose children are gone. */
    method RemoveLeaf(name: Name)
      requires Consistent(Value()) && name in batteryMap && name !in parentGraph
      modifies this
      ensures Value() == Induced(old(Value()), {name})
    {
      hide Consistent;
      LeafDetached(Value(), name);
      LeafDropped(Value(), name);
      Detach(name, ListOf(childGraph, name));
      childGraph := childGraph - {name};
      batteryMap := batteryMap - {name};
    }

    /** Take a battery out of the lists of its parents, dropping lists that become empty. */
    method Detach(name: Name, parents: seq<Name>)
      modifies this`parentGraph
      ensures parentGraph == Detached(old(parentGraph), name, parents)
    {
      ghost var g := parentGraph;
      assert parentGraph == Detached(g, name, parents[..0]);
      for i := 0 to |parents|
        invariant parentGraph == Detached(g, name, parents[..i])
      {
        var parent := parents[i];
        DetachNext(g, name, parents, i);
        var rest := Without(ListOf(parentGraph, parent), {name});
        if rest == [] {
          parentGraph := parentGraph - {parent};
        } else {
          parentGraph := parentGraph[parent := rest];
        }
      }
      assert parents[..|parents|] == parents;
    }

    /** `BatteryDirectory::removeBattery`, on any acyclic directory whose maps are consistent.
        `gone` is what was removed.
        - If it succeeds, exactly the battery and everything below it is removed.
        - If it fails, the battery itself stays, and only some of what is below it is removed.
        - It succeeds exactly if the battery is there and removable. For that it is enough that everything at or below
          it has its children apart, and necessary that the battery itself has.
        - If it fails on a battery that is there, it has removed something, so that it can be repeated. */
    method RemoveBattery(name: Name, ghost rank: Name -> nat) returns (ok: bool, ghost gone: set<Name>)
      requires Consistent(Value()) && Ranked(parentGraph, rank)
      modifies this
      ensures Value() == Induced(old(Value()), gone)
      ensures Consistent(Value()) && Ranked(parentGraph, rank)
      ensures Closed(old(Value()), gone) && gone <= Cone(old(Value()), name)
      ensures ok ==> name in old(batteryMap) && gone == Cone(old(Value()), name) && ApartAt(old(Value()), name)
      ensures !ok ==> name !in gone
      ensures name in old(batteryMap) && AllApart(old(Value()), name) ==> ok
      ensures ok <==> name in old(batteryMap) && Removable(old(Value()), rank, name)
      ensures !ok && name in old(batteryMap) ==> gone != {}
      ensures gone == Removed(old(Value()), rank, name)
      decreases rank(name), 1
    {
      ghost var d := Value();
      InducedNothing(d);
      RemovableIs(d, rank, name);
      hide Removable, RemovableUpTo;
      if name !in batteryMap {
        return false, {};
      }
      ok, gone := RemoveChildren(name, rank);
      if !ok {
        return;
      }
      AllConesGone(d, name, gone);
      RemoveLeaf(name);
      InducedTwice(d, gone, {name});
      gone := gone + {name};
      ConeIsClosed(d, name);
      InducedConsistent(d, rank, gone);
    }

    /** The loop over the children. */
    method RemoveChildren(name: Name, ghost rank: Name -> nat) returns (ok: bool, ghost gone: set<Name>)
      requires Consistent(Value()) && Ranked(parentGraph, rank) && name in batteryMap
      modifies this
      ensures Value() == Induced(old(Value()), gone)
      ensures Consistent(Value()) && Ranked(parentGraph, rank)
      ensures Closed(old(Value()), gone) && gone <= Cone(old(Value()), name) && name !in gone
      ensures ok ==> ConesGone(old(Value()), name, |ListOf(old(parentGraph), name)|, gone)
      ensures ok ==> ApartAt(old(Value()), name)
      ensures AllApart(old(Value()), name) ==> ok
      ensures ok <==> RemovableUpTo(old(Value()), rank, name, |ListOf(old(parentGraph), name)|)
      ensures !ok ==> gone != {}
      ensures !ok ==> gone == RemovedBelow(old(Value()), rank, name)
      decreases rank(name), 0
    {
      hide Consistent, Ranked, Induced, Cone, ConesGone, AllApart, Removable, RemovableAt, Removed, RemovedBelow;
      ghost var d := Value();
      NoneGone(d, name);
      ok, gone := true, {};
      var childNames := ListOf(parentGraph, name);
      var i := 0;
      while i < |childNames|
        invariant 0 <= i <= |childNames|
        invariant Value() == Induced(d, gone)
        invariant Consistent(Value()) && Ranked(parentGraph, rank)
        invariant ConesGone(d, name, i, gone)
        invariant forall j, k :: 0 <= j < k < i ==> childNames[k] !in Cone(d, childNames[j])
        invariant RemovableUpTo(d, rank, name, i)
      {
        ghost var more;
        ChildRank(d, rank, name, i);
        if AllApart(d, name) {
          NextIsReady(d, rank, name, i, gone);
        }
        ok, more := RemoveBattery(childNames[i], rank);
        InducedTwice(d, gone, more);
        TurnOf(d, rank, name, i, gone);
        if !ok {
          PartGone(d, rank, name, i, gone, more);
          RemovedBelowAt(d, rank, name, i);
          gone := gone + more;
          return;
        }
        StillThere(d, name, i, gone);
        NextConeGone(d, rank, name, i, gone);
        assert gone + more == gone + Cone(d, childNames[i]);
        gone := gone + more;
        i := i + 1;
      }
      GoneInside(d, name, i, gone);
    }
  }

  /** What the answer for child `i` says about the loop. */
  lemma TurnOf(d: Directory, rank: Name -> nat, n: Name, i: nat, gone: set<Name>)
    requires Consistent(d) && i < |ListOf(d.parentGraph, n)| && ConesGone(d, n, i, gone)
    ensures var c, d' := ListOf(d.parentGraph, n)[i], Induced(d, gone);
            && (RemovableAt(d, rank, n, i) <==> c in d'.batteries && Removable(d', rank, c))
            && (c !in d'.batteries ==> gone != {})
            && gone == Cones(d, ListOf(d.parentGraph, n)[..i])
  {
    hide Removable;
    assert Linked(d.parentGraph, n, ListOf(d.parentGraph, n)[i]);
  }

  lemma GoneInside(d: Directory, n: Name, i: nat, gone: set<Name>)
    requires ConesGone(d, n, i, gone)
    ensures Closed(d, gone) && gone <= Cone(d, n) && n !in gone
  {
  }

  lemma WithoutAgain(l: seq<Name>, gone: set<Name>)
    ensures Without(Without(l, gone), gone) == Without(l, gone)
  {
    WithoutTwice(l, gone, gone);
    assert gone + gone == gone;
  }

  lemma DetachNext(g: Graph, name: Name, parents: seq<Name>, i: nat)
    requires i < |parents|
    ensures var now := Detached(g, name, parents[..i]);
            var rest := Without(ListOf(now, parents[i]), {name});
            Detached(g, name, parents[..i + 1]) ==
              if rest == [] then now - {parents[i]} else now[parents[i] := rest]
  {
    assert parents[..i + 1] == parents[..i] + [parents[i]];
    if parents[i] in g {
      WithoutAgain(g[parents[i]], {name});
    }
  }
}
