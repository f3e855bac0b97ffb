/** Creating partitions over and over: the names that the manager of V3's directory makes up are all different, so
    no run ends in an exit unless a caller takes one of them, and every accepted request creates what it asks for.
 */
module PartitionRuns {
  import opened Topology
  import opened DirectoryRemoval
  import opened RemovalOrder
  import opened DirectoryManager

  // ----- the names of managers -----

  const PREFIX: string := "pManager"

  predicate IsDigit(c: char)
  {
    '0' as int <= c as int <= '9' as int
  }

  function Digit(c: char): (n: nat)
    requires IsDigit(c)
  {
    c as int - '0' as int
  }

  /** Reading a numeral. */
  function Number(s: string): (n: nat)
    requires forall i :: 0 <= i < |s| ==> IsDigit(s[i])
  {
    if s == [] then 0
    else Number(s[..|s| - 1]) * 10 + Digit(s[|s| - 1])
  }

  /** The numeral of a counter reads as the counter, and has no leading zero unless it is that of 0. */
  lemma {:induction false} DecimalReads(n: nat)
    ensures |Decimal(n)| >= 1 && forall i :: 0 <= i < |Decimal(n)| ==> IsDigit(Decimal(n)[i])
    ensures Number(Decimal(n)) == n
    ensures n > 0 ==> Decimal(n)[0] != '0'
    decreases n
  {
    var s := Decimal(n);
    if n >= 10 {
      DecimalReads(n / 10);
      assert s[..|s| - 1] == Decimal(n / 10);
    } else {
      assert s[..0] == [];
    }
  }

  /** No two counters make the same name. */
  lemma ManagerNameInjective(i: nat, j: nat)
    requires ManagerName(i) == ManagerName(j)
    ensures i == j
  {
    DecimalReads(i);
    DecimalReads(j);
    assert ManagerName(i)[|PREFIX|..] == Decimal(i);
    assert ManagerName(j)[|PREFIX|..] == Decimal(j);
  }

  ghost predicate IsManagerName(n: Name)
  {
    exists k: nat :: n == ManagerName(k)
  }

  // ----- what callers are asked for -----

  /** The names that a caller chooses in an operation. */
  function Chosen(op: Op): (r: set<Name>)
  {
    match op
    case CreatePlain(name) => {name}
    case CreateAggregate(name, parents, idle) => {name}
    case CreatePartition(source, names, scales, idle) => set n | n in names
    case Remove(name) => {}
  }

  /** The one thing asked of callers: they do not choose a name that the manager could make up. */
  ghost predicate Polite(op: Op)
  {
    forall n :: n in Chosen(op) ==> !IsManagerName(n)
  }

  // ----- what a step adds -----

  /** The batteries of a directory with some partitions added. */
  lemma {:induction false} PartitionedBatteries(d: Directory, manager: Name, names: seq<Name>)
    ensures var d' := Partitioned(d, manager, names).0;
            && (forall n :: n in d.batteries ==> n in d'.batteries && d'.batteries[n] == d.batteries[n])
            && (forall n :: n in d'.batteries && n !in d.batteries ==> n in names && d'.batteries[n] == Partition(manager))
    decreases |names|
  {
    if names != [] {
      var front := names[..|names| - 1];
      PartitionedBatteries(d, manager, front);
      var before := Partitioned(d, manager, front);
      if before.1 && names[|names| - 1] !in before.0.batteries {
        GrownBatteries(before.0, names[|names| - 1], Partition(manager), [manager]);
      }
    }
  }

  /** A step adds only names that its caller chose and, if it makes a manager, the name for the counter, which then moves on. */
  lemma StepAdds(w: World, op: Op, n: Name)
    requires n in Step(w, op).directory.batteries && n !in w.directory.batteries
    ensures || (n in Chosen(op) && Step(w, op).directory.batteries[n] != Manager)
            || (n == ManagerName(w.counter) && Step(w, op).counter > w.counter)
  {
    hide Grown, Induced, CanPartition, CanAggregate, Acyclic, Gone;
    var d := w.directory;
    match op
    case CreatePlain(name) => GrownBatteries(d, name, Plain, []);
    case CreateAggregate(name, parents, idle) => GrownBatteries(d, name, Aggregate, parents);
    case CreatePartition(source, names, scales, idle) =>
      var manager := ManagerName(w.counter);
      GrownBatteries(d, manager, Manager, [source]);
      PartitionedBatteries(Grown(d, manager, Manager, [source]), manager, names);
    case Remove(name) =>
      InducedBatteries(d, Gone(d, Target(d, name)));
  }

  lemma InducedBatteries(d: Directory, gone: set<Name>)
    ensures forall n :: n in Induced(d, gone).batteries ==> n in d.batteries && Induced(d, gone).batteries[n] == d.batteries[n]
  {
  }

  // ----- no run exits by itself -----

  /** Every name that the manager could still make up is free. */
  ghost predicate NamesLeft(w: World)
  {
    forall n, k: nat :: n in w.directory.batteries && n == ManagerName(k) ==> k < w.counter
  }

  lemma StepKeepsNames(w: World, op: Op)
    requires !w.exited && NamesLeft(w) && Polite(op)
    ensures !Step(w, op).exited && NamesLeft(Step(w, op)) && Step(w, op).counter >= w.counter
  {
    assert ManagerName(w.counter) !in w.directory.batteries;
    hide Grown, Induced, CanPartition, CanAggregate, Acyclic, Gone, ManagerName, Partitioned, Target;
    var w' := Step(w, op);
    assert !w'.exited && w'.counter >= w.counter;
    forall n, k: nat | n in w'.directory.batteries && n == ManagerName(k) ensures k < w'.counter {
      if n !in w.directory.batteries {
        StepAdds(w, op, n);
        assert n !in Chosen(op);
        ManagerNameInjective(k, w.counter);
      }
    }
  }

  /** As long as callers do not choose a name that the manager could make up, no run ends in an exit, and the next manager's
      name is always free. */
  lemma {:induction false} PoliteRunsGoOn(ops: seq<Op>)
    requires forall i :: 0 <= i < |ops| ==> Polite(ops[i])
    ensures !Run(Empty(), ops).exited && NamesLeft(Run(Empty(), ops))
    ensures ManagerName(Run(Empty(), ops).counter) !in Run(Empty(), ops).directory.batteries
  {
    hide Step, Polite;
    if ops != [] {
      PoliteRunsGoOn(ops[..|ops| - 1]);
      StepKeepsNames(Run(Empty(), ops[..|ops| - 1]), ops[|ops| - 1]);
    }
  }

  /** In any run a name that the manager could still make up was chosen by a caller. */
  lemma {:induction false} ChosenByCaller(ops: seq<Op>, n: Name, k: nat)
    requires n in Run(Empty(), ops).directory.batteries && n == ManagerName(k) && k >= Run(Empty(), ops).counter
    ensures exists i :: 0 <= i < |ops| && n in Chosen(ops[i])
  {
    var front, op := ops[..|ops| - 1], ops[|ops| - 1];
    var w := Run(Empty(), front);
    CounterGrows(w, op);
    if n in w.directory.batteries {
      ChosenByCaller(front, n, k);
      var i :| 0 <= i < |front| && n in Chosen(front[i]);
      assert n in Chosen(ops[i]);
    } else {
      StepAdds(w, op, n);
      if n == ManagerName(w.counter) && Step(w, op).counter > w.counter {
        ManagerNameInjective(k, w.counter);
      }
    }
  }

  lemma CounterGrows(w: World, op: Op)
    ensures Step(w, op).counter >= w.counter
  {
    hide Grown, Induced, CanPartition, CanAggregate, Acyclic, Gone, ManagerName, Partitioned, Target;
  }

  /** So the process ends exactly when a partition is asked for that could be made, and a caller has chosen the name that comes
      next. */
  lemma ExitsExactly(ops: seq<Op>, op: Op)
    requires !Run(Empty(), ops).exited
    ensures var w := Run(Empty(), ops);
            Step(w, op).exited <==>
            && op.CreatePartition? && CanPartition(w.directory, op.source, op.names, op.scales, op.idle)
            && ManagerName(w.counter) in w.directory.batteries
            && exists i :: 0 <= i < |ops| && ManagerName(w.counter) in Chosen(ops[i])
  {
    var w := Run(Empty(), ops);
    hide Grown, Induced, CanPartition, CanAggregate, Acyclic, Gone, ManagerName, Partitioned, Target, Run, Empty;
    if ManagerName(w.counter) in w.directory.batteries {
      ChosenByCaller(ops, ManagerName(w.counter), w.counter);
    }
  }

  /** A caller who names a battery pManager1 and then splits another one ends the process. */
  lemma TakenNameExits(idle: Name -> bool)
    requires idle("a")
    ensures var ops := [CreatePlain("pManager1"), CreatePlain("a")];
            var w := Run(Empty(), ops);
            !w.exited && Step(w, CreatePartition("a", ["x"], [Scale(1.0, 1.0)], idle)).exited
  {
    var one, two := CreatePlain("pManager1"), CreatePlain("a");
    assert [one, two][..1] == [one] && [one][..0] == [];
    assert Run(Empty(), [one]) == Step(Run(Empty(), []), one);
    assert Run(Empty(), [one, two]) == Step(Run(Empty(), [one]), two);
    PlainStep(Empty(), "pManager1");
    PlainStep(Step(Empty(), one), "a");
    assert "a" != "pManager1" by { assert |"a"| == 1; }
    assert Decimal(1) == "1" && ManagerName(1) == "pManager1";
    WholeScale();
  }

  lemma PlainStep(w: World, name: Name)
    requires !w.exited && name !in w.directory.batteries
    ensures Step(w, CreatePlain(name)) == w.(directory := w.directory.(batteries := w.directory.batteries[name := Plain]))
  {
  }

  lemma WholeScale()
    ensures TotalScale([Scale(1.0, 1.0)]) == Scale(1.0, 1.0)
  {
    assert [Scale(1.0, 1.0)][..0] == [];
  }

  // ----- what an accepted request creates -----

  ghost predicate Distinct(names: seq<Name>)
  {
    forall i, j :: 0 <= i < j < |names| ==> names[i] != names[j]
  }

  /** The directory `d'` is `d` with `source` split by `manager` into batteries of these names. */
  ghost predicate SplitInto(d: Directory, d': Directory, source: Name, manager: Name, names: seq<Name>)
  {
    && d'.batteries == d.batteries[manager := Manager] + (map n | n in names :: Partition(manager))
    && ListOf(d'.parentGraph, source) == [manager]
    && ListOf(d'.parentGraph, manager) == names
    && forall n :: n != source && n != manager ==> ListOf(d'.parentGraph, n) == ListOf(d.parentGraph, n)
  }

  lemma ManagerSplits(d: Directory, source: Name, manager: Name)
    requires Free(d, source) && manager !in d.batteries && manager !in d.parentGraph
    ensures SplitInto(d, Grown(d, manager, Manager, [source]), source, manager, [])
  {
    GrownGraph(d, manager, Manager, source);
  }

  lemma OneMoreSplit(d: Directory, before: Directory, source: Name, manager: Name, names: seq<Name>, name: Name)
    requires SplitInto(d, before, source, manager, names) && source != manager && name != manager && name !in names
    ensures SplitInto(d, Grown(before, name, Partition(manager), [manager]), source, manager, names + [name])
  {
    hide Grown;
    GrownGraph(before, name, Partition(manager), manager);
  }

  lemma NotThere(d: Directory, before: Directory, source: Name, manager: Name, names: seq<Name>, name: Name)
    requires SplitInto(d, before, source, manager, names) && name != manager && name !in names && name !in d.batteries
    ensures name !in before.batteries
  {
  }

  lemma {:induction false} PartitionsSplit(d: Directory, source: Name, manager: Name, names: seq<Name>)
    requires Free(d, source) && manager !in d.batteries && manager !in d.parentGraph
    requires Distinct(names) && forall n :: n in names ==> n !in d.batteries && n != manager
    ensures var (d', ok) := Partitioned(Grown(d, manager, Manager, [source]), manager, names);
            ok && SplitInto(d, d', source, manager, names)
    decreases |names|
  {
    hide Grown;
    if names == [] {
      ManagerSplits(d, source, manager);
    } else {
      var k := |names| - 1;
      PartitionsSplit(d, source, manager, names[..k]);
      var before := Partitioned(Grown(d, manager, Manager, [source]), manager, names[..k]).0;
      assert names[k] in names && names[..k] + [names[k]] == names;
      hide SplitInto;
      NotThere(d, before, source, manager, names[..k], names[k]);
      OneMoreSplit(d, before, source, manager, names[..k], names[k]);
    }
  }

  /** If a name is taken, by another battery or by an earlier partition, the partitions before it stay and nothing after it is
      made. */
  lemma PartitionsStop(d: Directory, source: Name, manager: Name, names: seq<Name>, i: nat)
    requires Free(d, source) && manager !in d.batteries && manager !in d.parentGraph
    requires i < |names| && Distinct(names[..i]) && forall n :: n in names[..i] ==> n !in d.batteries && n != manager
    requires names[i] in d.batteries || names[i] == manager || names[i] in names[..i]
    ensures var (d', ok) := Partitioned(Grown(d, manager, Manager, [source]), manager, names);
            !ok && SplitInto(d, d', source, manager, names[..i])
  {
    hide Grown;
    var d1 := Grown(d, manager, Manager, [source]);
    PartitionsSplit(d, source, manager, names[..i]);
    assert names[..i + 1][..i] == names[..i];
    assert names[i] in Partitioned(d1, manager, names[..i]).0.batteries;
    PartitionedStops(d1, manager, names, i + 1);
  }

  lemma StepSplits(w: World, op: Op, manager: Name)
    requires !w.exited && op.CreatePartition? && manager == ManagerName(w.counter)
    requires manager !in w.directory.batteries && manager !in w.directory.parentGraph
    requires CanPartition(w.directory, op.source, op.names, op.scales, op.idle)
    requires Distinct(op.names) && forall n :: n in op.names ==> n !in w.directory.batteries && n != manager
    ensures !Step(w, op).exited && SplitInto(w.directory, Step(w, op).directory, op.source, manager, op.names)
  {
    hide ManagerName, Grown, SplitInto, Partitioned, TotalScale;
    PartitionsSplit(w.directory, op.source, manager, op.names);
  }

  /** After every polite run, every request that the checks let through, with new and different names, makes a new manager
      below the source and exactly these partitions below the manager, in this order, and nothing else. */
  lemma PartitionCreated(ops: seq<Op>, op: Op)
    requires (forall i :: 0 <= i < |ops| ==> Polite(ops[i])) && Polite(op) && op.CreatePartition?
    requires CanPartition(Run(Empty(), ops).directory, op.source, op.names, op.scales, op.idle)
    requires Distinct(op.names) && forall n :: n in op.names ==> n !in Run(Empty(), ops).directory.batteries
    ensures var w := Run(Empty(), ops);
            var w', manager := Step(w, op), ManagerName(w.counter);
            && manager !in w.directory.batteries
            && SplitInto(w.directory, w'.directory, op.source, manager, op.names)
            && !w'.exited
  {
    hide ManagerName, Run, Empty, Invariant, Step, CanPartition, SplitInto, Distinct;
    var w := Run(Empty(), ops);
    PoliteRunsGoOn(ops);
    RunInvariant(ops);
    NewToGraph(w.directory, ManagerName(w.counter));
    forall n | n in op.names ensures n != ManagerName(w.counter) {
      assert n in Chosen(op);
    }
    StepSplits(w, op, ManagerName(w.counter));
  }

  lemma NewToGraph(d: Directory, n: Name)
    requires Invariant(d) && n !in d.batteries
    ensures n !in d.parentGraph
  {
    if n in d.parentGraph {
      assert Linked(d.parentGraph, n, d.parentGraph[n][0]);
    }
  }
}
