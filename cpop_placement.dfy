/** The placement half of algorithms/CPOPScheduler.java: `scheduleCriticalPath` pins
    the critical path to the critical processor, then `scheduleRemainingTasks` places
    every other task, by descending upward rank, on the first VM where it finishes
    earliest. Both place a task the same way: it starts when its VM is free and the
    outputs of its already placed predecessors have arrived, and its VM is busy
    until it finishes. */
module CpopPlacement {
  import opened Folds
  import opened Sorting
  import opened CloudTask
  import opened Dags
  import opened Costs
  import opened CpopRanks
  import opened CpopPath

  /** `taskToVmMapping`, `taskStartTime` and `taskFinishTime` keyed by task id, and
      `vmAvailableTime` indexed by the VM's position in the list. */
  datatype Placement = Placement(vmOf: map<nat, nat>, start: map<nat, real>,
                                 finish: map<nat, real>, clock: seq<real>)

  /** What the constructor leaves: nothing placed and every VM free at time 0. */
  function InitialPlacement(numVms: nat): Placement
  {
    Placement(map[], map[], map[], seq(numVms, _ => 0.0))
  }

  // ------------------------------------------------------ earliest start / finish

  /** What predecessor `p` contributes to `calculateEarliestStartTime(t, vm)`: its
      finish time plus the transfer when it ran on another VM. A predecessor without a
      finish time is skipped by the source; a 0.0 term is the same, since the
      maximum starts from 0.0. */
  function ReadyTerm(g: Dag, pl: Placement, p: nat, vm: nat): real
  {
    if p in pl.finish then
      pl.finish[p] + (if p in pl.vmOf && p < |g.tasks| then CommunicationCost(g.tasks[p], pl.vmOf[p], vm) else 0.0)
    else 0.0
  }

  function ReadyTerms(g: Dag, pl: Placement, preds: seq<nat>, vm: nat): (r: seq<real>)
    ensures |r| == |preds| && forall k :: 0 <= k < |preds| ==> r[k] == ReadyTerm(g, pl, preds[k], vm)
  {
    seq(|preds|, k requires 0 <= k < |preds| => ReadyTerm(g, pl, preds[k], vm))
  }

  /** `calculateEarliestStartTime`: the latest arrival of a placed predecessor's
      output on `vm`, and 0.0 when there is none. */
  function EarliestStart(g: Dag, pl: Placement, t: nat, vm: nat): real
  {
    MaxFrom(0.0, ReadyTerms(g, pl, Predecessors(g.edges, t), vm))
  }

  /** The earliest start is not negative, waits for every placed predecessor, and is
      either 0.0 or the arrival time of one of them. */
  lemma EarliestStartProperties(g: Dag, pl: Placement, t: nat, vm: nat)
    ensures 0.0 <= EarliestStart(g, pl, t, vm)
    ensures forall p :: p in Predecessors(g.edges, t) && p in pl.finish ==>
              ReadyTerm(g, pl, p, vm) <= EarliestStart(g, pl, t, vm)
    ensures EarliestStart(g, pl, t, vm) == 0.0 ||
            exists p :: p in Predecessors(g.edges, t) && p in pl.finish &&
              EarliestStart(g, pl, t, vm) == ReadyTerm(g, pl, p, vm)
  {
    var preds := Predecessors(g.edges, t);
    var terms := ReadyTerms(g, pl, preds, vm);
    MaxFromBounds(0.0, terms);
    forall p | p in preds && p in pl.finish ensures ReadyTerm(g, pl, p, vm) <= MaxFrom(0.0, terms) {
      var k :| 0 <= k < |preds| && preds[k] == p;
      assert terms[k] <= MaxFrom(0.0, terms);
    }
    if MaxFrom(0.0, terms) != 0.0 {
      var k :| 0 <= k < |terms| && MaxFrom(0.0, terms) == terms[k];
      assert preds[k] in preds;
    }
  }

  /** The earliest start reads only the mapping and the finish times. */
  lemma EarliestStartReadsFinishTimes(g: Dag, pl: Placement, other: Placement, t: nat, vm: nat)
    requires pl.vmOf == other.vmOf && pl.finish == other.finish
    ensures EarliestStart(g, pl, t, vm) == EarliestStart(g, other, t, vm)
  {
    var preds := Predecessors(g.edges, t);
    assert ReadyTerms(g, pl, preds, vm) == ReadyTerms(g, other, preds, vm);
  }

  /** `calculateEarliestFinishTime`: start once the VM is free and the inputs are in. */
  function EarliestFinish(g: Dag, vms: seq<Vm>, pl: Placement, t: nat, vm: nat): real
    requires ValidVms(vms) && t < |g.tasks| && vm < |vms| == |pl.clock|
  {
    Max(EarliestStart(g, pl, t, vm), pl.clock[vm]) + ExecutionTime(g.tasks[t], vms[vm])
  }

  /** Placing `t` on `vm`: the four map updates both schedule loops perform. */
  function PlaceOn(g: Dag, vms: seq<Vm>, pl: Placement, t: nat, vm: nat): (r: Placement)
    requires ValidVms(vms) && t < |g.tasks| && vm < |vms| == |pl.clock|
    ensures |r.clock| == |pl.clock|
  {
    var s := Max(EarliestStart(g, pl, t, vm), pl.clock[vm]);
    var f := s + ExecutionTime(g.tasks[t], vms[vm]);
    Placement(pl.vmOf[t := vm], pl.start[t := s], pl.finish[t := f], pl.clock[vm := f])
  }

  /** A placed task starts at the earliest time its VM is free and its placed
      predecessors' outputs are in; it finishes its execution time later, which is its
      earliest finish time, and its VM is busy until then. No VM clock goes back. */
  lemma PlaceOnProperties(g: Dag, vms: seq<Vm>, pl: Placement, t: nat, vm: nat)
    requires WellFormed(g) && ValidVms(vms) && t < |g.tasks| && vm < |vms| == |pl.clock|
    ensures var r := PlaceOn(g, vms, pl, t, vm);
            && r.vmOf[t] == vm
            && pl.clock[vm] <= r.start[t]
            && (forall p :: p in Predecessors(g.edges, t) && p in pl.finish ==>
                  ReadyTerm(g, pl, p, vm) <= r.start[t])
            && (r.start[t] == pl.clock[vm] || r.start[t] == EarliestStart(g, pl, t, vm))
            && r.finish[t] == EarliestFinish(g, vms, pl, t, vm)
            && r.start[t] < r.finish[t]
            && r.clock[vm] == r.finish[t]
            && (forall v :: 0 <= v < |vms| ==> pl.clock[v] <= r.clock[v])
            && (forall v :: 0 <= v < |vms| && v != vm ==> r.clock[v] == pl.clock[v])
  {
    EarliestStartProperties(g, pl, t, vm);
  }

  // ------------------------------------------------------------- the invariant

  /** Task `x` is placed on a listed VM, does not start before 0, runs for its
      execution time there, and is over by the time its VM is free. */
  ghost predicate PlacedWell(g: Dag, vms: seq<Vm>, pl: Placement, x: nat)
  {
    && x < |g.tasks| && x in pl.vmOf && x in pl.start && x in pl.finish
    && pl.vmOf[x] < |vms| == |pl.clock| && vms[pl.vmOf[x]].mips > 0.0
    && 0.0 <= pl.start[x]
    && pl.finish[x] == pl.start[x] + ExecutionTime(g.tasks[x], vms[pl.vmOf[x]])
    && pl.finish[x] <= pl.clock[pl.vmOf[x]]
  }

  /** `a` was placed before `b`: if an edge leads from `a` to `b`, `b` starts after
      `a`'s output has arrived; if they share a VM, `b` starts after `a` finishes. */
  ghost predicate Ordered(g: Dag, pl: Placement, a: nat, b: nat)
  {
    && a < |g.tasks| && a in pl.vmOf && a in pl.finish && b in pl.vmOf && b in pl.start
    && ((a, b) in g.edges ==>
          pl.finish[a] + CommunicationCost(g.tasks[a], pl.vmOf[a], pl.vmOf[b]) <= pl.start[b])
    && (pl.vmOf[a] == pl.vmOf[b] ==> pl.finish[a] <= pl.start[b])
  }

  /** The tasks of `order` have been placed, in that order, and no other task has:
      every VM clock is not negative, every task is placed well, and every task placed
      earlier is ordered before every task placed later. */
  ghost predicate PlanInvariant(g: Dag, vms: seq<Vm>, pl: Placement, order: seq<nat>)
  {
    && |pl.clock| == |vms|
    && (forall v :: 0 <= v < |vms| ==> 0.0 <= pl.clock[v])
    && (forall x :: x in pl.vmOf <==> x in order)
    && (forall i :: 0 <= i < |order| ==> PlacedWell(g, vms, pl, order[i]))
    && (forall i, j :: 0 <= i < j < |order| ==> Ordered(g, pl, order[i], order[j]))
  }

  /** The invariant speaks of the order's contents only. */
  lemma PlanInvariantRegroup(g: Dag, vms: seq<Vm>, pl: Placement, order: seq<nat>, front: seq<nat>,
                             t: nat, path: seq<nat>)
    requires PlanInvariant(g, vms, pl, (order + front) + [t]) && path == front + [t]
    ensures PlanInvariant(g, vms, pl, order + path)
  {
    assert (order + front) + [t] == order + path;
  }

  lemma InitialPlacementInvariant(g: Dag, vms: seq<Vm>)
    ensures PlanInvariant(g, vms, InitialPlacement(|vms|), [])
  {
  }

  /** Placing a task that is not placed yet keeps the invariant, with the task
      appended to the placement order. */
  lemma PlaceOnKeepsInvariant(g: Dag, vms: seq<Vm>, pl: Placement, order: seq<nat>, t: nat, vm: nat)
    requires WellFormed(g) && ValidVms(vms) && PlanInvariant(g, vms, pl, order)
    requires t < |g.tasks| && t !in order && vm < |vms|
    ensures PlanInvariant(g, vms, PlaceOn(g, vms, pl, t, vm), order + [t])
  {
    var r := PlaceOn(g, vms, pl, t, vm);
    var o := order + [t];
    PlaceOnProperties(g, vms, pl, t, vm);
    forall i | 0 <= i < |o| ensures PlacedWell(g, vms, r, o[i]) {
      if i < |order| {
        assert o[i] == order[i] && PlacedWell(g, vms, pl, order[i]);
        assert o[i] != t;
      }
    }
    forall i, j | 0 <= i < j < |o| ensures Ordered(g, r, o[i], o[j]) {
      assert o[i] == order[i] && PlacedWell(g, vms, pl, order[i]);
      if j < |order| {
        assert o[j] == order[j] && Ordered(g, pl, order[i], order[j]);
        assert o[i] != t && o[j] != t;
      } else {
        var a := order[i];
        assert a != t;
        if (a, t) in g.edges {
          assert a in Predecessors(g.edges, t);
        }
      }
    }
  }

  // ------------------------------------------------------------------ the loops

  /** `scheduleCriticalPath`: every task of the path, in order, on `cp`. Keeping
      `currentTime` apart and storing it at the end leaves the same clock as storing
      every finish time as it comes. */
  function PlacePath(g: Dag, vms: seq<Vm>, pl: Placement, path: seq<nat>, cp: nat): (r: Placement)
    requires ValidVms(vms) && InGraph(g, path) && cp < |vms| == |pl.clock|
    ensures |r.clock| == |vms|
    decreases |path|
  {
    if path == [] then pl
    else PlaceOn(g, vms, PlacePath(g, vms, pl, path[..|path| - 1], cp), path[|path| - 1], cp)
  }

  /** The earliest finish time of `t` on each VM, in list order. */
  function EarliestFinishes(g: Dag, vms: seq<Vm>, pl: Placement, t: nat): (r: seq<real>)
    requires ValidVms(vms) && t < |g.tasks| && |vms| == |pl.clock|
    ensures |r| == |vms| && forall v :: 0 <= v < |vms| ==> r[v] == EarliestFinish(g, vms, pl, t, v)
  {
    seq(|vms|, v requires 0 <= v < |vms| => EarliestFinish(g, vms, pl, t, v))
  }

  /** The VM `scheduleRemainingTasks` picks for `t`: the first one where it finishes
      earliest. */
  function BestVm(g: Dag, vms: seq<Vm>, pl: Placement, t: nat): (r: nat)
    requires ValidVms(vms) && |vms| > 0 && t < |g.tasks| && |vms| == |pl.clock|
    ensures r < |vms|
    ensures forall v :: 0 <= v < |vms| ==> EarliestFinish(g, vms, pl, t, r) <= EarliestFinish(g, vms, pl, t, v)
    ensures forall v :: 0 <= v < r ==> EarliestFinish(g, vms, pl, t, r) < EarliestFinish(g, vms, pl, t, v)
  {
    ArgMinFirst(EarliestFinishes(g, vms, pl, t))
  }

  /** The placing loop of `scheduleRemainingTasks`, over the tasks in `order`. */
  function PlaceRemaining(g: Dag, vms: seq<Vm>, pl: Placement, order: seq<nat>): (r: Placement)
    requires ValidVms(vms) && |vms| > 0 && InGraph(g, order) && |vms| == |pl.clock|
    ensures |r.clock| == |vms|
    decreases |order|
  {
    if order == [] then pl
    else
      var prev := PlaceRemaining(g, vms, pl, order[..|order| - 1]);
      var t := order[|order| - 1];
      PlaceOn(g, vms, prev, t, BestVm(g, vms, prev, t))
  }

  /** What placing `t` on `vm` stores, with the start and finish times written out. */
  lemma PlaceOnStores(g: Dag, vms: seq<Vm>, pl: Placement, t: nat, vm: nat, s: real, f: real)
    requires ValidVms(vms) && t < |g.tasks| && vm < |vms| == |pl.clock|
    requires s == Max(pl.clock[vm], EarliestStart(g, pl, t, vm))
    requires f == s + ExecutionTime(g.tasks[t], vms[vm])
    ensures PlaceOn(g, vms, pl, t, vm) == Placement(pl.vmOf[t := vm], pl.start[t := s], pl.finish[t := f], pl.clock[vm := f])
  {
  }

  /** One more task of the path placed. */
  lemma PlacePathNext(g: Dag, vms: seq<Vm>, pl: Placement, path: seq<nat>, k: nat, cp: nat)
    requires ValidVms(vms) && InGraph(g, path) && cp < |vms| == |pl.clock| && k < |path|
    ensures PlacePath(g, vms, pl, path[..k + 1], cp) == PlaceOn(g, vms, PlacePath(g, vms, pl, path[..k], cp), path[k], cp)
  {
    assert path[..k + 1][..k] == path[..k];
  }

  /** One more remaining task placed. */
  lemma PlaceRemainingNext(g: Dag, vms: seq<Vm>, pl: Placement, order: seq<nat>, k: nat)
    requires ValidVms(vms) && |vms| > 0 && InGraph(g, order) && |vms| == |pl.clock| && k < |order|
    ensures var prev := PlaceRemaining(g, vms, pl, order[..k]);
            PlaceRemaining(g, vms, pl, order[..k + 1]) == PlaceOn(g, vms, prev, order[k], BestVm(g, vms, prev, order[k]))
  {
    assert order[..k + 1][..k] == order[..k];
  }

  /** Placing the path keeps the invariant. */
  lemma {:induction false} PlacePathKeepsInvariant(g: Dag, vms: seq<Vm>, pl: Placement, order: seq<nat>,
                                                   path: seq<nat>, cp: nat)
    requires WellFormed(g) && ValidVms(vms) && PlanInvariant(g, vms, pl, order)
    requires InGraph(g, path) && Distinct(path) && (forall x :: x in path ==> x !in order) && cp < |vms|
    ensures PlanInvariant(g, vms, PlacePath(g, vms, pl, path, cp), order + path)
    decreases |path|
  {
    if path == [] {
      assert order + path == order;
    } else {
      var front := path[..|path| - 1];
      var t := path[|path| - 1];
      assert path == front + [t];
      PlacePathKeepsInvariant(g, vms, pl, order, front, cp);
      assert t !in order + front;
      var prev := PlacePath(g, vms, pl, front, cp);
      PlaceOnKeepsInvariant(g, vms, prev, order + front, t, cp);
      PlanInvariantRegroup(g, vms, PlaceOn(g, vms, prev, t, cp), order, front, t, path);
    }
  }

  /** Placing the path puts every path task on `cp`. */
  lemma {:induction false} PlacePathOnProcessor(g: Dag, vms: seq<Vm>, pl: Placement, path: seq<nat>, cp: nat)
    requires ValidVms(vms) && InGraph(g, path) && cp < |vms| == |pl.clock|
    ensures forall t :: t in path ==> t in PlacePath(g, vms, pl, path, cp).vmOf &&
                                      PlacePath(g, vms, pl, path, cp).vmOf[t] == cp
    decreases |path|
  {
    if path != [] {
      var front := path[..|path| - 1];
      PlacePathOnProcessor(g, vms, pl, front, cp);
      assert forall x :: x in path ==> x in front || x == path[|path| - 1] by {
        assert path == front + [path[|path| - 1]];
      }
    }
  }

  /** Placing the remaining tasks keeps the invariant. */
  lemma {:induction false} PlaceRemainingKeepsInvariant(g: Dag, vms: seq<Vm>, pl: Placement,
                                                        order: seq<nat>, rest: seq<nat>)
    requires WellFormed(g) && ValidVms(vms) && |vms| > 0 && PlanInvariant(g, vms, pl, order)
    requires InGraph(g, rest) && Distinct(rest) && (forall x :: x in rest ==> x !in order)
    ensures PlanInvariant(g, vms, PlaceRemaining(g, vms, pl, rest), order + rest)
    decreases |rest|
  {
    if rest == [] {
      assert order + rest == order;
    } else {
      var front := rest[..|rest| - 1];
      var t := rest[|rest| - 1];
      assert rest == front + [t];
      PlaceRemainingKeepsInvariant(g, vms, pl, order, front);
      assert t !in order + front;
      var prev := PlaceRemaining(g, vms, pl, front);
      var vm := BestVm(g, vms, prev, t);
      PlaceOnKeepsInvariant(g, vms, prev, order + front, t, vm);
      PlanInvariantRegroup(g, vms, PlaceOn(g, vms, prev, t, vm), order, front, t, rest);
    }
  }

  /** Placing other tasks leaves an already placed task where it was. */
  lemma {:induction false} PlaceRemainingKeepsOthers(g: Dag, vms: seq<Vm>, pl: Placement,
                                                     rest: seq<nat>, x: nat)
    requires ValidVms(vms) && |vms| > 0 && InGraph(g, rest) && |vms| == |pl.clock|
    requires x in pl.vmOf && x !in rest
    ensures x in PlaceRemaining(g, vms, pl, rest).vmOf
    ensures PlaceRemaining(g, vms, pl, rest).vmOf[x] == pl.vmOf[x]
    decreases |rest|
  {
    if rest != [] {
      PlaceRemainingKeepsOthers(g, vms, pl, rest[..|rest| - 1], x);
      assert rest[|rest| - 1] in rest;
    }
  }

  // ------------------------------------------------------------- the whole plan

  /** The tasks of `order` that are not yet mapped, in order (`!scheduledTasks.contains`). */
  function Unplaced(order: seq<nat>, placed: map<nat, nat>): (r: seq<nat>)
    ensures forall x :: x in r <==> x in order && x !in placed
    decreases |order|
  {
    if order == [] then []
    else
      var front := order[..|order| - 1];
      var x := order[|order| - 1];
      assert forall y :: y in order <==> y in front || y == x by {
        assert order == front + [x];
      }
      if x in placed then Unplaced(front, placed) else Unplaced(front, placed) + [x]
  }

  lemma {:induction false} UnplacedDistinct(order: seq<nat>, placed: map<nat, nat>)
    requires Distinct(order)
    ensures Distinct(Unplaced(order, placed))
    decreases |order|
  {
    if order != [] {
      var front := order[..|order| - 1];
      assert Distinct(front);
      UnplacedDistinct(front, placed);
      assert order[|order| - 1] !in front;
    }
  }

  /** The upward rank as a sort key. */
  function UpwardKey(up: map<nat, real>): nat -> real
  {
    (t: nat) => Get(up, t)
  }

  /** The remaining tasks: those of `topo` not mapped yet, stably sorted by descending
      upward rank. */
  function RemainingOrder(topo: seq<nat>, placed: map<nat, nat>, up: map<nat, real>): (r: seq<nat>)
    ensures forall x :: x in r <==> x in topo && x !in placed
  {
    var unplaced := Unplaced(topo, placed);
    SortDescPermutes(unplaced, UpwardKey(up));
    assert forall x :: x in unplaced <==> x in multiset(unplaced);
    assert forall x :: x in SortDesc(unplaced, UpwardKey(up)) <==> x in multiset(SortDesc(unplaced, UpwardKey(up)));
    SortDesc(unplaced, UpwardKey(up))
  }

  /** What the scheduler needs besides a topological order: a well-formed graph, VMs
      of positive speed, and at least one VM unless the graph is empty. */
  ghost predicate PlanSetting(g: Dag, vms: seq<Vm>, topo: seq<nat>)
  {
    WellFormed(g) && ValidVms(vms) && IsTopologicalOrder(g, topo) && (|g.tasks| > 0 ==> |vms| > 0)
  }

  /** The upward ranks of the graph. */
  function PlanUp(g: Dag, vms: seq<Vm>, topo: seq<nat>): map<nat, real>
    requires PlanSetting(g, vms, topo) && |g.tasks| > 0
  {
    UpwardRanks(g, vms, topo, map[])
  }

  /** The critical path over both ranks. */
  function PlanPath(g: Dag, vms: seq<Vm>, topo: seq<nat>): (r: seq<nat>)
    requires PlanSetting(g, vms, topo) && |g.tasks| > 0
    ensures InGraph(g, r)
  {
    CriticalPathProperties(g, PlanUp(g, vms, topo), DownwardRanks(g, vms, topo, map[]));
    CriticalPath(g, PlanUp(g, vms, topo), DownwardRanks(g, vms, topo, map[]))
  }

  /** The placement `scheduleCriticalPath` leaves. */
  function PathPlacement(g: Dag, vms: seq<Vm>, topo: seq<nat>): (r: Placement)
    requires PlanSetting(g, vms, topo) && |g.tasks| > 0
    ensures |r.clock| == |vms|
  {
    var path := PlanPath(g, vms, topo);
    PlacePath(g, vms, InitialPlacement(|vms|), path, CriticalProcessor(g, vms, path))
  }

  /** The order `scheduleRemainingTasks` places the other tasks in. */
  function PlanRest(g: Dag, vms: seq<Vm>, topo: seq<nat>): (r: seq<nat>)
    requires PlanSetting(g, vms, topo) && |g.tasks| > 0
    ensures InGraph(g, r)
  {
    var r := RemainingOrder(topo, PathPlacement(g, vms, topo).vmOf, PlanUp(g, vms, topo));
    assert forall i :: 0 <= i < |r| ==> r[i] in topo;
    r
  }

  /** `schedule`: nothing for an empty graph; otherwise the critical path on the
      critical processor, then the remaining tasks. */
  function CpopPlan(g: Dag, vms: seq<Vm>, topo: seq<nat>): Placement
    requires PlanSetting(g, vms, topo)
  {
    if |g.tasks| == 0 then InitialPlacement(|vms|)
    else PlaceRemaining(g, vms, PathPlacement(g, vms, topo), PlanRest(g, vms, topo))
  }

  /** The tasks in the order they are placed: the critical path, then the rest. */
  function PlacementOrder(g: Dag, vms: seq<Vm>, topo: seq<nat>): seq<nat>
    requires PlanSetting(g, vms, topo)
  {
    if |g.tasks| == 0 then [] else PlanPath(g, vms, topo) + PlanRest(g, vms, topo)
  }

  /** The critical path is placed first, each of its tasks on the critical processor. */
  lemma PathPlacementProperties(g: Dag, vms: seq<Vm>, topo: seq<nat>)
    requires PlanSetting(g, vms, topo) && |g.tasks| > 0
    ensures PlanInvariant(g, vms, PathPlacement(g, vms, topo), PlanPath(g, vms, topo))
    ensures forall t :: t in PlanPath(g, vms, topo) ==>
              PathPlacement(g, vms, topo).vmOf[t] == CriticalProcessor(g, vms, PlanPath(g, vms, topo))
  {
    var path := PlanPath(g, vms, topo);
    CriticalPathProperties(g, PlanUp(g, vms, topo), DownwardRanks(g, vms, topo, map[]));
    InitialPlacementInvariant(g, vms);
    PlacePathKeepsInvariant(g, vms, InitialPlacement(|vms|), [], path, CriticalProcessor(g, vms, path));
    PlacePathOnProcessor(g, vms, InitialPlacement(|vms|), path, CriticalProcessor(g, vms, path));
    assert [] + path == path;
  }

  /** After the path is placed, exactly the path tasks are mapped, and the rest are
      the other vertices, each once. */
  lemma PlanRestElements(g: Dag, vms: seq<Vm>, topo: seq<nat>)
    requires PlanSetting(g, vms, topo) && |g.tasks| > 0
    ensures forall x :: x in PathPlacement(g, vms, topo).vmOf <==> x in PlanPath(g, vms, topo)
    ensures forall x: nat :: x in PlanRest(g, vms, topo) <==> x < |g.tasks| && x !in PlanPath(g, vms, topo)
    ensures Distinct(PlanRest(g, vms, topo))
  {
    var onPath := PathPlacement(g, vms, topo);
    PathPlacementProperties(g, vms, topo);
    forall x: nat ensures x in topo <==> x < |g.tasks| {
      if x in topo {
        var i :| 0 <= i < |topo| && topo[i] == x;
      }
    }
    var unplaced := Unplaced(topo, onPath.vmOf);
    TopologicalOrderDistinct(g, topo);
    UnplacedDistinct(topo, onPath.vmOf);
    SortDescKeepsElements(unplaced, UpwardKey(PlanUp(g, vms, topo)));
  }

  /** Every task is placed exactly once: the path and the rest share no task, and
      together they hold every vertex. */
  lemma PlacementOrderCovers(g: Dag, vms: seq<Vm>, topo: seq<nat>)
    requires PlanSetting(g, vms, topo) && |g.tasks| > 0
    ensures Distinct(PlacementOrder(g, vms, topo))
    ensures forall t: nat :: t in PlacementOrder(g, vms, topo) <==> t < |g.tasks|
  {
    var path := PlanPath(g, vms, topo);
    var rest := PlanRest(g, vms, topo);
    CriticalPathProperties(g, PlanUp(g, vms, topo), DownwardRanks(g, vms, topo, map[]));
    PlanRestElements(g, vms, topo);
    DistinctConcat(path, rest);
    assert forall t :: t in path ==> t < |g.tasks|;
  }

  /** The remaining tasks are placed by descending upward rank. */
  lemma PlanRestSorted(g: Dag, vms: seq<Vm>, topo: seq<nat>)
    requires PlanSetting(g, vms, topo) && |g.tasks| > 0
    ensures SortedDesc(PlanRest(g, vms, topo), UpwardKey(PlanUp(g, vms, topo)))
  {
    SortDescSorted(Unplaced(topo, PathPlacement(g, vms, topo).vmOf), UpwardKey(PlanUp(g, vms, topo)));
  }

  /** The schedule CPOP produces. The empty graph gets the empty mapping. Otherwise
      every vertex is mapped, the tasks are placed in `PlacementOrder`, each exactly
      once, well and in order, and every critical path task is on the critical
      processor. */
  lemma CpopPlanProperties(g: Dag, vms: seq<Vm>, topo: seq<nat>)
    requires PlanSetting(g, vms, topo)
    ensures |g.tasks| == 0 ==> CpopPlan(g, vms, topo).vmOf == map[]
    ensures PlanInvariant(g, vms, CpopPlan(g, vms, topo), PlacementOrder(g, vms, topo))
    ensures forall t: nat :: t in CpopPlan(g, vms, topo).vmOf <==> t < |g.tasks|
    ensures |g.tasks| > 0 ==> forall t :: t in PlanPath(g, vms, topo) ==>
              CpopPlan(g, vms, topo).vmOf[t] == CriticalProcessor(g, vms, PlanPath(g, vms, topo))
  {
    if |g.tasks| == 0 {
      InitialPlacementInvariant(g, vms);
      assert CpopPlan(g, vms, topo) == InitialPlacement(|vms|);
      assert CpopPlan(g, vms, topo).vmOf == map[];
    } else {
      var path := PlanPath(g, vms, topo);
      var rest := PlanRest(g, vms, topo);
      var onPath := PathPlacement(g, vms, topo);
      PathPlacementProperties(g, vms, topo);
      PlanRestElements(g, vms, topo);
      PlacementOrderCovers(g, vms, topo);
      PlaceRemainingKeepsInvariant(g, vms, onPath, path, rest);
      assert PlacementOrder(g, vms, topo) == path + rest;
      assert CpopPlan(g, vms, topo) == PlaceRemaining(g, vms, onPath, rest);
      forall t | t in path ensures CpopPlan(g, vms, topo).vmOf[t] == CriticalProcessor(g, vms, path) {
        PlaceRemainingKeepsOthers(g, vms, onPath, rest, t);
      }
    }
  }

  /** Every edge is respected, except possibly one that leads from a task off the
      critical path into it: the target then waits for the source's output. */
  lemma CpopPlanRespectsEdges(g: Dag, vms: seq<Vm>, topo: seq<nat>, p: nat, c: nat)
    requires PlanSetting(g, vms, topo) && (p, c) in g.edges
    requires c in PlanPath(g, vms, topo) ==> p in PlanPath(g, vms, topo)
    ensures var plan := CpopPlan(g, vms, topo);
            p in plan.finish && c in plan.start && p in plan.vmOf && c in plan.vmOf && p < |g.tasks|
            && plan.finish[p] + CommunicationCost(g.tasks[p], plan.vmOf[p], plan.vmOf[c]) <= plan.start[c]
  {
    var e :| 0 <= e < |g.edges| && g.edges[e] == (p, c);
    CpopPlanProperties(g, vms, topo);
    PlacementOrderCovers(g, vms, topo);
    CriticalPathProperties(g, PlanUp(g, vms, topo), DownwardRanks(g, vms, topo, map[]));
    PlanRestSorted(g, vms, topo);
    UpwardRanksSatisfyRecurrence(g, vms, topo, map[]);
    var i, j := EdgeOrderedInPlan(g, vms, topo, PlanUp(g, vms, topo), PlanPath(g, vms, topo),
                                  PlanRest(g, vms, topo), p, c);
    var order := PlacementOrder(g, vms, topo);
    assert Ordered(g, CpopPlan(g, vms, topo), order[i], order[j]);
  }

  /** Where the two ends of a respected edge sit in the placement order `path + rest`:
      the source first. */
  lemma EdgeOrderedInPlan(g: Dag, vms: seq<Vm>, topo: seq<nat>, up: map<nat, real>,
                          path: seq<nat>, rest: seq<nat>, p: nat, c: nat)
      returns (i: nat, j: nat)
    requires WellFormed(g) && ValidVms(vms) && |vms| > 0 && IsTopologicalOrder(g, topo)
    requires UpwardRecurrence(g, vms, up)
    requires InGraph(g, path) && forall k :: 0 <= k < |path| - 1 ==> (path[k], path[k + 1]) in g.edges
    requires SortedDesc(rest, UpwardKey(up))
    requires p in path + rest && c in path + rest
    requires (p, c) in g.edges && (c in path ==> p in path)
    ensures i < j < |path + rest| && (path + rest)[i] == p && (path + rest)[j] == c
  {
    if c in path {
      var a :| 0 <= a < |path| && path[a] == p;
      var b :| 0 <= b < |path| && path[b] == c;
      PathEdgesGoForward(g, topo, path, a, b);
      i, j := a, b;
    } else {
      var b :| 0 <= b < |rest| && rest[b] == c;
      if p in path {
        i :| 0 <= i < |path| && path[i] == p;
      } else {
        var a := RestEdgeForward(g, vms, up, rest, p, c, b);
        i := |path| + a;
      }
      j := |path| + b;
    }
  }

  /** Among the remaining tasks, sorted by descending upward rank, the source of an
      edge comes before its target: its upward rank is strictly larger. */
  lemma RestEdgeForward(g: Dag, vms: seq<Vm>, up: map<nat, real>, rest: seq<nat>, p: nat, c: nat, b: nat)
      returns (a: nat)
    requires WellFormed(g) && ValidVms(vms) && |vms| > 0 && UpwardRecurrence(g, vms, up)
    requires SortedDesc(rest, UpwardKey(up)) && p in rest && b < |rest| && rest[b] == c
    requires (p, c) in g.edges
    ensures a < b && rest[a] == p
  {
    var e :| 0 <= e < |g.edges| && g.edges[e] == (p, c);
    a :| 0 <= a < |rest| && rest[a] == p;
    UpwardRankProperties(g, vms, up, p);
    assert c in Successors(g.edges, p);
  }

  /** The restriction in `CpopPlanRespectsEdges` is needed. Take two tasks joined by
      the edge 0 -> 1, one VM of speed 1, the second task the longer one and nothing
      to transfer: task 1 has the greater priority, so the critical path is task 1
      alone; it is placed first, and task 0 after it on the same VM, so task 1 starts
      before its predecessor has finished. */
  lemma PathTaskCanPrecedeItsPredecessor(g: Dag, vms: seq<Vm>, topo: seq<nat>)
    requires PlanSetting(g, vms, topo)
    requires |g.tasks| == 2 && g.edges == [(0, 1)] && vms == [Vm(1.0)]
    requires g.tasks[0].length < g.tasks[1].length && g.tasks[0].outputSize == 0
    ensures PlanPath(g, vms, topo) == [1]
    ensures var plan := CpopPlan(g, vms, topo);
            1 in plan.start && 0 in plan.finish && plan.start[1] < plan.finish[0]
  {
    TwoTaskPath(g, vms, topo);
    var plan := CpopPlan(g, vms, topo);
    var order := PlacementOrder(g, vms, topo);
    CpopPlanProperties(g, vms, topo);
    PlacementOrderCovers(g, vms, topo);
    assert order[0] == 1;
    var j :| 0 <= j < |order| && order[j] == 0;
    SingleVmRunsInOrder(g, vms, plan, order, 0, j);
  }

  /** On a single VM a task placed earlier starts before a task placed later ends. */
  lemma SingleVmRunsInOrder(g: Dag, vms: seq<Vm>, pl: Placement, order: seq<nat>, i: nat, j: nat)
    requires WellFormed(g) && PlanInvariant(g, vms, pl, order) && |vms| == 1 && i < j < |order|
    ensures order[i] in pl.start && order[j] in pl.finish
    ensures pl.start[order[i]] < pl.finish[order[j]]
  {
    assert Ordered(g, pl, order[i], order[j]);
    assert PlacedWell(g, vms, pl, order[i]) && PlacedWell(g, vms, pl, order[j]);
  }

  /** In the setting above the critical path is task 1 alone. */
  lemma TwoTaskPath(g: Dag, vms: seq<Vm>, topo: seq<nat>)
    requires PlanSetting(g, vms, topo)
    requires |g.tasks| == 2 && g.edges == [(0, 1)] && vms == [Vm(1.0)]
    requires g.tasks[0].length < g.tasks[1].length && g.tasks[0].outputSize == 0
    ensures PlanPath(g, vms, topo) == [1]
  {
    var up := PlanUp(g, vms, topo);
    var down := DownwardRanks(g, vms, topo, map[]);
    UpwardRanksSatisfyRecurrence(g, vms, topo, map[]);
    DownwardRanksSatisfyRecurrence(g, vms, topo, map[]);
    TwoTaskUpwardRanks(g, vms, up);
    TwoTaskDownwardRanks(g, vms, down);
    TwoTaskCriticalPath(g, up, down);
  }

  /** The upward ranks of the two tasks: task 1 is an exit task, and task 0 adds at
      most its own length to task 1's rank. */
  lemma TwoTaskUpwardRanks(g: Dag, vms: seq<Vm>, up: map<nat, real>)
    requires WellFormed(g) && |g.tasks| == 2 && g.edges == [(0, 1)] && vms == [Vm(1.0)]
    requires g.tasks[0].outputSize == 0 && UpwardRecurrence(g, vms, up)
    ensures 0 in up && 1 in up
    ensures up[1] == g.tasks[1].length as real
    ensures up[0] <= g.tasks[0].length as real + g.tasks[1].length as real
  {
    SingleVmAverage(g.tasks[0], vms[0]);
    SingleVmAverage(g.tasks[1], vms[0]);
    NoSuccessorsIff(g.edges, 1);
    UpwardRankProperties(g, vms, up, 0);
    UpwardRankProperties(g, vms, up, 1);
    forall s | s in Successors(g.edges, 0) ensures s == 1 {
    }
  }

  /** The downward ranks of the two tasks: task 0 is an entry task, and task 1 adds
      its own length to task 0's rank. */
  lemma TwoTaskDownwardRanks(g: Dag, vms: seq<Vm>, down: map<nat, real>)
    requires WellFormed(g) && |g.tasks| == 2 && g.edges == [(0, 1)] && vms == [Vm(1.0)]
    requires g.tasks[0].outputSize == 0 && DownwardRecurrence(g, vms, down)
    ensures 0 in down && 1 in down
    ensures down[0] == g.tasks[0].length as real
    ensures down[1] >= g.tasks[0].length as real + g.tasks[1].length as real
  {
    SingleVmAverage(g.tasks[0], vms[0]);
    SingleVmAverage(g.tasks[1], vms[0]);
    NoPredecessorsIff(g.edges, 0);
    assert 0 in Predecessors(g.edges, 1);
    DownwardRankProperties(g, vms, down, 0);
    DownwardRankProperties(g, vms, down, 1);
  }

  /** With task 1 of the greater priority, the walk starts there and stops at once. */
  lemma TwoTaskCriticalPath(g: Dag, up: map<nat, real>, down: map<nat, real>)
    requires WellFormed(g) && |g.tasks| == 2 && g.edges == [(0, 1)]
    requires 0 in up && 1 in up && 0 in down && 1 in down
    requires up[0] + down[0] < up[1] + down[1]
    ensures CriticalPath(g, up, down) == [1]
  {
    var prio := Priority(up, down);
    CriticalPathStartIsMaximal(g, prio);
    assert prio(0) < prio(1);
    assert CriticalPathStart(g, prio) == 1;
    NoSuccessorsIff(g.edges, 1);
    WalkFromExitTask(g, prio, 1);
  }

  // ------------------------------------------------------- the intended placement

  /** The placement CPOP is meant to make: every task in topological order, a task of
      the critical path on the critical processor and any other on the first VM where
      it finishes earliest. A task is then placed only after all its predecessors. */
  function PlaceInOrder(g: Dag, vms: seq<Vm>, pl: Placement, order: seq<nat>, path: seq<nat>, cp: nat): (r: Placement)
    requires ValidVms(vms) && |vms| > 0 && InGraph(g, order) && cp < |vms| == |pl.clock|
    ensures |r.clock| == |vms|
    decreases |order|
  {
    if order == [] then pl
    else
      var prev := PlaceInOrder(g, vms, pl, order[..|order| - 1], path, cp);
      var t := order[|order| - 1];
      PlaceOn(g, vms, prev, t, if t in path then cp else BestVm(g, vms, prev, t))
  }

  /** Placing tasks in order keeps the invariant. */
  lemma {:induction false} PlaceInOrderKeepsInvariant(g: Dag, vms: seq<Vm>, pl: Placement, order: seq<nat>,
                                                      path: seq<nat>, cp: nat)
    requires WellFormed(g) && ValidVms(vms) && |vms| > 0 && cp < |vms| && PlanInvariant(g, vms, pl, [])
    requires InGraph(g, order) && Distinct(order)
    ensures PlanInvariant(g, vms, PlaceInOrder(g, vms, pl, order, path, cp), order)
    decreases |order|
  {
    if order != [] {
      var front := order[..|order| - 1];
      var t := order[|order| - 1];
      assert order == front + [t];
      PlaceInOrderKeepsInvariant(g, vms, pl, front, path, cp);
      var prev := PlaceInOrder(g, vms, pl, front, path, cp);
      var vm := if t in path then cp else BestVm(g, vms, prev, t);
      PlaceOnKeepsInvariant(g, vms, prev, front, t, vm);
    }
  }

  /** Placing tasks in order puts every one of them that is on the path on `cp`. */
  lemma {:induction false} PlaceInOrderOnProcessor(g: Dag, vms: seq<Vm>, pl: Placement, order: seq<nat>,
                                                   path: seq<nat>, cp: nat)
    requires ValidVms(vms) && |vms| > 0 && InGraph(g, order) && cp < |vms| == |pl.clock|
    ensures forall t :: t in order && t in path ==>
              t in PlaceInOrder(g, vms, pl, order, path, cp).vmOf &&
              PlaceInOrder(g, vms, pl, order, path, cp).vmOf[t] == cp
    decreases |order|
  {
    if order != [] {
      var front := order[..|order| - 1];
      PlaceInOrderOnProcessor(g, vms, pl, front, path, cp);
      assert forall x :: x in order ==> x in front || x == order[|order| - 1] by {
        assert order == front + [order[|order| - 1]];
      }
    }
  }

  /** The corrected `schedule`: nothing for an empty graph; otherwise every task in
      topological order, the critical path on the critical processor. */
  function CorrectedCpopPlan(g: Dag, vms: seq<Vm>, topo: seq<nat>): Placement
    requires PlanSetting(g, vms, topo)
  {
    if |g.tasks| == 0 then InitialPlacement(|vms|)
    else
      var path := PlanPath(g, vms, topo);
      PlaceInOrder(g, vms, InitialPlacement(|vms|), topo, path, CriticalProcessor(g, vms, path))
  }

  /** The corrected schedule places the tasks in topological order, each exactly once
      and well, maps every vertex, and keeps the critical path on the critical
      processor. */
  lemma CorrectedCpopPlanProperties(g: Dag, vms: seq<Vm>, topo: seq<nat>)
    requires PlanSetting(g, vms, topo)
    ensures PlanInvariant(g, vms, CorrectedCpopPlan(g, vms, topo), topo)
    ensures forall t: nat :: t in CorrectedCpopPlan(g, vms, topo).vmOf <==> t < |g.tasks|
    ensures |g.tasks| > 0 ==> forall t :: t in PlanPath(g, vms, topo) ==>
              t in CorrectedCpopPlan(g, vms, topo).vmOf &&
              CorrectedCpopPlan(g, vms, topo).vmOf[t] == CriticalProcessor(g, vms, PlanPath(g, vms, topo))
  {
    TopologicalOrderDistinct(g, topo);
    InitialPlacementInvariant(g, vms);
    if |g.tasks| > 0 {
      var path := PlanPath(g, vms, topo);
      var cp := CriticalProcessor(g, vms, path);
      PlaceInOrderKeepsInvariant(g, vms, InitialPlacement(|vms|), topo, path, cp);
      PlaceInOrderOnProcessor(g, vms, InitialPlacement(|vms|), topo, path, cp);
    } else {
      assert topo == [];
    }
  }

  /** In the corrected schedule every edge is respected: a task starts only once the
      output of each of its predecessors has arrived on its VM. */
  lemma CorrectedCpopPlanRespectsEdges(g: Dag, vms: seq<Vm>, topo: seq<nat>, p: nat, c: nat)
    requires PlanSetting(g, vms, topo) && (p, c) in g.edges
    ensures var plan := CorrectedCpopPlan(g, vms, topo);
            p in plan.finish && c in plan.start && p in plan.vmOf && c in plan.vmOf && p < |g.tasks|
            && plan.finish[p] + CommunicationCost(g.tasks[p], plan.vmOf[p], plan.vmOf[c]) <= plan.start[c]
  {
    CorrectedCpopPlanProperties(g, vms, topo);
    TopologicalPlanRespectsEdge(g, vms, CorrectedCpopPlan(g, vms, topo), topo, p, c);
  }

  /** Tasks placed well in a topological order wait for every predecessor. */
  lemma TopologicalPlanRespectsEdge(g: Dag, vms: seq<Vm>, pl: Placement, topo: seq<nat>, p: nat, c: nat)
    requires IsTopologicalOrder(g, topo) && PlanInvariant(g, vms, pl, topo) && (p, c) in g.edges
    requires Consistent(g)
    ensures p in pl.finish && c in pl.start && p in pl.vmOf && c in pl.vmOf && p < |g.tasks|
            && pl.finish[p] + CommunicationCost(g.tasks[p], pl.vmOf[p], pl.vmOf[c]) <= pl.start[c]
  {
    var e :| 0 <= e < |g.edges| && g.edges[e] == (p, c);
    assert p < |g.tasks| && c < |g.tasks|;
    assert p in topo && c in topo;
    var i :| 0 <= i < |topo| && topo[i] == p;
    var j :| 0 <= j < |topo| && topo[j] == c;
    assert Ordered(g, pl, topo[i], topo[j]);
  }
}
