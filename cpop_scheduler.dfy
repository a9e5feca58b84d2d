/** algorithms/CPOPScheduler.java as an object. The scheduler keeps the two rank maps,
    the task-to-VM mapping, the start and finish times and the VM clocks as fields,
    and each of its steps changes them in place. Every step is proved to leave
    exactly what the functions of CpopRanks, CpopPath and CpopPlacement describe,
    so what is proved there holds for the object. Tasks are named by their ids and
    VMs by their positions in the list. */
module CpopScheduling {
  import opened Wrappers
  import opened Folds
  import opened Sorting
  import opened CloudTask
  import opened Dags
  import opened Costs
  import opened CpopRanks
  import opened CpopPath
  import opened CpopPlacement

  class CpopScheduler {
    const graph: Dag
    const vms: seq<Vm>
    var upwardRank: map<nat, real>
    var downwardRank: map<nat, real>
    var taskToVm: map<nat, nat>
    var startTime: map<nat, real>
    var finishTime: map<nat, real>
    var vmAvailableTime: seq<real>

    /** The placement the four placement fields hold. */
    function State(): Placement
      reads this
    {
      Placement(taskToVm, startTime, finishTime, vmAvailableTime)
    }

    /** Nothing ranked or placed yet, and every VM free at time 0. */
    constructor (graph: Dag, vms: seq<Vm>)
      ensures this.graph == graph && this.vms == vms
      ensures upwardRank == map[] && downwardRank == map[]
      ensures State() == InitialPlacement(|vms|)
    {
      this.graph := graph;
      this.vms := vms;
      upwardRank := map[];
      downwardRank := map[];
      taskToVm := map[];
      startTime := map[];
      finishTime := map[];
      var clocks := [];
      var v := 0;
      while v < |vms|
        invariant v <= |vms| && |clocks| == v
        invariant forall i :: 0 <= i < v ==> clocks[i] == 0.0
      {
        clocks := clocks + [0.0];
        v := v + 1;
      }
      vmAvailableTime := clocks;
    }

    /** `schedule`: an empty mapping for an empty graph; otherwise both ranks, the
        critical path, its processor, the path and then the other tasks. The object
        must not have scheduled before. */
    method Schedule(topo: seq<nat>) returns (mapping: map<nat, nat>)
      requires PlanSetting(graph, vms, topo)
      requires upwardRank == map[] && downwardRank == map[] && State() == InitialPlacement(|vms|)
      modifies this
      ensures State() == CpopPlan(graph, vms, topo) && mapping == taskToVm
      ensures |graph.tasks| > 0 ==> upwardRank == PlanUp(graph, vms, topo)
      ensures |graph.tasks| > 0 ==> downwardRank == DownwardRanks(graph, vms, topo, map[])
    {
      if |graph.tasks| == 0 {
        return map[];
      }
      CalculateUpwardRank(topo);
      CalculateDownwardRank(topo);
      var path := FindCriticalPath();
      CriticalPathProperties(graph, upwardRank, downwardRank);
      var processor := FindCriticalProcessor(path);
      ScheduleCriticalPath(path, processor);
      assert State() == PathPlacement(graph, vms, topo);
      ScheduleRemainingTasks(topo);
      mapping := taskToVm;
    }

    // ------------------------------------------------------------------- ranks

    /** `calculateUpwardRank`: every task, in reverse topological order, gets its
        mean execution time plus its largest successor term. */
    method CalculateUpwardRank(topo: seq<nat>)
      requires ValidVms(vms) && |vms| > 0 && InGraph(graph, topo)
      modifies this
      ensures upwardRank == UpwardRanks(graph, vms, topo, old(upwardRank))
      ensures downwardRank == old(downwardRank) && State() == old(State())
    {
      ghost var init := upwardRank;
      var i := 0;
      while i < |topo|
        invariant i <= |topo|
        invariant upwardRank == StoreInOrder(Reversed(topo), i, UpwardStep(graph, vms), init)
        invariant downwardRank == old(downwardRank) && taskToVm == old(taskToVm)
        invariant startTime == old(startTime) && finishTime == old(finishTime)
        invariant vmAvailableTime == old(vmAvailableTime)
      {
        StoreUpwardRank(topo[|topo| - 1 - i], topo, i, init);
        i := i + 1;
      }
    }

    /** One turn of `calculateUpwardRank`'s loop: `task`, the `i`-th vertex from the
        end of `topo`, gets its rank, computed from the ranks stored so far. */
    method StoreUpwardRank(task: nat, ghost topo: seq<nat>, ghost i: nat, ghost init: map<nat, real>)
      requires ValidVms(vms) && |vms| > 0 && task < |graph.tasks|
      requires i < |topo| && topo[|topo| - 1 - i] == task
      requires upwardRank == StoreInOrder(Reversed(topo), i, UpwardStep(graph, vms), init)
      modifies this
      ensures upwardRank == StoreInOrder(Reversed(topo), i + 1, UpwardStep(graph, vms), init)
      ensures downwardRank == old(downwardRank) && State() == old(State())
    {
      var rank := UpwardRankOfTask(task);
      StoreInOrderNext(Reversed(topo), i, UpwardStep(graph, vms), init, rank);
      upwardRank := upwardRank[task := rank];
    }

    /** The body of `calculateUpwardRank`'s loop: the value stored for `task`. */
    method UpwardRankOfTask(task: nat) returns (r: real)
      requires ValidVms(vms) && |vms| > 0 && task < |graph.tasks|
      ensures r == UpwardStep(graph, vms)(task, upwardRank)
    {
      var maxSuccessorRank := MaxSuccessorRank(task);
      var avgComputationCost := CalculateAverageComputationCost(task);
      r := avgComputationCost + maxSuccessorRank;
    }

    /** The inner loop of `calculateUpwardRank`: the largest
        `communicationCost + successorRank`, from 0.0. */
    method MaxSuccessorRank(task: nat) returns (r: real)
      requires task < |graph.tasks|
      ensures r == MaxFrom(0.0, SuccessorTerms(graph, task, Successors(graph.edges, task), upwardRank))
    {
      var successors := Successors(graph.edges, task);
      ghost var terms := SuccessorTerms(graph, task, successors, upwardRank);
      r := 0.0;
      var k := 0;
      while k < |successors|
        invariant k <= |successors| && r == MaxFrom(0.0, terms[..k])
      {
        MaxFromNext(0.0, terms, k);
        var communicationCost := AverageCommunicationCost(graph.tasks[task]);
        var successorRank := Get(upwardRank, successors[k]);
        r := Max(r, communicationCost + successorRank);
        k := k + 1;
      }
      assert terms[..k] == terms;
    }

    /** `calculateDownwardRank`: every task, in topological order, gets its largest
        predecessor term plus its own mean execution time. */
    method CalculateDownwardRank(topo: seq<nat>)
      requires WellFormed(graph) && ValidVms(vms) && |vms| > 0 && InGraph(graph, topo)
      modifies this
      ensures downwardRank == DownwardRanks(graph, vms, topo, old(downwardRank))
      ensures upwardRank == old(upwardRank) && State() == old(State())
    {
      ghost var init := downwardRank;
      var i := 0;
      while i < |topo|
        invariant i <= |topo|
        invariant downwardRank == StoreInOrder(topo, i, DownwardStep(graph, vms), init)
        invariant upwardRank == old(upwardRank) && taskToVm == old(taskToVm)
        invariant startTime == old(startTime) && finishTime == old(finishTime)
        invariant vmAvailableTime == old(vmAvailableTime)
      {
        StoreDownwardRank(topo[i], topo, i, init);
        i := i + 1;
      }
    }

    /** One turn of `calculateDownwardRank`'s loop: `task`, the `i`-th vertex of
        `order`, gets its rank, computed from the ranks stored so far. */
    method StoreDownwardRank(task: nat, ghost order: seq<nat>, ghost i: nat, ghost init: map<nat, real>)
      requires WellFormed(graph) && ValidVms(vms) && |vms| > 0 && task < |graph.tasks|
      requires i < |order| && order[i] == task
      requires downwardRank == StoreInOrder(order, i, DownwardStep(graph, vms), init)
      modifies this
      ensures downwardRank == StoreInOrder(order, i + 1, DownwardStep(graph, vms), init)
      ensures upwardRank == old(upwardRank) && State() == old(State())
    {
      var rank := DownwardRankOfTask(task);
      StoreInOrderNext(order, i, DownwardStep(graph, vms), init, rank);
      downwardRank := downwardRank[task := rank];
    }

    /** The body of `calculateDownwardRank`'s loop: the value stored for `task`. */
    method DownwardRankOfTask(task: nat) returns (r: real)
      requires WellFormed(graph) && ValidVms(vms) && |vms| > 0 && task < |graph.tasks|
      ensures r == DownwardStep(graph, vms)(task, downwardRank)
    {
      var maxPredecessorRank := MaxPredecessorRank(task);
      var avgComputationCost := CalculateAverageComputationCost(task);
      r := maxPredecessorRank + avgComputationCost;
    }

    /** The inner loop of `calculateDownwardRank`: the largest
        `predecessorRank + communicationCost`, from 0.0. */
    method MaxPredecessorRank(task: nat) returns (r: real)
      requires WellFormed(graph)
      ensures r == MaxFrom(0.0, PredecessorTerms(graph, Predecessors(graph.edges, task), downwardRank))
    {
      var predecessors := Predecessors(graph.edges, task);
      ghost var terms := PredecessorTerms(graph, predecessors, downwardRank);
      PredecessorsInGraph(graph, task);
      r := 0.0;
      var k := 0;
      while k < |predecessors|
        invariant k <= |predecessors| && r == MaxFrom(0.0, terms[..k])
      {
        MaxFromNext(0.0, terms, k);
        var p := predecessors[k];
        var communicationCost := AverageCommunicationCost(graph.tasks[p]);
        var predecessorRank := Get(downwardRank, p);
        r := Max(r, predecessorRank + communicationCost);
        k := k + 1;
      }
      assert terms[..k] == terms;
    }

    /** `calculateAverageComputationCost`: the execution times summed over the VMs in
        list order, divided by their number. */
    method CalculateAverageComputationCost(task: nat) returns (r: real)
      requires ValidVms(vms) && |vms| > 0 && task < |graph.tasks|
      ensures r == AverageComputationCost(graph.tasks[task], vms)
    {
      ghost var times := ExecutionTimes(graph.tasks[task], vms);
      var totalCost := 0.0;
      var v := 0;
      while v < |vms|
        invariant v <= |vms| && totalCost == Sum(times[..v])
      {
        SumNext(times, v);
        totalCost := totalCost + ExecutionTime(graph.tasks[task], vms[v]);
        v := v + 1;
      }
      assert times[..v] == times;
      r := totalCost / |vms| as real;
    }

    // ----------------------------------------------------------- critical path

    /** `findCriticalPath`: sort the tasks by descending priority and walk from the
        first one. */
    method FindCriticalPath() returns (path: seq<nat>)
      requires WellFormed(graph)
      ensures path == CriticalPath(graph, upwardRank, downwardRank)
    {
      var priority := Priority(upwardRank, downwardRank);
      var allTasks := SortDesc(Ids(|graph.tasks|), priority);
      SortDescPermutes(Ids(|graph.tasks|), priority);
      assert |allTasks| == |multiset(allTasks)| == |graph.tasks|;
      path := [];
      var visited: set<nat> := {};
      if |allTasks| > 0 {
        assert allTasks[0] in multiset(Ids(|graph.tasks|));
        path, visited := BuildActualCriticalPath(allTasks[0], path, visited);
      }
    }

    /** `buildActualCriticalPath`: the path and the visited set it is handed are
        extended in place by the source; here they are passed in and back out.
        `visited` holds exactly the tasks of `path`. */
    method BuildActualCriticalPath(current: nat, path: seq<nat>, visited: set<nat>)
        returns (path': seq<nat>, visited': set<nat>)
      requires WellFormed(graph) && current < |graph.tasks|
      requires forall t :: t in visited <==> t in path
      ensures path' == CriticalWalk(graph, Priority(upwardRank, downwardRank), current, path)
      ensures forall t :: t in visited' <==> t in path'
      decreases Unvisited(graph, path)
    {
      if current in visited {
        return path, visited;
      }
      visited' := visited + {current};
      path' := path + [current];
      var next := BestUnvisitedSuccessor(current, visited', path');
      if next.Some? {
        SuccessorInGraph(graph, current, next.value);
        assert Unvisited(graph, path') < Unvisited(graph, path) by {
          assert current in Unvisited(graph, path) && current !in Unvisited(graph, path');
        }
        path', visited' := BuildActualCriticalPath(next.value, path', visited');
      }
    }

    /** The successor scan of `buildActualCriticalPath`: the unvisited successor of
        strictly greatest priority, the first such in edge order; `None` for `null`. */
    method BestUnvisitedSuccessor(current: nat, visited: set<nat>, ghost path: seq<nat>)
        returns (next: Option<nat>)
      requires forall t :: t in visited <==> t in path
      ensures next == BestUnvisited(Successors(graph.edges, current), path, Priority(upwardRank, downwardRank))
    {
      var successors := Successors(graph.edges, current);
      ghost var priority := Priority(upwardRank, downwardRank);
      next := None;
      var maxPriority := 0.0;
      var k := 0;
      while k < |successors|
        invariant k <= |successors|
        invariant next == BestUnvisited(successors[..k], path, priority)
        invariant next.Some? ==> maxPriority == priority(next.value)
      {
        assert successors[..k + 1][..k] == successors[..k];
        var successor := successors[k];
        if successor !in visited {
          var p := Get(upwardRank, successor) + Get(downwardRank, successor);
          if next.None? || p > maxPriority {
            maxPriority := p;
            next := Some(successor);
          }
        }
        k := k + 1;
      }
      assert successors[..k] == successors;
    }

    /** `findCriticalProcessor`: the first VM for an empty path, otherwise the first
        VM with the smallest total execution time of the path. */
    method FindCriticalProcessor(path: seq<nat>) returns (processor: nat)
      requires ValidVms(vms) && |vms| > 0 && InGraph(graph, path)
      ensures processor == CriticalProcessor(graph, vms, path)
    {
      if path == [] {
        return 0;
      }
      ghost var totals := PathCosts(graph, vms, path);
      var best: Option<nat> := None;
      var minExecutionTime := 0.0;
      var v := 0;
      while v < |vms|
        invariant v <= |vms| && (best.Some? <==> v > 0)
        invariant best.Some? ==> best.value == ArgMinFirst(totals[..v]) && minExecutionTime == totals[best.value]
      {
        if v > 0 {
          ArgMinFirstNext(totals, v);
        }
        var totalExecutionTime := PathExecutionTime(path, vms[v]);
        if best.None? || totalExecutionTime < minExecutionTime {
          minExecutionTime := totalExecutionTime;
          best := Some(v);
        }
        v := v + 1;
      }
      assert totals[..v] == totals;
      processor := best.value;
    }

    /** The inner loop of `findCriticalProcessor`: the path's execution times on one
        VM, summed in path order. */
    method PathExecutionTime(path: seq<nat>, vm: Vm) returns (total: real)
      requires vm.mips > 0.0 && InGraph(graph, path)
      ensures total == PathCost(graph, vm, path)
    {
      total := 0.0;
      var k := 0;
      while k < |path|
        invariant k <= |path| && InGraph(graph, path[..k]) && total == PathCost(graph, vm, path[..k])
      {
        assert path[..k + 1][..k] == path[..k];
        total := total + ExecutionTime(graph.tasks[path[k]], vm);
        k := k + 1;
      }
      assert path[..k] == path;
    }

    // --------------------------------------------------------------- placement

    /** `calculateEarliestStartTime`: the latest arrival of a placed predecessor's
        output on `vm`, from 0.0. */
    method CalculateEarliestStartTime(task: nat, vm: nat) returns (readyTime: real)
      requires WellFormed(graph)
      ensures readyTime == EarliestStart(graph, State(), task, vm)
    {
      var predecessors := Predecessors(graph.edges, task);
      ghost var terms := ReadyTerms(graph, State(), predecessors, vm);
      PredecessorsInGraph(graph, task);
      readyTime := 0.0;
      var k := 0;
      while k < |predecessors|
        invariant k <= |predecessors| && readyTime == MaxFrom(0.0, terms[..k]) && 0.0 <= readyTime
      {
        MaxFromNext(0.0, terms, k);
        var p := predecessors[k];
        if p in finishTime {
          var communicationTime := 0.0;
          if p in taskToVm && taskToVm[p] != vm {
            communicationTime := CommunicationCost(graph.tasks[p], taskToVm[p], vm);
          }
          readyTime := Max(readyTime, finishTime[p] + communicationTime);
        }
        k := k + 1;
      }
      assert terms[..k] == terms;
    }

    /** `calculateEarliestFinishTime`: start once the VM is free and the inputs are
        in, then run. */
    method CalculateEarliestFinishTime(task: nat, vm: nat) returns (r: real)
      requires WellFormed(graph) && ValidVms(vms) && task < |graph.tasks| && vm < |vms| == |vmAvailableTime|
      ensures r == EarliestFinish(graph, vms, State(), task, vm)
    {
      var startTime := CalculateEarliestStartTime(task, vm);
      var actualStartTime := Max(startTime, vmAvailableTime[vm]);
      r := actualStartTime + ExecutionTime(graph.tasks[task], vms[vm]);
    }

    /** `scheduleCriticalPath`: the path's tasks one after another on `processor`,
        each when the previous one is done and its inputs are in; the VM clock is
        stored once, at the end. */
    method ScheduleCriticalPath(path: seq<nat>, processor: nat)
      requires WellFormed(graph) && ValidVms(vms) && InGraph(graph, path)
      requires processor < |vms| == |vmAvailableTime|
      modifies this
      ensures State() == PlacePath(graph, vms, old(State()), path, processor)
      ensures upwardRank == old(upwardRank) && downwardRank == old(downwardRank)
    {
      var currentTime := vmAvailableTime[processor];
      assert vmAvailableTime[processor := currentTime] == vmAvailableTime;
      var k := 0;
      while k < |path|
        invariant k <= |path| && vmAvailableTime == old(vmAvailableTime)
        invariant upwardRank == old(upwardRank) && downwardRank == old(downwardRank)
        invariant Placement(taskToVm, startTime, finishTime, vmAvailableTime[processor := currentTime])
                  == PlacePath(graph, vms, old(State()), path[..k], processor)
      {
        PlacePathNext(graph, vms, old(State()), path, k, processor);
        currentTime := PlacePathTask(path[k], processor, currentTime);
        k := k + 1;
      }
      assert path[..k] == path;
      vmAvailableTime := vmAvailableTime[processor := currentTime];
    }

    /** One turn of `scheduleCriticalPath`'s loop: `task` goes on `processor`, whose
        clock is held in `currentTime` rather than in the clock list; the new value
        of `currentTime` is returned. */
    method PlacePathTask(task: nat, processor: nat, currentTime: real) returns (finish: real)
      requires WellFormed(graph) && ValidVms(vms) && task < |graph.tasks|
      requires processor < |vms| == |vmAvailableTime|
      modifies this
      ensures vmAvailableTime == old(vmAvailableTime)
      ensures Placement(taskToVm, startTime, finishTime, vmAvailableTime[processor := finish])
              == PlaceOn(graph, vms, Placement(old(taskToVm), old(startTime), old(finishTime),
                                               old(vmAvailableTime)[processor := currentTime]), task, processor)
      ensures upwardRank == old(upwardRank) && downwardRank == old(downwardRank)
    {
      ghost var before := Placement(taskToVm, startTime, finishTime, vmAvailableTime[processor := currentTime]);
      var earliestStart := CalculateEarliestStartTime(task, processor);
      EarliestStartReadsFinishTimes(graph, State(), before, task, processor);
      var actualStartTime := Max(currentTime, earliestStart);
      taskToVm := taskToVm[task := processor];
      startTime := startTime[task := actualStartTime];
      finish := actualStartTime + ExecutionTime(graph.tasks[task], vms[processor]);
      finishTime := finishTime[task := finish];
      PlaceOnStores(graph, vms, before, task, processor, actualStartTime, finish);
      assert before.clock[processor := finish] == vmAvailableTime[processor := finish];
    }

    /** `scheduleRemainingTasks`: the tasks not mapped yet, in topological order,
        stably sorted by descending upward rank, each placed on the first VM where it
        finishes earliest. */
    method ScheduleRemainingTasks(topo: seq<nat>)
      requires WellFormed(graph) && ValidVms(vms) && |vms| > 0 && |vmAvailableTime| == |vms|
      requires InGraph(graph, topo)
      modifies this
      ensures InGraph(graph, RemainingOrder(topo, old(taskToVm), upwardRank))
      ensures State() == PlaceRemaining(graph, vms, old(State()), RemainingOrder(topo, old(taskToVm), upwardRank))
      ensures upwardRank == old(upwardRank) && downwardRank == old(downwardRank)
    {
      var remainingTasks := UnmappedTasks(topo);
      remainingTasks := SortDesc<nat>(remainingTasks, UpwardKey(upwardRank));
      assert remainingTasks == RemainingOrder(topo, taskToVm, upwardRank);
      forall j | 0 <= j < |remainingTasks| ensures remainingTasks[j] < |graph.tasks| {
        assert remainingTasks[j] in remainingTasks;
      }
      ScheduleInOrder(remainingTasks);
    }

    /** The collecting loop of `scheduleRemainingTasks`: the tasks of `topo` that have
        no VM yet, in the order of `topo`. */
    method UnmappedTasks(topo: seq<nat>) returns (remainingTasks: seq<nat>)
      ensures remainingTasks == Unplaced(topo, taskToVm)
      ensures forall x :: x in remainingTasks <==> x in topo && x !in taskToVm
    {
      var scheduledTasks := taskToVm.Keys;
      remainingTasks := [];
      var i := 0;
      while i < |topo|
        invariant i <= |topo| && remainingTasks == Unplaced(topo[..i], taskToVm)
      {
        assert topo[..i + 1][..i] == topo[..i];
        if topo[i] !in scheduledTasks {
          remainingTasks := remainingTasks + [topo[i]];
        }
        i := i + 1;
      }
      assert topo[..i] == topo;
    }

    /** The placing loop of `scheduleRemainingTasks`: each task of `order` in turn
        goes to the first VM where it finishes earliest. */
    method ScheduleInOrder(order: seq<nat>)
      requires WellFormed(graph) && ValidVms(vms) && |vms| > 0 && |vmAvailableTime| == |vms|
      requires InGraph(graph, order)
      modifies this
      ensures State() == PlaceRemaining(graph, vms, old(State()), order)
      ensures upwardRank == old(upwardRank) && downwardRank == old(downwardRank)
    {
      var k := 0;
      while k < |order|
        invariant k <= |order| && |vmAvailableTime| == |vms|
        invariant upwardRank == old(upwardRank) && downwardRank == old(downwardRank)
        invariant State() == PlaceRemaining(graph, vms, old(State()), order[..k])
      {
        PlaceRemainingNext(graph, vms, old(State()), order, k);
        ScheduleTask(order[k]);
        k := k + 1;
      }
      assert order[..k] == order;
    }

    /** The body of `scheduleRemainingTasks`' placing loop: `task` goes to the first
        VM where it finishes earliest. */
    method ScheduleTask(task: nat)
      requires WellFormed(graph) && ValidVms(vms) && |vms| > 0 && |vmAvailableTime| == |vms|
      requires task < |graph.tasks|
      modifies this
      ensures State() == PlaceOn(graph, vms, old(State()), task, BestVm(graph, vms, old(State()), task))
      ensures upwardRank == old(upwardRank) && downwardRank == old(downwardRank)
    {
      var bestVm := EarliestFinishingVm(task);
      var startTime' := CalculateEarliestStartTime(task, bestVm);
      var actualStartTime := Max(startTime', vmAvailableTime[bestVm]);
      var finishTime' := actualStartTime + ExecutionTime(graph.tasks[task], vms[bestVm]);
      PlaceOnStores(graph, vms, State(), task, bestVm, actualStartTime, finishTime');
      taskToVm := taskToVm[task := bestVm];
      startTime := startTime[task := actualStartTime];
      finishTime := finishTime[task := finishTime'];
      vmAvailableTime := vmAvailableTime[bestVm := finishTime'];
    }

    /** The VM scan of `scheduleRemainingTasks`: the first VM with the smallest
        earliest finish time. */
    method EarliestFinishingVm(task: nat) returns (r: nat)
      requires WellFormed(graph) && ValidVms(vms) && |vms| > 0 && |vmAvailableTime| == |vms|
      requires task < |graph.tasks|
      ensures r == ArgMinFirst(EarliestFinishes(graph, vms, State(), task))
    {
      ghost var finishTimes := EarliestFinishes(graph, vms, State(), task);
      var best: Option<nat> := None;
      var earliestFinishTime := 0.0;
      var v := 0;
      while v < |vms|
        invariant v <= |vms| && (best.Some? <==> v > 0)
        invariant best.Some? ==> best.value == ArgMinFirst(finishTimes[..v])
                                 && earliestFinishTime == finishTimes[best.value]
      {
        var finishTime' := CalculateEarliestFinishTime(task, v);
        best, earliestFinishTime := KeepEarliest(best, earliestFinishTime, v, finishTime', finishTimes);
        v := v + 1;
      }
      assert finishTimes[..v] == finishTimes;
      r := best.value;
    }
  }

  /** One turn of the VM scan: VM `v` becomes the best when it is the first or
      finishes strictly earlier than the best so far. */
  method KeepEarliest(best: Option<nat>, earliestFinishTime: real, v: nat, finishTime: real,
                      ghost finishTimes: seq<real>)
    returns (best': Option<nat>, earliestFinishTime': real)
    requires v < |finishTimes| && finishTime == finishTimes[v] && (best.Some? <==> v > 0)
    requires best.Some? ==> best.value == ArgMinFirst(finishTimes[..v])
                            && earliestFinishTime == finishTimes[best.value]
    ensures best'.Some? && best'.value == ArgMinFirst(finishTimes[..v + 1])
    ensures earliestFinishTime' == finishTimes[best'.value]
  {
    if v > 0 {
      ArgMinFirstNext(finishTimes, v);
    }
    best', earliestFinishTime' := best, earliestFinishTime;
    if best.None? || finishTime < earliestFinishTime {
      earliestFinishTime' := finishTime;
      best' := Some(v);
    }
  }
}
