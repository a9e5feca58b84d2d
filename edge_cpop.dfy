/** algorithm/CPOPScheduler.java: the CPOP scheduler of the hand-rolled generation. One
    `schedule` call resets every task and device, gives every task its upward rank as
    priority, sorts the tasks by priority (largest first, ties kept in list order),
    places each in turn on the device where it would finish first, and reports the
    makespan, the energy the devices report and the QoS score. */
module EdgeCpop {
  import opened Wrappers
  import opened Folds
  import opened Sorting
  import opened EdgeTasks
  import opened EdgeDevices
  import opened EdgeEnvironments
  import opened EdgeCpopRanks
  import opened EdgeCpopPlacement
  import opened EdgeResults

  datatype SchedulingResult = SchedulingResult(makespan: real, energyConsumption: real, qos: real)

  class CpopScheduler {
    const environment: EdgeEnvironment

    constructor (environment: EdgeEnvironment)
      ensures this.environment == environment
    {
      this.environment := environment;
    }

    /** `schedule`. The graph must be acyclic (`height`), its nodes distinct and linked
        both ways, and with a device every cost positive and every data size not
        negative, so that sorting by rank puts each dependency first. Afterwards every
        task has its upward rank as priority; with no device every task stays reset;
        otherwise every task is placed on a device and starts only once the data of
        each dependency has arrived there, and each device runs its tasks one after
        another. The result holds the latest finish, the total energy (never
        negative) and the QoS score (in `[0, 1]`). */
    method Schedule(tasks: seq<TaskNode>, ghost height: map<TaskNode, nat>)
      returns (result: SchedulingResult, ghost order: seq<TaskNode>, ghost key: TaskNode -> real)
      requires environment.Valid() && Linked(tasks) && Distinct(tasks) && Ranked(tasks, height)
      requires forall t :: t in tasks ==>
                 t.dataSize >= 0.0 && (|environment.devices| > 0 ==> t.computationCost > 0.0)
      modifies tasks`scheduled, tasks`assignedDeviceId, tasks`startTime, tasks`finishTime, tasks`priority
      modifies environment.devices`availableTime, environment.devices`scheduledTasks
      ensures result.energyConsumption == EnergyOver(environment.devices) && 0.0 <= result.energyConsumption
      ensures forall t :: t in tasks ==> t.priority == UpwardRank(environment, tasks, height, t)
      ensures forall t :: t in tasks ==> key(t) == t.priority
      ensures order == SortDesc(tasks, key)
      ensures |environment.devices| == 0 ==> forall t :: t in tasks ==> Unplaced(t)
      ensures |environment.devices| > 0 ==> forall t :: t in tasks ==>
                Placed(environment, t) && Waits(environment, t) &&
                t in environment.devices[t.assignedDeviceId].scheduledTasks
      ensures |environment.devices| > 0 ==> forall t :: t in tasks ==>
                t in GreedySlots(environment, order) && Holds(GreedySlots(environment, order), t)
      ensures forall v :: 0 <= v < |environment.devices| ==> Timeline(environment.devices[v])
      ensures forall v, t :: 0 <= v < |environment.devices| && t in environment.devices[v].scheduledTasks ==>
                t in tasks
      ensures DevicesBelow(Outcomes(tasks), |environment.devices|)
      ensures result.makespan == Makespan(Outcomes(tasks))
      ensures result.qos == Qos(Outcomes(tasks), |environment.devices|) && 0.0 <= result.qos <= 1.0
    {
      var sortedTasks;
      sortedTasks, key := Prepare(tasks, height);
      order := sortedTasks;
      label ranked:
      result := PlaceAndReport(tasks, sortedTasks);
      GreedySlotsUnchanged@ranked(environment, sortedTasks);
      UpwardRanksKept@ranked(environment, tasks, height);
    }

    /** The first half of `schedule`: every task and device reset, every task ranked,
        and the tasks sorted by rank, largest first. With a device, that order puts
        every dependency before its dependants. */
    method Prepare(tasks: seq<TaskNode>, ghost height: map<TaskNode, nat>)
      returns (sorted: seq<TaskNode>, ghost key: TaskNode -> real)
      requires environment.Valid() && Linked(tasks) && Distinct(tasks) && Ranked(tasks, height)
      requires forall t :: t in tasks ==>
                 t.dataSize >= 0.0 && (|environment.devices| > 0 ==> t.computationCost > 0.0)
      modifies tasks`scheduled, tasks`assignedDeviceId, tasks`startTime, tasks`finishTime, tasks`priority
      modifies environment.devices`availableTime, environment.devices`scheduledTasks
      ensures Ranked(tasks, height)
      ensures forall t :: t in tasks ==> t.priority == UpwardRank(environment, tasks, height, t)
      ensures forall t :: t in tasks ==> Unplaced(t)
      ensures forall v :: 0 <= v < |environment.devices| ==> Idle(environment.devices[v])
      ensures (forall t :: t in tasks ==> key(t) == t.priority) && sorted == SortDesc(tasks, key)
      ensures RankOrdered(tasks, sorted, |environment.devices| > 0)
    {
      ResetTasks(tasks);
      ResetDevices();
      CalculateUpwardRank(tasks, height);
      assert forall t :: t in tasks ==> Unplaced(t);
      label ranked:
      sorted, key := SortByRank(tasks, height);
      UpwardRanksKept@ranked(environment, tasks, height);
    }

    /** The rest of `schedule` once the tasks are sorted: the placement and the
        results. */
    method PlaceAndReport(tasks: seq<TaskNode>, sorted: seq<TaskNode>)
      returns (result: SchedulingResult)
      requires environment.Valid() && Distinct(sorted)
      requires forall i :: 0 <= i < |sorted| ==> sorted[i] in tasks
      requires forall t :: t in tasks ==> t in sorted
      requires |environment.devices| > 0 ==> TopologicalOrder(sorted)
      requires forall t :: t in tasks ==>
                 (|environment.devices| > 0 ==> t.computationCost > 0.0) && Unplaced(t)
      requires forall v :: 0 <= v < |environment.devices| ==> Idle(environment.devices[v])
      modifies tasks`scheduled, tasks`assignedDeviceId, tasks`startTime, tasks`finishTime
      modifies environment.devices`availableTime, environment.devices`scheduledTasks
      ensures result.energyConsumption == EnergyOver(environment.devices) && 0.0 <= result.energyConsumption
      ensures |environment.devices| == 0 ==> forall t :: t in tasks ==> Unplaced(t)
      ensures |environment.devices| > 0 ==> forall t :: t in tasks ==>
                Placed(environment, t) && Waits(environment, t) &&
                t in environment.devices[t.assignedDeviceId].scheduledTasks
      ensures forall v :: 0 <= v < |environment.devices| ==> Timeline(environment.devices[v])
      ensures forall v, t :: 0 <= v < |environment.devices| && t in environment.devices[v].scheduledTasks ==>
                t in tasks
      ensures DevicesBelow(Outcomes(tasks), |environment.devices|)
      ensures |environment.devices| > 0 ==> forall t :: t in tasks ==>
                t in old(GreedySlots(environment, sorted)) && Holds(old(GreedySlots(environment, sorted)), t)
      ensures result.makespan == Makespan(Outcomes(tasks))
      ensures result.qos == Qos(Outcomes(tasks), |environment.devices|) && 0.0 <= result.qos <= 1.0
      ensures forall u: TaskNode :: old(allocated(u)) ==>
                u.priority == old(u.priority) && u.successors == old(u.successors) &&
                u.dependencies == old(u.dependencies)
      ensures unchanged(environment.communicationMatrix)
    {
      PlaceTasks(tasks, sorted);
      result := Report(tasks);
    }

    /** `calculateResults` on placed tasks, which it leaves placed. */
    method Report(tasks: seq<TaskNode>) returns (result: SchedulingResult)
      requires environment.Shape() && DevicesBelow(Outcomes(tasks), |environment.devices|)
      requires forall t :: t in tasks ==> |environment.devices| > 0 ==> t.computationCost > 0.0
      requires |environment.devices| == 0 ==> forall t :: t in tasks ==> Unplaced(t)
      requires |environment.devices| > 0 ==> forall t :: t in tasks ==>
                 Placed(environment, t) && Waits(environment, t) &&
                 t in environment.devices[t.assignedDeviceId].scheduledTasks
      requires forall v :: 0 <= v < |environment.devices| ==> Timeline(environment.devices[v])
      requires forall v, t :: 0 <= v < |environment.devices| && t in environment.devices[v].scheduledTasks ==>
                 t in tasks
      ensures result.energyConsumption == EnergyOver(environment.devices) && 0.0 <= result.energyConsumption
      ensures |environment.devices| == 0 ==> forall t :: t in tasks ==> Unplaced(t)
      ensures |environment.devices| > 0 ==> forall t :: t in tasks ==>
                Placed(environment, t) && Waits(environment, t) &&
                t in environment.devices[t.assignedDeviceId].scheduledTasks
      ensures forall v :: 0 <= v < |environment.devices| ==> Timeline(environment.devices[v])
      ensures forall v, t :: 0 <= v < |environment.devices| && t in environment.devices[v].scheduledTasks ==>
                t in tasks
      ensures DevicesBelow(Outcomes(tasks), |environment.devices|)
      ensures result.makespan == Makespan(Outcomes(tasks))
      ensures result.qos == Qos(Outcomes(tasks), |environment.devices|) && 0.0 <= result.qos <= 1.0
      ensures forall u: TaskNode :: old(allocated(u)) ==>
                u.priority == old(u.priority) && u.successors == old(u.successors)
      ensures unchanged(environment.communicationMatrix)
    {
      result := CalculateResults(tasks);
      PlacementKept(tasks);
      TimelinesKept(tasks);
    }

    /** The second half of `schedule` before the results: the tasks placed in rank
        order. Ranks stay as they were; with no device every task stays reset,
        otherwise every task is placed and waits for its dependencies, and each
        device runs tasks of the graph one after another. */
    method PlaceTasks(tasks: seq<TaskNode>, sorted: seq<TaskNode>)
      requires environment.Valid() && Distinct(sorted)
      requires forall i :: 0 <= i < |sorted| ==> sorted[i] in tasks
      requires forall t :: t in tasks ==> t in sorted
      requires |environment.devices| > 0 ==> TopologicalOrder(sorted)
      requires forall t :: t in tasks ==>
                 (|environment.devices| > 0 ==> t.computationCost > 0.0) && Unplaced(t)
      requires forall v :: 0 <= v < |environment.devices| ==> Idle(environment.devices[v])
      modifies tasks`scheduled, tasks`assignedDeviceId, tasks`startTime, tasks`finishTime
      modifies environment.devices`availableTime, environment.devices`scheduledTasks
      ensures |environment.devices| == 0 ==> forall t :: t in tasks ==> Unplaced(t)
      ensures |environment.devices| > 0 ==> forall t :: t in tasks ==>
                Placed(environment, t) && Waits(environment, t) &&
                t in environment.devices[t.assignedDeviceId].scheduledTasks
      ensures forall v :: 0 <= v < |environment.devices| ==> Timeline(environment.devices[v])
      ensures forall v, t :: 0 <= v < |environment.devices| && t in environment.devices[v].scheduledTasks ==>
                t in tasks
      ensures DevicesBelow(Outcomes(tasks), |environment.devices|)
      ensures |environment.devices| > 0 ==> forall t :: t in tasks ==>
                t in old(GreedySlots(environment, sorted)) && Holds(old(GreedySlots(environment, sorted)), t)
      ensures forall u: TaskNode :: old(allocated(u)) ==>
                u.priority == old(u.priority) && u.successors == old(u.successors)
      ensures unchanged(environment.communicationMatrix)
    {
      ghost var slots := GreedySlots(environment, sorted);
      PlaceAll(sorted);
      PlacementCovers(tasks, sorted, slots);
    }

    /** What the placement loop established for the sorted list holds for the task
        list, which has the same members. */
    lemma PlacementCovers(tasks: seq<TaskNode>, sorted: seq<TaskNode>, slots: map<TaskNode, Slot>)
      requires environment.Shape()
      requires forall i :: 0 <= i < |sorted| ==> sorted[i] in tasks
      requires forall t :: t in tasks ==> t in sorted
      requires |environment.devices| == 0 ==> forall t :: t in sorted ==> Unplaced(t)
      requires |environment.devices| > 0 ==> forall t :: t in sorted ==>
                 Placed(environment, t) && Waits(environment, t) &&
                 t in environment.devices[t.assignedDeviceId].scheduledTasks
      requires |environment.devices| > 0 ==> forall t :: t in sorted ==> t in slots && Holds(slots, t)
      requires forall v, t :: 0 <= v < |environment.devices| && t in environment.devices[v].scheduledTasks ==>
                 t in sorted
      ensures |environment.devices| == 0 ==> forall t :: t in tasks ==> Unplaced(t)
      ensures |environment.devices| > 0 ==> forall t :: t in tasks ==>
                Placed(environment, t) && Waits(environment, t) &&
                t in environment.devices[t.assignedDeviceId].scheduledTasks
      ensures |environment.devices| > 0 ==> forall t :: t in tasks ==> t in slots && Holds(slots, t)
      ensures forall v, t :: 0 <= v < |environment.devices| && t in environment.devices[v].scheduledTasks ==>
                t in tasks
      ensures DevicesBelow(Outcomes(tasks), |environment.devices|)
    {
      forall t | t in tasks
        ensures |environment.devices| == 0 ==> Unplaced(t)
        ensures |environment.devices| > 0 ==>
                  Placed(environment, t) && Waits(environment, t) &&
                  t in environment.devices[t.assignedDeviceId].scheduledTasks && t in slots && Holds(slots, t)
      {
        assert t in sorted;
      }
      forall i | 0 <= i < |tasks| ensures tasks[i].assignedDeviceId < |environment.devices| {
        assert tasks[i] in sorted;
      }
      assert DevicesBelow(Outcomes(tasks), |environment.devices|);
      forall v, t | 0 <= v < |environment.devices| && t in environment.devices[v].scheduledTasks
        ensures t in tasks
      {
        assert t in sorted;
        var i :| 0 <= i < |sorted| && sorted[i] == t;
      }
    }

    /** The sort of `schedule` once every task is ranked: each task exactly once,
        largest rank first, so that with a device every dependency comes before its
        dependants. */
    method SortByRank(tasks: seq<TaskNode>, ghost height: map<TaskNode, nat>)
      returns (sorted: seq<TaskNode>, ghost key: TaskNode -> real)
      requires environment.Valid() && Linked(tasks) && Distinct(tasks) && Ranked(tasks, height)
      requires forall t :: t in tasks ==>
                 t.dataSize >= 0.0 && (|environment.devices| > 0 ==> t.computationCost > 0.0)
      requires forall t :: t in tasks ==> t.priority == UpwardRank(environment, tasks, height, t)
      ensures (forall t :: t in tasks ==> key(t) == t.priority) && sorted == SortDesc(tasks, key)
      ensures RankOrdered(tasks, sorted, |environment.devices| > 0)
    {
      sorted, key := SortByPriority(tasks);
      forall i | 0 <= i < |sorted| ensures sorted[i] in tasks {
        assert sorted[i] in multiset(sorted);
      }
      forall t | t in tasks ensures t in sorted {
        assert t in multiset(tasks);
      }
      if |environment.devices| > 0 {
        RankOrderIsTopological(environment, tasks, height, sorted);
      }
    }

    /** The sort of `schedule`: the tasks by priority, largest first. Every task
        appears exactly once. */
    method SortByPriority(tasks: seq<TaskNode>) returns (sorted: seq<TaskNode>, ghost key: TaskNode -> real)
      requires Distinct(tasks)
      ensures forall t :: t in tasks ==> key(t) == t.priority
      ensures sorted == SortDesc(tasks, key)
      ensures multiset(sorted) == multiset(tasks) && Distinct(sorted)
      ensures forall i, j :: 0 <= i < j < |sorted| ==> sorted[j].priority <= sorted[i].priority
    {
      var rank := KeyOf(Priorities(tasks));
      sorted := SortDesc(tasks, rank);
      key := rank;
      PrioritiesHold(tasks);
      SortByKeyOrdersPriorities(tasks, rank);
    }

    /** The reset of every task at the start of `schedule`. */
    method ResetTasks(tasks: seq<TaskNode>)
      modifies tasks`scheduled, tasks`assignedDeviceId, tasks`startTime, tasks`finishTime
      ensures forall t :: t in tasks ==> Unplaced(t)
      ensures forall u: TaskNode :: old(allocated(u)) ==>
                u.dependencies == old(u.dependencies) && u.successors == old(u.successors) && u.priority == old(u.priority)
    {
      for i := 0 to |tasks|
        invariant forall j :: 0 <= j < i ==> Unplaced(tasks[j])
      {
        tasks[i].SetScheduled(false);
        tasks[i].SetAssignedDeviceId(-1);
        tasks[i].SetStartTime(0.0);
        tasks[i].SetFinishTime(0.0);
      }
    }

    /** The reset of every device at the start of `schedule`. */
    method ResetDevices()
      modifies environment.devices`availableTime, environment.devices`scheduledTasks
      ensures forall v :: 0 <= v < |environment.devices| ==> Idle(environment.devices[v])
      ensures forall u: TaskNode :: old(allocated(u)) ==>
                u.dependencies == old(u.dependencies) && u.successors == old(u.successors) &&
                u.priority == old(u.priority) && u.scheduled == old(u.scheduled) &&
                u.assignedDeviceId == old(u.assignedDeviceId) && u.startTime == old(u.startTime) &&
                u.finishTime == old(u.finishTime)
      ensures unchanged(environment.communicationMatrix)
    {
      for i := 0 to |environment.devices|
        invariant forall v :: 0 <= v < i ==> Idle(environment.devices[v])
      {
        environment.devices[i].SetAvailableTime(0.0);
        environment.devices[i].ClearScheduledTasks();
      }
    }

    /** The rank cache is right so far: every cached node is a node of the graph,
        cached with its upward rank, which is also its priority. */
    ghost predicate CacheHolds(cache: map<TaskNode, real>, tasks: seq<TaskNode>, height: map<TaskNode, nat>)
      requires environment.Shape() && Ranked(tasks, height)
      reads tasks`successors, tasks`priority, environment.communicationMatrix
    {
      forall t :: t in cache ==>
        t in tasks && cache[t] == UpwardRank(environment, tasks, height, t) && t.priority == cache[t]
    }

    /** `calculateUpwardRank`: every task gets its upward rank as priority. */
    method CalculateUpwardRank(tasks: seq<TaskNode>, ghost height: map<TaskNode, nat>)
      requires environment.Shape() && Ranked(tasks, height)
      modifies tasks`priority
      ensures forall t :: t in tasks ==> t.priority == UpwardRank(environment, tasks, height, t)
      ensures forall u: TaskNode :: old(allocated(u)) ==>
                u.dependencies == old(u.dependencies) && u.successors == old(u.successors) &&
                u.scheduled == old(u.scheduled) && u.assignedDeviceId == old(u.assignedDeviceId) &&
                u.startTime == old(u.startTime) && u.finishTime == old(u.finishTime)
      ensures unchanged(environment.devices)
    {
      var rankCache: map<TaskNode, real> := map[];
      for i := 0 to |tasks|
        invariant CacheHolds(rankCache, tasks, height)
        invariant forall j :: 0 <= j < i ==> tasks[j] in rankCache
      {
        var _, cache := CalculateUpwardRankRecursive(tasks[i], rankCache, tasks, height);
        forall j | 0 <= j < i + 1 ensures tasks[j] in cache {
          if j < i {
            assert tasks[j] in rankCache.Keys;
          }
        }
        rankCache := cache;
      }
    }

    /** `calculateUpwardRankRecursive`: the rank of `task`, from the cache when it is
        there; otherwise computed from the successors' ranks, cached and set as the
        task's priority. The cache is passed in and handed back rather than shared. */
    method CalculateUpwardRankRecursive(task: TaskNode, cache: map<TaskNode, real>,
                                        ghost tasks: seq<TaskNode>, ghost height: map<TaskNode, nat>)
      returns (rank: real, cache': map<TaskNode, real>)
      requires environment.Shape() && Ranked(tasks, height) && task in tasks
      requires CacheHolds(cache, tasks, height)
      modifies tasks`priority
      ensures rank == UpwardRank(environment, tasks, height, task)
      ensures CacheHolds(cache', tasks, height) && task in cache' && cache.Keys <= cache'.Keys
      decreases height[task], 2
    {
      if task in cache {
        return cache[task], cache;
      }
      var avgComputationTime := AverageExecutionTime(environment, task);
      var maxSuccessorRank;
      maxSuccessorRank, cache' := MaxSuccessorRank(task, cache, tasks, height);
      rank := avgComputationTime + maxSuccessorRank;
      ghost var before := cache';
      cache' := cache'[task := rank];
      task.SetPriority(rank);
      forall t | t in cache'
        ensures t in tasks && cache'[t] == UpwardRank(environment, tasks, height, t) && t.priority == cache'[t]
      {
        if t != task {
          assert t in before;
        }
      }
    }

    /** The successor loop of `calculateUpwardRankRecursive`: the largest
        `average communication time + rank` over the successors, seeded with 0. */
    method MaxSuccessorRank(task: TaskNode, cache: map<TaskNode, real>,
                            ghost tasks: seq<TaskNode>, ghost height: map<TaskNode, nat>)
      returns (maxSuccessorRank: real, cache': map<TaskNode, real>)
      requires environment.Shape() && Ranked(tasks, height) && task in tasks
      requires CacheHolds(cache, tasks, height)
      modifies tasks`priority
      ensures maxSuccessorRank == SuccessorMax(environment, tasks, height, task, |task.successors|)
      ensures CacheHolds(cache', tasks, height) && cache.Keys <= cache'.Keys
      decreases height[task], 1
    {
      maxSuccessorRank := 0.0;
      cache' := cache;
      var successors := task.successors;
      for k := 0 to |successors|
        invariant maxSuccessorRank == SuccessorMax(environment, tasks, height, task, k)
        invariant CacheHolds(cache', tasks, height) && cache.Keys <= cache'.Keys
      {
        maxSuccessorRank, cache' := SuccessorStep(task, k, maxSuccessorRank, cache', tasks, height);
      }
    }

    /** One turn of the successor loop: successor `k`'s term joins the running
        maximum. */
    method SuccessorStep(task: TaskNode, k: nat, maxSoFar: real, cache: map<TaskNode, real>,
                         ghost tasks: seq<TaskNode>, ghost height: map<TaskNode, nat>)
      returns (maxSuccessorRank: real, cache': map<TaskNode, real>)
      requires environment.Shape() && Ranked(tasks, height) && task in tasks && k < |task.successors|
      requires maxSoFar == SuccessorMax(environment, tasks, height, task, k)
      requires CacheHolds(cache, tasks, height)
      modifies tasks`priority
      ensures maxSuccessorRank == SuccessorMax(environment, tasks, height, task, k + 1)
      ensures CacheHolds(cache', tasks, height) && cache.Keys <= cache'.Keys
      decreases height[task], 0
    {
      var successor := task.successors[k];
      var avgCommTime := CalculateAverageCommunicationTime(task, successor);
      ghost var next := SuccessorMax(environment, tasks, height, task, k + 1);
      assert next == Max(maxSoFar, avgCommTime + UpwardRank(environment, tasks, height, successor));
      var successorRank;
      successorRank, cache' := CalculateUpwardRankRecursive(successor, cache, tasks, height);
      maxSuccessorRank := Max(maxSoFar, avgCommTime + successorRank);
    }

    /** `calculateAverageCommunicationTime`: the communication time of `from`'s data
        summed over every ordered pair of devices and divided by the number of pairs.
        The source never reads `to`. */
    method CalculateAverageCommunicationTime(from: TaskNode, to: TaskNode) returns (r: real)
      requires environment.Shape()
      ensures r == AverageCommunication(environment, from.dataSize)
    {
      var n := |environment.devices|;
      var totalCommTime := 0.0;
      var count := 0;
      for i := 0 to n
        invariant totalCommTime == GridTotal(environment, i, from.dataSize) && count == i * n
      {
        totalCommTime, count := AddRow(i, from.dataSize, totalCommTime, count);
        assert count == (i + 1) * n;
      }
      if n > 0 {
        assert count == n * n >= n;
      }
      r := if count > 0 then totalCommTime / count as real else 0.0;
    }

    /** The inner loop of `calculateAverageCommunicationTime`: row `i` of the grid
        added to the running total, one pair at a time, and counted. */
    method AddRow(i: nat, dataSize: real, total: real, count: nat) returns (total': real, count': nat)
      requires environment.Shape() && i < |environment.devices|
      ensures total' == total + RowTotal(environment, i, |environment.devices|, dataSize)
      ensures count' == count + |environment.devices|
    {
      total', count' := total, count;
      for j := 0 to |environment.devices|
        invariant total' == total + RowTotal(environment, i, j, dataSize) && count' == count + j
      {
        total' := total' + environment.CommunicationTime(i, j, dataSize);
        count' := count' + 1;
      }
    }

    /** `scheduleTask`: among the devices, the first on which the task would finish
        earliest (`bestDevice` stays empty only without devices), where it is then
        placed from the time it could start there, and marked scheduled. Nothing else
        changes. When the task is not its own dependency, it starts only once the data
        of each dependency has arrived on the chosen device. */
    method ScheduleTask(task: TaskNode) returns (ghost chosen: Option<nat>)
      requires environment.Shape()
      requires |environment.devices| > 0 ==> OnDevices(environment, task.dependencies)
      modifies task`scheduled, task`assignedDeviceId, task`startTime, task`finishTime
      modifies environment.devices`availableTime, environment.devices`scheduledTasks
      ensures chosen.None? <==> |environment.devices| == 0
      ensures chosen.None? ==> unchanged(task`scheduled, task`assignedDeviceId, task`startTime, task`finishTime)
      ensures chosen.Some? ==>
                var v := chosen.value;
                v < |environment.devices| && old(FirstEarliest(environment, task, v)) &&
                task.assignedDeviceId == v && Placed(environment, task) &&
                task.startTime == old(ReadyOn(environment, task, v)) &&
                old(environment.devices[v].availableTime) <= task.startTime &&
                task.finishTime == old(FinishOn(environment, task, v)) &&
                environment.devices[v].scheduledTasks == old(environment.devices[v].scheduledTasks) + [task] &&
                environment.devices[v].availableTime == task.finishTime &&
                (forall j :: 0 <= j < |environment.devices| && j != v ==>
                   environment.devices[j].scheduledTasks == old(environment.devices[j].scheduledTasks) &&
                   environment.devices[j].availableTime == old(environment.devices[j].availableTime))
      ensures chosen.Some? && task !in task.dependencies ==> Waits(environment, task)
      ensures forall u: TaskNode :: old(allocated(u)) && u != task ==>
                u.scheduled == old(u.scheduled) && u.assignedDeviceId == old(u.assignedDeviceId) &&
                u.startTime == old(u.startTime) && u.finishTime == old(u.finishTime)
      ensures forall u: TaskNode :: old(allocated(u)) ==> u.dependencies == old(u.dependencies)
      ensures unchanged(environment.communicationMatrix)
    {
      var bestDevice, bestStartTime := ChooseDevice(task);
      assert bestDevice.Some? ==>
        FirstEarliest(environment, task, bestDevice.value) == old(FirstEarliest(environment, task, bestDevice.value)) &&
        ReadyOn(environment, task, bestDevice.value) == old(ReadyOn(environment, task, bestDevice.value));
      chosen := bestDevice;
      if bestDevice.Some? {
        var v := bestDevice.value;
        DataReadyTimeIsLatestArrival(environment, task.dependencies, v);
        environment.devices[v].ScheduleTask(task, bestStartTime);
        task.SetScheduled(true);
      }
    }

    /** The device loop of `scheduleTask`: the first device on which the task would
        finish earliest, and when it could start there. `bestDevice` holds that
        device's index (its id), `None` standing for `null`; an empty
        `earliestFinishTime` is the `Double.MAX_VALUE` it starts from. */
    method ChooseDevice(task: TaskNode) returns (bestDevice: Option<nat>, bestStartTime: real)
      requires environment.Shape()
      requires |environment.devices| > 0 ==> OnDevices(environment, task.dependencies)
      ensures bestDevice.None? <==> |environment.devices| == 0
      ensures bestDevice.Some? ==>
                var v := bestDevice.value;
                v < |environment.devices| && bestStartTime == ReadyOn(environment, task, v) &&
                FirstEarliest(environment, task, v)
    {
      var n := |environment.devices|;
      bestDevice := None;
      var earliestFinishTime: Option<real> := None;
      bestStartTime := 0.0;
      for k := 0 to n
        invariant bestDevice.None? <==> k == 0
        invariant earliestFinishTime.None? <==> k == 0
        invariant bestDevice.Some? ==>
                    bestDevice.value < k &&
                    earliestFinishTime.value == FinishOn(environment, task, bestDevice.value) &&
                    bestStartTime == ReadyOn(environment, task, bestDevice.value) &&
                    (forall j :: 0 <= j < k ==>
                       FinishOn(environment, task, bestDevice.value) <= FinishOn(environment, task, j)) &&
                    (forall j :: 0 <= j < bestDevice.value ==>
                       FinishOn(environment, task, bestDevice.value) < FinishOn(environment, task, j))
      {
        bestDevice, earliestFinishTime, bestStartTime :=
          ConsiderDevice(task, k, bestDevice, earliestFinishTime, bestStartTime);
      }
    }

    /** One turn of the device loop: device `k` becomes the best when it is the first
        or the task would finish strictly earlier on it. */
    method ConsiderDevice(task: TaskNode, k: nat, bestDevice: Option<nat>, earliestFinishTime: Option<real>,
                          bestStartTime: real)
      returns (bestDevice': Option<nat>, earliestFinishTime': Option<real>, bestStartTime': real)
      requires environment.Shape() && k < |environment.devices| && OnDevices(environment, task.dependencies)
      requires (bestDevice.None? <==> k == 0) && (earliestFinishTime.None? <==> k == 0)
      requires bestDevice.Some? ==>
                 bestDevice.value < k &&
                 earliestFinishTime.value == FinishOn(environment, task, bestDevice.value) &&
                 bestStartTime == ReadyOn(environment, task, bestDevice.value) &&
                 (forall j :: 0 <= j < k ==>
                    FinishOn(environment, task, bestDevice.value) <= FinishOn(environment, task, j)) &&
                 (forall j :: 0 <= j < bestDevice.value ==>
                    FinishOn(environment, task, bestDevice.value) < FinishOn(environment, task, j))
      ensures bestDevice'.Some? && earliestFinishTime'.Some?
      ensures bestDevice'.Some? ==>
                bestDevice'.value < k + 1 &&
                earliestFinishTime'.value == FinishOn(environment, task, bestDevice'.value) &&
                bestStartTime' == ReadyOn(environment, task, bestDevice'.value) &&
                (forall j :: 0 <= j < k + 1 ==>
                   FinishOn(environment, task, bestDevice'.value) <= FinishOn(environment, task, j)) &&
                (forall j :: 0 <= j < bestDevice'.value ==>
                   FinishOn(environment, task, bestDevice'.value) < FinishOn(environment, task, j))
    {
      bestDevice', earliestFinishTime', bestStartTime' := bestDevice, earliestFinishTime, bestStartTime;
      var device := environment.devices[k];
      var dataReadyTime := CalculateDataReadyTime(task, device.id);
      var readyTime := Max(device.availableTime, dataReadyTime);
      var executionTime := device.ExecutionTime(task);
      var finishTime := readyTime + executionTime;
      if earliestFinishTime.None? || finishTime < earliestFinishTime.value {
        earliestFinishTime' := Some(finishTime);
        bestDevice' := Some(k);
        bestStartTime' := readyTime;
      }
    }

    /** `calculateDataReadyTime`: the loop over the dependencies. */
    method CalculateDataReadyTime(task: TaskNode, deviceId: int) returns (r: real)
      requires environment.Shape() && 0 <= deviceId < |environment.devices|
      requires OnDevices(environment, task.dependencies)
      ensures r == DataReadyTime(environment, task.dependencies, deviceId)
    {
      var dependencies := task.dependencies;
      r := 0.0;
      for i := 0 to |dependencies|
        invariant r == DataReadyTime(environment, dependencies[..i], deviceId)
      {
        var dependency := dependencies[i];
        assert dependencies[..i + 1][..i] == dependencies[..i];
        if dependency.assignedDeviceId != deviceId {
          var transferTime := environment.CommunicationTime(dependency.assignedDeviceId, deviceId, dependency.dataSize);
          r := Max(r, dependency.finishTime + transferTime);
        } else {
          r := Max(r, dependency.finishTime);
        }
      }
      assert dependencies[..|dependencies|] == dependencies;
    }

    /** `calculateResults`: the latest finish, the energy every device reports for
        its tasks, and the QoS score. Every task must sit on a device of the
        environment or on none (-1), since its device indexes the loads array. */
    method CalculateResults(tasks: seq<TaskNode>) returns (result: SchedulingResult)
      requires environment.Shape() && DevicesBelow(Outcomes(tasks), |environment.devices|)
      ensures result.makespan == Makespan(Outcomes(tasks))
      ensures result.energyConsumption == EnergyOver(environment.devices)
      ensures result.qos == Qos(Outcomes(tasks), |environment.devices|) && 0.0 <= result.qos <= 1.0
      ensures (forall v, t :: 0 <= v < |environment.devices| && t in environment.devices[v].scheduledTasks ==>
                 t.computationCost >= 0.0) ==> 0.0 <= result.energyConsumption
    {
      var makespan := Makespan(Outcomes(tasks));
      var totalEnergyConsumption := TotalEnergyConsumption();
      var qos := CalculateQos(tasks);
      result := SchedulingResult(makespan, totalEnergyConsumption, qos);
      QosBounds(Outcomes(tasks), |environment.devices|);
      if forall v, t :: 0 <= v < |environment.devices| && t in environment.devices[v].scheduledTasks ==>
           t.computationCost >= 0.0 {
        EnergyOverNonNegative(environment.devices);
      }
    }

    /** The energy loop of `calculateResults`, device by device and task by task. */
    method TotalEnergyConsumption() returns (total: real)
      requires environment.Shape()
      ensures total == EnergyOver(environment.devices)
    {
      var devices := environment.devices;
      total := 0.0;
      for v := 0 to |devices|
        invariant total == EnergyOver(devices[..v])
      {
        var device := devices[v];
        var scheduled := device.scheduledTasks;
        ghost var before := total;
        for i := 0 to |scheduled|
          invariant total == before + DeviceEnergy(device, scheduled[..i])
        {
          assert scheduled[..i + 1][..i] == scheduled[..i];
          total := total + device.EnergyConsumption(scheduled[i]);
        }
        assert scheduled[..|scheduled|] == scheduled;
        assert devices[..v + 1][..v] == devices[..v];
      }
      assert devices[..|devices|] == devices;
    }

    /** `calculateQoS`: the loads array is filled task by task, then blended with the
        deadline share. */
    method CalculateQos(tasks: seq<TaskNode>) returns (qos: real)
      requires environment.Shape() && DevicesBelow(Outcomes(tasks), |environment.devices|)
      ensures qos == Qos(Outcomes(tasks), |environment.devices|)
    {
      var deviceLoads := LoadPerDevice(tasks);
      qos := 0.7 * DeadlineSatisfaction(Outcomes(tasks)) + 0.3 * LoadBalancing(deviceLoads);
    }

    /** The `deviceLoads` loop of `calculateQoS`: each task on a device adds its run
        time to that device's cell. */
    method LoadPerDevice(tasks: seq<TaskNode>) returns (deviceLoads: seq<real>)
      requires environment.Shape() && DevicesBelow(Outcomes(tasks), |environment.devices|)
      ensures deviceLoads == DeviceLoads(Outcomes(tasks), |environment.devices|)
    {
      var n := |environment.devices|;
      ghost var os := Outcomes(tasks);
      deviceLoads := seq(n, _ => 0.0);
      assert deviceLoads == DeviceLoads(os[..0], n);
      for i := 0 to |tasks|
        invariant deviceLoads == DeviceLoads(os[..i], n)
      {
        deviceLoads := AddRunTime(deviceLoads, tasks[i], os, i);
      }
      assert os[..|tasks|] == os;
    }

    /** One turn of the `deviceLoads` loop: a task on a device adds its run time to
        that device's cell. */
    method AddRunTime(deviceLoads: seq<real>, task: TaskNode, ghost os: seq<Outcome>, ghost i: nat)
      returns (loads: seq<real>)
      requires DevicesBelow(os, |deviceLoads|) && i < |os|
      requires os[i] == Outcome(task.id, task.assignedDeviceId, task.startTime, task.finishTime)
      requires deviceLoads == DeviceLoads(os[..i], |deviceLoads|)
      ensures loads == DeviceLoads(os[..i + 1], |deviceLoads|)
    {
      DeviceLoadsStep(os, |deviceLoads|, i);
      loads := deviceLoads;
      if task.assignedDeviceId >= 0 {
        loads := loads[task.assignedDeviceId := loads[task.assignedDeviceId] + (task.finishTime - task.startTime)];
      }
    }

    /** The placement loop of `schedule`, over the tasks in rank order, which puts
        every dependency first. With no device every task stays reset; otherwise every
        task is placed and waits for its dependencies' data, and each device runs its
        tasks one after another. */
    method PlaceAll(sorted: seq<TaskNode>)
      requires environment.Valid() && Distinct(sorted)
      requires |environment.devices| > 0 ==>
                 TopologicalOrder(sorted) && forall t :: t in sorted ==> t.computationCost > 0.0
      requires forall t :: t in sorted ==> Unplaced(t)
      requires forall v :: 0 <= v < |environment.devices| ==> Idle(environment.devices[v])
      modifies sorted`scheduled, sorted`assignedDeviceId, sorted`startTime, sorted`finishTime
      modifies environment.devices`availableTime, environment.devices`scheduledTasks
      ensures |environment.devices| == 0 ==> forall t :: t in sorted ==> Unplaced(t)
      ensures |environment.devices| > 0 ==> forall t :: t in sorted ==>
                Placed(environment, t) && Waits(environment, t) &&
                t in environment.devices[t.assignedDeviceId].scheduledTasks
      ensures |environment.devices| > 0 ==> forall t :: t in sorted ==>
                t in old(GreedySlots(environment, sorted)) && Holds(old(GreedySlots(environment, sorted)), t)
      ensures forall v :: 0 <= v < |environment.devices| ==> Timeline(environment.devices[v])
      ensures forall v, t :: 0 <= v < |environment.devices| && t in environment.devices[v].scheduledTasks ==>
                t in sorted
      ensures forall u: TaskNode :: old(allocated(u)) ==>
                u.priority == old(u.priority) && u.successors == old(u.successors)
      ensures unchanged(environment.communicationMatrix)
    {
      ghost var placed := PlaceEach(sorted);
      PlacementComplete(environment, sorted, placed);
      forall t | t in sorted && |environment.devices| > 0
        ensures t in old(GreedySlots(environment, sorted)) && Holds(old(GreedySlots(environment, sorted)), t)
      {
        assert Recorded(environment, placed, t);
      }
    }

    /** The placement loop after its first `k` turns: the plan's slots are the
        record, each device is free when the plan says, exactly the first `k` tasks
        are recorded (none without a device), the rest are still reset, and each
        device's list is its run order. */
    ghost predicate PlacedUpTo(sorted: seq<TaskNode>, k: nat, placed: map<TaskNode, Slot>, plan: Plan)
      requires environment.Shape()
      reads sorted, environment.devices, environment.communicationMatrix
    {
      |plan.free| == |environment.devices| && placed == plan.slots &&
      (forall v :: 0 <= v < |environment.devices| ==> environment.devices[v].availableTime == plan.free[v]) &&
      (forall j :: 0 <= j < |sorted| ==> (sorted[j] in placed <==> j < k && |environment.devices| > 0)) &&
      (forall t :: t in placed ==> t in sorted && Recorded(environment, placed, t)) &&
      (forall j :: 0 <= j < |sorted| && sorted[j] !in placed ==> Unplaced(sorted[j])) &&
      (forall v :: 0 <= v < |environment.devices| ==>
         RunOrder(placed, v, environment.devices[v].scheduledTasks, environment.devices[v].availableTime))
    }

    /** The loop itself: its record of slots is the greedy reference over the tasks
        in order, every task of `sorted` is recorded (when there is a device) or still
        reset, and each device's list is its run order. */
    method PlaceEach(sorted: seq<TaskNode>) returns (ghost placed: map<TaskNode, Slot>)
      requires environment.Valid() && Distinct(sorted)
      requires |environment.devices| > 0 ==>
                 TopologicalOrder(sorted) && forall t :: t in sorted ==> t.computationCost > 0.0
      requires forall t :: t in sorted ==> Unplaced(t)
      requires forall v :: 0 <= v < |environment.devices| ==> Idle(environment.devices[v])
      modifies sorted`scheduled, sorted`assignedDeviceId, sorted`startTime, sorted`finishTime
      modifies environment.devices`availableTime, environment.devices`scheduledTasks
      ensures environment.Valid()
      ensures placed == old(GreedySlots(environment, sorted))
      ensures PlacedUpTo(sorted, |sorted|, placed, old(GreedyPlan(environment, sorted, |sorted|)))
    {
      placed := map[];
      ghost var plan := EmptyPlan(|environment.devices|);
      for k := 0 to |sorted|
        invariant plan == old(GreedyPlan(environment, sorted, k))
        invariant PlacedUpTo(sorted, k, placed, plan)
      {
        GreedyStepUnchanged(environment, plan, sorted[k]);
        ghost var next := GreedyStep(environment, plan, sorted[k]);
        placed := PlaceNext(sorted, k, placed, plan);
        plan := next;
      }
    }

    /** One turn of the placement loop: task `k` is placed where the greedy reference
        puts it and recorded, and the tasks before it and every device's run order
        stay as they were apart from the new task. */
    method PlaceNext(sorted: seq<TaskNode>, k: nat, ghost placed: map<TaskNode, Slot>, ghost plan: Plan)
      returns (ghost placed': map<TaskNode, Slot>)
      requires environment.Shape() && Distinct(sorted) && k < |sorted|
      requires |environment.devices| > 0 ==> TopologicalOrder(sorted) && sorted[k].computationCost > 0.0
      requires PlacedUpTo(sorted, k, placed, plan)
      modifies sorted`scheduled, sorted`assignedDeviceId, sorted`startTime, sorted`finishTime
      modifies environment.devices`availableTime, environment.devices`scheduledTasks
      ensures PlacedUpTo(sorted, k + 1, placed', old(GreedyStep(environment, plan, sorted[k])))
    {
      var task := sorted[k];
      assert task !in placed;
      ghost var n := |environment.devices|;
      ghost var best: nat, start, finish := 0, 0.0, 0.0;
      if n > 0 {
        DependenciesRecorded(environment, sorted, k, placed);
        ChoiceFollowsPlan(environment, plan, task);
        best := BestDevice(environment, plan, task, n);
        start, finish := PlanStart(environment, plan, task, best), PlanFinish(environment, plan, task, best);
        assert FinishOn(environment, task, best) == finish;
      }
      ghost var next := GreedyStep(environment, plan, task);
      assert n > 0 ==> next == Plan(placed[task := Slot(best, start, finish)], plan.free[best := finish]);
      ghost var chosen := ScheduleTask(task);
      placed' := placed;
      if chosen.Some? {
        assert chosen.value == best && task.startTime == start && task.finishTime == finish;
        TurnRecorded(sorted, k, placed, plan);
        placed' := placed[task := Slot(best, start, finish)];
      }
    }

    /** The bookkeeping of one placement: `task`, not yet recorded, was placed on
        device `v` from no earlier than `v` was free, `v`'s list gained it and nothing
        else that the recorded tasks and the other devices hold changed. Then the
        task's slot joins the record, every recorded task is still recorded and every
        device's list is its run order. */
    twostate lemma Recording(new placed: map<TaskNode, Slot>, new task: TaskNode, v: nat)
      requires environment.Shape() && task !in placed && v < |environment.devices|
      requires forall u :: u in placed ==> old(allocated(u))
      requires old(forall u :: u in placed ==> Recorded(environment, placed, u))
      requires old(forall w :: 0 <= w < |environment.devices| ==>
                 RunOrder(placed, w, environment.devices[w].scheduledTasks, environment.devices[w].availableTime))
      requires forall u :: u in placed ==>
                 u.scheduled == old(u.scheduled) && u.assignedDeviceId == old(u.assignedDeviceId) &&
                 u.startTime == old(u.startTime) && u.finishTime == old(u.finishTime) &&
                 u.dependencies == old(u.dependencies)
      requires unchanged(environment.communicationMatrix)
      requires task.computationCost >= 0.0 && forall d :: d in task.dependencies ==> d in placed
      requires Placed(environment, task) && Waits(environment, task) && task.assignedDeviceId == v
      requires old(environment.devices[v].availableTime) <= task.startTime
      requires environment.devices[v].scheduledTasks == old(environment.devices[v].scheduledTasks) + [task]
      requires environment.devices[v].availableTime == task.finishTime
      requires forall j :: 0 <= j < |environment.devices| && j != v ==>
                 environment.devices[j].scheduledTasks == old(environment.devices[j].scheduledTasks) &&
                 environment.devices[j].availableTime == old(environment.devices[j].availableTime)
      ensures var placed' := placed[task := Slot(v, task.startTime, task.finishTime)];
              (forall u :: u in placed' ==> Recorded(environment, placed', u)) &&
              forall w :: 0 <= w < |environment.devices| ==>
                RunOrder(placed', w, environment.devices[w].scheduledTasks, environment.devices[w].availableTime)
    {
      forall u | u in placed ensures Recorded(environment, placed, u) {
        assert old(Recorded(environment, placed, u));
        assert old(Holds(placed, u)) && old(WaitsIn(environment, placed, u));
        assert Holds(placed, u) && WaitsIn(environment, placed, u);
      }
      var before := old(RunOrders(environment));
      var free := old(FreeTimes(environment));
      RecordPlacement(environment, placed, task, Slot(v, task.startTime, task.finishTime), before, free);
    }

    /** One turn of the placement loop as a whole: when task `k` was placed on a
        device from no earlier than that device was free, the device's list gained it
        and nothing else changed, the record with the task's slot, and the device free
        from the task's finish, is the loop after `k + 1` turns. */
    twostate lemma TurnRecorded(new sorted: seq<TaskNode>, k: nat, new placed: map<TaskNode, Slot>, new plan: Plan)
      requires environment.Shape() && Distinct(sorted) && k < |sorted|
      requires old(allocated(sorted)) && old(allocated(placed)) && old(allocated(plan))
      requires old(PlacedUpTo(sorted, k, placed, plan))
      requires forall u: TaskNode :: old(allocated(u)) && u != sorted[k] ==>
                 u.scheduled == old(u.scheduled) && u.assignedDeviceId == old(u.assignedDeviceId) &&
                 u.startTime == old(u.startTime) && u.finishTime == old(u.finishTime)
      requires forall u: TaskNode :: old(allocated(u)) ==> u.dependencies == old(u.dependencies)
      requires unchanged(environment.communicationMatrix)
      requires sorted[k].computationCost >= 0.0 && (forall d :: d in sorted[k].dependencies ==> d in placed)
      requires Placed(environment, sorted[k]) && Waits(environment, sorted[k])
      requires var v := sorted[k].assignedDeviceId;
               old(environment.devices[v].availableTime) <= sorted[k].startTime &&
               environment.devices[v].scheduledTasks == old(environment.devices[v].scheduledTasks) + [sorted[k]] &&
               environment.devices[v].availableTime == sorted[k].finishTime &&
               forall j :: 0 <= j < |environment.devices| && j != v ==>
                 environment.devices[j].scheduledTasks == old(environment.devices[j].scheduledTasks) &&
                 environment.devices[j].availableTime == old(environment.devices[j].availableTime)
      ensures var t := sorted[k];
              var slots := placed[t := Slot(t.assignedDeviceId, t.startTime, t.finishTime)];
              PlacedUpTo(sorted, k + 1, slots, Plan(slots, plan.free[t.assignedDeviceId := t.finishTime]))
    {
      var task, n := sorted[k], |environment.devices|;
      var v := task.assignedDeviceId;
      assert task !in placed;
      Recording(placed, task, v);
      var placed' := placed[task := Slot(v, task.startTime, task.finishTime)];
      var free' := plan.free[v := task.finishTime];
      forall w | 0 <= w < n ensures environment.devices[w].availableTime == free'[w] {
        if w != v {
          assert old(environment.devices[w].availableTime) == plan.free[w];
        }
      }
      forall j | 0 <= j < |sorted| ensures sorted[j] in placed' <==> j < k + 1 && n > 0 {
        if j != k {
          assert sorted[j] != task;
          assert sorted[j] in placed <==> j < k && n > 0;
        }
      }
      forall u | u in placed' ensures u in sorted && Recorded(environment, placed', u) {
        if u != task {
          assert u in placed ==> u in sorted;
        }
      }
      forall j | 0 <= j < |sorted| && sorted[j] !in placed' ensures Unplaced(sorted[j]) {
        assert old(Unplaced(sorted[j]));
      }
      assert |free'| == n;
      assert PlacedUpTo(sorted, k + 1, placed', Plan(placed', free'));
    }

    /** A step that changes no field of any task, device or the delay matrix (the
        results of `schedule`) keeps every task placed, waiting and listed on its
        device, or reset when there is no device. */
    twostate lemma PlacementKept(tasks: seq<TaskNode>)
      requires environment.Shape()
      requires forall u: TaskNode :: old(allocated(u)) ==>
                 u.scheduled == old(u.scheduled) && u.assignedDeviceId == old(u.assignedDeviceId) &&
                 u.startTime == old(u.startTime) && u.finishTime == old(u.finishTime) &&
                 u.priority == old(u.priority) && u.dependencies == old(u.dependencies) &&
                 u.successors == old(u.successors)
      requires forall v :: 0 <= v < |environment.devices| ==>
                 environment.devices[v].availableTime == old(environment.devices[v].availableTime) &&
                 environment.devices[v].scheduledTasks == old(environment.devices[v].scheduledTasks)
      requires unchanged(environment.communicationMatrix)
      requires old(|environment.devices| == 0 ==> forall t :: t in tasks ==> Unplaced(t))
      requires old(|environment.devices| > 0 ==> forall t :: t in tasks ==>
                 Placed(environment, t) && Waits(environment, t) && t in environment.devices[t.assignedDeviceId].scheduledTasks)
      requires old(DevicesBelow(Outcomes(tasks), |environment.devices|))
      ensures |environment.devices| == 0 ==> forall t :: t in tasks ==> Unplaced(t)
      ensures |environment.devices| > 0 ==> forall t :: t in tasks ==>
                Placed(environment, t) && Waits(environment, t) && t in environment.devices[t.assignedDeviceId].scheduledTasks
      ensures DevicesBelow(Outcomes(tasks), |environment.devices|)
    {
      if |environment.devices| > 0 {
        forall t | t in tasks
          ensures Placed(environment, t) && Waits(environment, t) && t in environment.devices[t.assignedDeviceId].scheduledTasks
        {
          assert old(Placed(environment, t) && Waits(environment, t));
          assert t in old(environment.devices[t.assignedDeviceId].scheduledTasks);
        }
      }
      assert Outcomes(tasks) == old(Outcomes(tasks));
    }

    /** Such a step keeps every device's timeline and keeps the tasks on the devices
        among `tasks`. */
    twostate lemma TimelinesKept(tasks: seq<TaskNode>)
      requires forall u: TaskNode :: old(allocated(u)) ==>
                 u.scheduled == old(u.scheduled) && u.assignedDeviceId == old(u.assignedDeviceId) &&
                 u.startTime == old(u.startTime) && u.finishTime == old(u.finishTime) &&
                 u.priority == old(u.priority) && u.dependencies == old(u.dependencies) &&
                 u.successors == old(u.successors)
      requires forall v :: 0 <= v < |environment.devices| ==>
                 environment.devices[v].availableTime == old(environment.devices[v].availableTime) &&
                 environment.devices[v].scheduledTasks == old(environment.devices[v].scheduledTasks)
      requires old(forall v :: 0 <= v < |environment.devices| ==> Timeline(environment.devices[v]))
      requires old(forall v, t :: 0 <= v < |environment.devices| && t in environment.devices[v].scheduledTasks ==>
                     t in tasks)
      ensures forall v :: 0 <= v < |environment.devices| ==> Timeline(environment.devices[v])
      ensures forall v, t :: 0 <= v < |environment.devices| && t in environment.devices[v].scheduledTasks ==>
                t in tasks
    {
      forall v, t | 0 <= v < |environment.devices| && t in environment.devices[v].scheduledTasks
        ensures t in tasks
      {
        assert t in old(environment.devices[v].scheduledTasks);
      }
    }
  }
}
