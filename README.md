# Edge DAG real-time scheduler: a Dafny model of the scheduling engine

The repository schedules a directed acyclic graph of interdependent tasks onto a pool
of heterogeneous compute resources. It trades off completion time, energy and load
balance, and it ships two generations of that engine.

**The JGraphT/CloudSim generation** (`algorithms/`, `model/Task.java`,
`model/DAGGenerator.java`):

- `Task` is a task record with an id-based `equals`/`hashCode` (`task.dfy`, module
  `CloudTask`).
- A task graph is a list of tasks plus an edge list kept in insertion order; task `i`
  has id `i` (`dag.dfy`, `Dags`).
- The seeded DAG generator draws task attributes and forward edges, with an attempt
  bound (`dag_generator.dfy`, `DagGeneration`).
- The execution and communication costs (`costs.dfy`, `Costs`).
- The CPOP scheduler (`cpop_ranks.dfy`, `cpop_path.dfy`, `cpop_placement.dfy`,
  `cpop_scheduler.dfy`):
  - upward and downward ranks, proved to be the unique solutions of their
    recurrences;
  - the greedy critical-path walk and the critical processor;
  - placement of the path and then of the remaining tasks by earliest finish time;
  - the class `CpopScheduler`, whose `Schedule` is proved to leave exactly the
    reference plan `CpopPlan`.
- The PSO scheduler (`pso_replay.dfy`, `pso_fitness.dfy`, `pso_swarm.dfy`,
  `pso_scheduler.dfy`):
  - decoding positions into a mapping, and the timing replay, proved to respect
    precedence;
  - the three objectives and their normalisers, and the weighted fitness;
  - the two greedy seedings, the velocity/position update with clamping and
    reflection, the inertia schedule, stagnation and mutation;
  - the class `PsoScheduler`, whose `Schedule` loop keeps the swarm inside `[0, n]`,
    the global best ahead of every particle and the convergence history
    non-increasing.

**The hand-rolled generation** (`algorithm/`, `model/TaskNode.java`,
`model/EdgeDevice.java`, `environment/EdgeEnvironment.java`,
`util/TaskGraphGenerator.java`):

- Task nodes hold mirrored dependency/successor lists (`task_node.dfy`, `EdgeTasks`).
- Edge devices hold speed, cores, power range, a clock and a task list
  (`edge_device.dfy`, `EdgeDevices`).
- The environment holds the devices and a delay matrix with a zero diagonal
  (`edge_environment.dfy`, `EdgeEnvironments`).
- The task graph generator (`task_graph_generator.dfy`, `TaskGraphGeneration`).
- That generation's CPOP scheduler (`edge_cpop_ranks.dfy`, `edge_cpop_placement.dfy`,
  `edge_results.dfy`, `edge_cpop.dfy`):
  - a memoised upward rank;
  - a sort by rank, proved to be the stable descending sort on the ranks and a
    topological order;
  - placement of each task on the first device where it finishes earliest, proved
    to leave every task in the slot a greedy reference (`GreedySlots`) gives it, so
    every task waits for its dependencies' data and every device runs its tasks one
    after another;
  - the makespan, energy and QoS results, with QoS proved to lie in `[0, 1]`.

**Shared and supporting files:**

- `random.dfy` (`JavaRandom`) models `java.util.Random` as a stream of raw draws.
- `folds.dfy` (`Folds`) holds the running sums, maxima and first-minimum scans the
  loops compute.
- `sorting.dfy` (`Sorting`) holds the stable descending insertion sort used as the
  reference for `List.sort`.
- `wrappers.dfy` (`Wrappers`) holds `Option`.

**Differences from the standard CPOP.** CPOP as Topcuoglu, Hariri and Wu define it
("Performance-effective and low-complexity task scheduling for heterogeneous
computing", IEEE Transactions on Parallel and Distributed Systems 13(3), 2002)
differs from what algorithms/CPOPScheduler.java does. The model follows the code:

- **Downward rank.** In the paper, `rank_d` of a task is the largest sum of mean
  execution and communication costs over the paths from the entry task to it, so it
  leaves out the task's own cost. `calculateDownwardRank` adds the task's own mean
  execution time (algorithms/CPOPScheduler.java:95-96).
- **Critical-path start.** In the paper the critical path starts at the entry task.
  Here it starts at the task of highest `upward + downward` priority, which can be
  mid-graph.
- **Placement of the critical path.** In the paper, tasks leave a ready queue in
  priority order, so each waits for its predecessors. Here path tasks are placed
  before all others, and the earliest start skips predecessors that are not placed
  yet (:278).

Separately, `maxPossibleEnergy` in algorithms/PSOScheduler.java:101-106 prices the
work at the fastest VM, which makes it a lower bound of the energy, not the upper
bound its name and use suggest.

The placement of the critical path and the energy normaliser are recorded under
"## Findings".

## Model

| member | source | states |
|---|---|---|
| Folds.MaxFromBounds | src/main/java/com/edgescheduling/algorithms/CPOPScheduler.java:137-140 | the running maximum is at least its seed and every element, and is the seed or one of them |
| Folds.MaxFromMonotone | src/main/java/com/edgescheduling/algorithms/CPOPScheduler.java:66-71 | raising the seed never lowers the running maximum |
| Folds.SumNonNegative | src/main/java/com/edgescheduling/algorithms/CPOPScheduler.java:238-244 | a sum of non-negative terms is not negative |
| Folds.SumMonotone | src/main/java/com/edgescheduling/algorithms/CPOPScheduler.java:157-161 | termwise domination carries over to the sums |
| Folds.ArgMinFirst | src/main/java/com/edgescheduling/algorithms/CPOPScheduler.java:212-221 | the index a `<` scan ends with is a position of a minimum, and every earlier position holds a strictly larger value |
| Folds.MaxFromNext | src/main/java/com/edgescheduling/algorithms/CPOPScheduler.java:66-71 | one more turn of a running-maximum loop takes the maximum with the next element |
| Folds.SumNext | src/main/java/com/edgescheduling/algorithms/CPOPScheduler.java:157-161 | one more turn of a running-sum loop adds the next element |
| Folds.ArgMinFirstNext | src/main/java/com/edgescheduling/algorithms/CPOPScheduler.java:216-220 | one more turn of a `<` scan moves to the new candidate only when it is strictly smaller |
| Folds.SquareSign | src/main/java/com/edgescheduling/algorithms/PSOScheduler.java:314 | a square is never negative, and positive exactly for a non-zero base |
| Sorting.SortedCons | src/main/java/com/edgescheduling/algorithm/CPOPScheduler.java:35-36 | an element with a key no smaller than the head of a sorted list keeps it sorted in front |
| Sorting.InsertDesc | src/main/java/com/edgescheduling/algorithm/CPOPScheduler.java:35-36 | the insertion adds one element and the result starts with it or with the old head |
| Sorting.InsertDescSorted | src/main/java/com/edgescheduling/algorithm/CPOPScheduler.java:35-36 | inserting into a sorted list keeps it sorted |
| Sorting.InsertDescPermutes | src/main/java/com/edgescheduling/algorithm/CPOPScheduler.java:35-36 | inserting adds exactly that element |
| Sorting.SortDesc | src/main/java/com/edgescheduling/algorithm/CPOPScheduler.java:35-36 | the sort keeps the length |
| Sorting.SortDescSorted | src/main/java/com/edgescheduling/algorithm/CPOPScheduler.java:35-36 | the result is sorted, largest key first |
| Sorting.SortDescPermutes | src/main/java/com/edgescheduling/algorithm/CPOPScheduler.java:35-36 | the result is a permutation of the input |
| Sorting.HeadIsMaximal | src/main/java/com/edgescheduling/algorithms/CPOPScheduler.java:103-107 | the head carries the largest key of the input |
| Sorting.HeadIsFirstMaximal | src/main/java/com/edgescheduling/algorithms/CPOPScheduler.java:103-107 | the head is the first element of the input with the largest key |
| Sorting.DistinctCountsAtMostOne | src/main/java/com/edgescheduling/algorithm/CPOPScheduler.java:35 | a list without repeats holds each element at most once |
| Sorting.RepeatCountsTwice | src/main/java/com/edgescheduling/algorithm/CPOPScheduler.java:35 | a repeated element is counted at least twice |
| Sorting.DistinctConcat | src/main/java/com/edgescheduling/algorithm/CPOPScheduler.java:35 | two disjoint lists without repeats join into one without repeats |
| Sorting.SortDescKeepsElements | src/main/java/com/edgescheduling/algorithm/CPOPScheduler.java:35-36 | sorting neither drops, adds nor duplicates an element |
| Sorting.InsertDescSplits | src/main/java/com/edgescheduling/algorithm/CPOPScheduler.java:35-36 | insertion puts the element behind exactly the leading elements with a strictly larger key and keeps the rest in order |
| Sorting.SortDescCons | src/main/java/com/edgescheduling/algorithm/CPOPScheduler.java:35-36 | sorting a list inserts its head into the sorted tail behind the elements with a strictly larger key |
| Sorting.SortDescStable | src/main/java/com/edgescheduling/algorithm/CPOPScheduler.java:35-36 | the sort is stable, as `List.sort` is: of two distinct elements with equal keys, the one earlier in the input comes earlier in the result |
| CloudTask.WrapInt32 | src/main/java/com/edgescheduling/model/Task.java:61-63 | the value lies in Java's `int` range and differs from the mathematical one by a multiple of 2^32, which is how `Objects.hash(id)` overflows |
| CloudTask.Task.constructor | src/main/java/com/edgescheduling/model/Task.java:24-32 | the id, length, file size, output size and priority hold the arguments; both cost fields start at 0.0 |
| CloudTask.Task.SetComputationCost | src/main/java/com/edgescheduling/model/Task.java:43 | the computation cost becomes the argument and nothing else changes |
| CloudTask.Task.SetCommunicationCost | src/main/java/com/edgescheduling/model/Task.java:45 | the communication cost becomes the argument and nothing else changes |
| CloudTask.Task.Equals | src/main/java/com/edgescheduling/model/Task.java:52-58 | `equals` holds exactly when the other task is not null and has the same id, whatever the other fields hold |
| CloudTask.Task.HashCode | src/main/java/com/edgescheduling/model/Task.java:60-63 | `Objects.hash(id)` is the Java `int` congruent to `31 + id` modulo 2^32 |
| CloudTask.EqualsIsEquivalence | src/main/java/com/edgescheduling/model/Task.java:52-58 | `equals` is reflexive, symmetric and transitive |
| CloudTask.HashCodeConsistent | src/main/java/com/edgescheduling/model/Task.java:60-63 | tasks that are `equals` have the same hash code |
| Dags.Successors | src/main/java/com/edgescheduling/algorithms/CPOPScheduler.java:132-133 | the successors of a vertex are exactly the targets of the edges leaving it, in edge order |
| Dags.Predecessors | src/main/java/com/edgescheduling/algorithms/CPOPScheduler.java:276-277 | the predecessors of a vertex are exactly the sources of the edges entering it, in edge order |
| Dags.NoPredecessorsIff | src/main/java/com/edgescheduling/model/DAGGenerator.java:65-73 | a vertex has in-degree 0 exactly when no edge enters it |
| Dags.NoSuccessorsIff | src/main/java/com/edgescheduling/model/DAGGenerator.java:78-86 | a vertex has out-degree 0 exactly when no edge leaves it |
| Dags.SuccessorIsLater | src/main/java/com/edgescheduling/algorithms/CPOPScheduler.java:53-60 | in the order the topological iterator yields, every successor of a vertex comes after it |
| Dags.PredecessorIsEarlier | src/main/java/com/edgescheduling/algorithms/CPOPScheduler.java:80-84 | in the topological order every predecessor of a vertex comes before it |
| Dags.EdgeGoesForward | src/main/java/com/edgescheduling/algorithms/CPOPScheduler.java:80-84 | both ends of an edge are in the topological order and the source comes first |
| Dags.Ids | src/main/java/com/edgescheduling/model/DAGGenerator.java:27-35 | the vertex set of a graph built in id order lists the ids 0..n-1 in order |
| Dags.ForwardEdgesGiveTopologicalOrder | src/main/java/com/edgescheduling/model/DAGGenerator.java:47 | when every edge leads from a lower to a higher index, as the generator's guard ensures, id order is a topological order, so the graph has no cycle |
| Dags.PredecessorsInGraph | src/main/java/com/edgescheduling/algorithms/CPOPScheduler.java:276-277 | every predecessor of a vertex of a consistent graph is a vertex |
| Dags.SuccessorInGraph | src/main/java/com/edgescheduling/algorithms/CPOPScheduler.java:132-133 | every successor of a vertex of a well-formed graph is a vertex |
| Costs.ExecutionTime | src/main/java/com/edgescheduling/algorithms/CPOPScheduler.java:259-263 | `length / mips` is positive for a task of positive length on a VM of positive speed |
| Costs.AverageCommunicationCost | src/main/java/com/edgescheduling/algorithms/CPOPScheduler.java:246-250 | `outputSize / 1e6` is not negative for a non-negative output size |
| Costs.AverageComputationCostPositive | src/main/java/com/edgescheduling/algorithms/CPOPScheduler.java:238-244 | the mean execution time over the VMs is positive for a task of positive length |
| Costs.SingleVmAverage | src/main/java/com/edgescheduling/algorithms/CPOPScheduler.java:238-244 | with a single VM the mean execution time is the execution time on that VM |
| Costs.ExecutionTimes | src/main/java/com/edgescheduling/algorithms/CPOPScheduler.java:238-244 | cell `v` is the execution time on VM `v` |
| Costs.SumOfPositives | src/main/java/com/edgescheduling/algorithms/CPOPScheduler.java:238-244 | a non-empty sum of positive terms is positive |
| JavaRandom.UnitDraw | src/main/java/com/edgescheduling/environment/EdgeEnvironment.java:24-28 | `nextDouble()` lies in [0, 1) |
| JavaRandom.BoundedDraw | src/main/java/com/edgescheduling/model/DAGGenerator.java:28-31 | `nextInt(bound)` lies in [0, bound) |
| JavaRandom.Random.constructor | src/main/java/com/edgescheduling/model/DAGGenerator.java:15-17 | the generator starts at the beginning of its stream |
| JavaRandom.Random.NextInt | src/main/java/com/edgescheduling/model/DAGGenerator.java:44-45 | returns the bounded value of the next draw, below the bound, and consumes exactly one draw |
| JavaRandom.Random.NextDouble | src/main/java/com/edgescheduling/environment/EdgeEnvironment.java:24-28 | returns the unit value of the next draw, in [0, 1), and consumes exactly one draw |
| DagGeneration.AddEdgesProperties | src/main/java/com/edgescheduling/model/DAGGenerator.java:39-57 | every kept edge leads from a lower to a higher index, none is kept twice, at most `numEdges` edges are kept, at most `numEdges * 10` pairs are drawn, and fewer edges than asked come back only when the attempts are used up |
| DagGeneration.AddEdgesStep | src/main/java/com/edgescheduling/model/DAGGenerator.java:44-55 | one pass of the edge loop draws source and target and keeps the pair only when it leads forward and is not an edge yet |
| DagGeneration.AddEdgesDone | src/main/java/com/edgescheduling/model/DAGGenerator.java:43 | the loop returns its edges as soon as it has enough edges or has run out of attempts |
| DagGeneration.MayAddFewer | src/main/java/com/edgescheduling/model/DAGGenerator.java:39-57 | the generator can return fewer edges than asked: with two tasks, one edge asked for and an all-zero stream it stops after 10 attempts with none |
| DagGeneration.TaskAttributeRanges | src/main/java/com/edgescheduling/model/DAGGenerator.java:28-31 | a drawn task has length and file size in [100, 1099], output size in [50, 549] and priority in [1, 10] |
| DagGeneration.GeneratedIsDag | src/main/java/com/edgescheduling/model/DAGGenerator.java:22-60 | every graph the generator can return is well-formed, has at most `numEdges` edges, has id order as a topological order, and holds tasks in the drawn ranges |
| DagGeneration.DagGenerator.constructor | src/main/java/com/edgescheduling/model/DAGGenerator.java:15-17 | the generator owns a fresh random source at the start of its stream |
| DagGeneration.DagGenerator.DrawTask | src/main/java/com/edgescheduling/model/DAGGenerator.java:28-33 | task `i` is built from the next four draws, in argument order |
| DagGeneration.DagGenerator.DrawTasks | src/main/java/com/edgescheduling/model/DAGGenerator.java:27-36 | the vertex loop makes `numTasks` tasks with ids in order, each holding its drawn attributes, and consumes four draws per task |
| DagGeneration.DagGenerator.DrawEdge | src/main/java/com/edgescheduling/model/DAGGenerator.java:44-55 | one pass of the edge loop keeps or drops the drawn pair as the reference function says and consumes two draws |
| DagGeneration.DagGenerator.DrawEdges | src/main/java/com/edgescheduling/model/DAGGenerator.java:39-57 | the edge loop leaves exactly the edges of the reference run over the same draws |
| DagGeneration.DagGenerator.GenerateDag | src/main/java/com/edgescheduling/model/DAGGenerator.java:22-60 | the graph returned is the one the draws determine, so every property of `GeneratedIsDag` holds of it |
| DagGeneration.DagGenerator.EntryTasks | src/main/java/com/edgescheduling/model/DAGGenerator.java:65-73 | the result holds exactly the tasks that no edge enters |
| DagGeneration.DagGenerator.ExitTasks | src/main/java/com/edgescheduling/model/DAGGenerator.java:78-86 | the result holds exactly the tasks that no edge leaves |
| CpopRanks.Reversed | src/main/java/com/edgescheduling/algorithms/CPOPScheduler.java:60 | the reversed list holds the same elements at mirrored indexes |
| CpopRanks.TopologicalOrderDistinct | src/main/java/com/edgescheduling/algorithms/CPOPScheduler.java:53-60 | a topological order and its reversal list every vertex once |
| CpopRanks.UpwardStepReadsEarlier | src/main/java/com/edgescheduling/algorithms/CPOPScheduler.java:62-75 | a task's upward rank reads only its successors' ranks, which the reverse topological order stores first |
| CpopRanks.UpwardRanksSatisfyRecurrence | src/main/java/com/edgescheduling/algorithms/CPOPScheduler.java:52-76 | the ranks `calculateUpwardRank` stores satisfy the upward recurrence: mean execution time plus the largest `outputSize/1e6 + rank(successor)`, or plus 0 for an exit task |
| CpopRanks.UpwardRecurrenceUnique | src/main/java/com/edgescheduling/algorithms/CPOPScheduler.java:52-76 | on an acyclic graph the upward recurrence has exactly one solution, so the stored map is the upward rank |
| CpopRanks.UpwardRankProperties | src/main/java/com/edgescheduling/algorithms/CPOPScheduler.java:62-75 | an exit task's rank is its mean execution time; every rank is at least that and above every successor's rank, and equals mean execution time plus transfer plus the rank of one successor |
| CpopRanks.DownwardStepReadsEarlier | src/main/java/com/edgescheduling/algorithms/CPOPScheduler.java:83-97 | a task's downward rank reads only its predecessors' ranks, which the topological order stores first |
| CpopRanks.DownwardRanksSatisfyRecurrence | src/main/java/com/edgescheduling/algorithms/CPOPScheduler.java:79-98 | the ranks `calculateDownwardRank` stores satisfy the downward recurrence, which adds the task's own mean execution time |
| CpopRanks.DownwardRecurrenceUnique | src/main/java/com/edgescheduling/algorithms/CPOPScheduler.java:79-98 | on an acyclic graph the downward recurrence has exactly one solution |
| CpopRanks.DownwardRankProperties | src/main/java/com/edgescheduling/algorithms/CPOPScheduler.java:83-97 | an entry task's downward rank is its own mean execution time; every rank is at least that and above every predecessor's rank plus transfer plus its own cost |
| CpopRanks.StoreInOrderNext | src/main/java/com/edgescheduling/algorithms/CPOPScheduler.java:60-75 | one more turn of a rank loop stores the next vertex's value |
| CpopRanks.StoreInOrderSettles | src/main/java/com/edgescheduling/algorithms/CPOPScheduler.java:60-75 | once stored, a vertex keeps the value its rule gives it over the map as it grows, when the rule reads only earlier vertices |
| CpopRanks.SuccessorTerms | src/main/java/com/edgescheduling/algorithms/CPOPScheduler.java:65-71 | term `k` is successor `k`'s `communicationCost + rank` |
| CpopRanks.SuccessorTermsFrame | src/main/java/com/edgescheduling/algorithms/CPOPScheduler.java:65-71 | the successor terms depend only on the successors' stored ranks |
| CpopRanks.UpwardStoreFrame | src/main/java/com/edgescheduling/algorithms/CPOPScheduler.java:60-75 | storing a rank for a vertex changes nothing the later vertices of the topological order read |
| CpopRanks.UpwardRecurrenceUniqueFrom | src/main/java/com/edgescheduling/algorithms/CPOPScheduler.java:52-76 | two solutions of the upward recurrence agree on every vertex from position `k` of the order on |
| CpopRanks.PredecessorTerms | src/main/java/com/edgescheduling/algorithms/CPOPScheduler.java:85-93 | term `k` is predecessor `k`'s `rank + communicationCost` |
| CpopRanks.PredecessorTermsFrame | src/main/java/com/edgescheduling/algorithms/CPOPScheduler.java:85-93 | the predecessor terms depend only on the predecessors' stored ranks |
| CpopRanks.DownwardStoreFrame | src/main/java/com/edgescheduling/algorithms/CPOPScheduler.java:83-97 | storing a rank for a vertex changes nothing the earlier vertices of the topological order read |
| CpopRanks.DownwardRecurrenceUniqueUpTo | src/main/java/com/edgescheduling/algorithms/CPOPScheduler.java:79-98 | two solutions of the downward recurrence agree on the first `k` vertices of the order |
| CpopPath.BestUnvisitedProperties | src/main/java/com/edgescheduling/algorithms/CPOPScheduler.java:129-141 | the scan finds nothing exactly when every successor was visited; otherwise it finds an unvisited successor of greatest priority, and every unvisited successor listed before it has a strictly smaller priority |
| CpopPath.CriticalWalkProperties | src/main/java/com/edgescheduling/algorithms/CPOPScheduler.java:121-146 | the walk extends the path it is handed, never repeats a task, starts its own part at the current task unless that was visited, and every step goes to the successor the scan picks |
| CpopPath.CriticalPathStartIsMaximal | src/main/java/com/edgescheduling/algorithms/CPOPScheduler.java:102-113 | the start of the critical path has the greatest priority of all tasks |
| CpopPath.CriticalPathStartIsFirst | src/main/java/com/edgescheduling/algorithms/CPOPScheduler.java:102-113 | ties go to the lowest id: every task before the start has a strictly smaller priority, because the list sort is stable |
| CpopPath.WalkFromExitTask | src/main/java/com/edgescheduling/algorithms/CPOPScheduler.java:132-145 | from an exit task the walk stops at once |
| CpopPath.CriticalPathProperties | src/main/java/com/edgescheduling/algorithms/CPOPScheduler.java:101-118 | the critical path is empty only for an empty graph; it starts at a task of greatest priority, repeats no task, joins consecutive tasks by an edge, and takes the greedy step each time |
| CpopPath.WalkFollowsTopologicalOrder | src/main/java/com/edgescheduling/algorithms/CPOPScheduler.java:121-146 | a walk along edges visits its tasks in topological order |
| CpopPath.PathEdgesGoForward | src/main/java/com/edgescheduling/algorithms/CPOPScheduler.java:121-146 | an edge between two tasks of the critical path always goes forward along the path |
| CpopPath.CriticalProcessorIsFirstFastest | src/main/java/com/edgescheduling/algorithms/CPOPScheduler.java:148-170 | the critical processor runs the whole path no slower than any VM and strictly faster than every VM listed before it; an empty path gets the first VM |
| CpopPath.BestUnvisited | src/main/java/com/edgescheduling/algorithms/CPOPScheduler.java:129-141 | the successor found, if any, is a candidate not yet visited |
| CpopPath.CriticalPathStart | src/main/java/com/edgescheduling/algorithms/CPOPScheduler.java:103-107 | the start is a task of the graph |
| CpopPath.PathCosts | src/main/java/com/edgescheduling/algorithms/CPOPScheduler.java:152-162 | there is one path total per VM |
| CpopPath.CriticalProcessor | src/main/java/com/edgescheduling/algorithms/CPOPScheduler.java:148-170 | the critical processor is a VM of the list |
| CpopPlacement.EarliestStartProperties | src/main/java/com/edgescheduling/algorithms/CPOPScheduler.java:273-292 | the earliest start is not negative, waits for the output of every placed predecessor, and is either 0.0 or one predecessor's arrival time; unplaced predecessors are skipped |
| CpopPlacement.EarliestStartReadsFinishTimes | src/main/java/com/edgescheduling/algorithms/CPOPScheduler.java:273-292 | the earliest start depends on the mapping and the finish times only |
| CpopPlacement.PlaceOnProperties | src/main/java/com/edgescheduling/algorithms/CPOPScheduler.java:176-188 | a placed task starts once its VM is free and its placed predecessors' outputs are in, at one of those two times; it finishes at its earliest finish time, after it starts; its VM is busy until then; no VM clock goes back and other clocks stay |
| CpopPlacement.PlaceOnKeepsInvariant | src/main/java/com/edgescheduling/algorithms/CPOPScheduler.java:224-233 | placing a task not yet placed keeps every placed task well placed and every earlier task ordered before every later one |
| CpopPlacement.PlacePathNext | src/main/java/com/edgescheduling/algorithms/CPOPScheduler.java:176-188 | the path loop places the next path task on top of the tasks placed so far |
| CpopPlacement.PlaceRemainingNext | src/main/java/com/edgescheduling/algorithms/CPOPScheduler.java:211-234 | the remaining-task loop places the next task on its best VM on top of the tasks placed so far |
| CpopPlacement.PlacePathKeepsInvariant | src/main/java/com/edgescheduling/algorithms/CPOPScheduler.java:173-191 | placing the critical path keeps the placement invariant |
| CpopPlacement.PlacePathOnProcessor | src/main/java/com/edgescheduling/algorithms/CPOPScheduler.java:176-188 | every task of the critical path ends on the critical processor |
| CpopPlacement.BestVm | src/main/java/com/edgescheduling/algorithms/CPOPScheduler.java:212-221 | the VM chosen gives the smallest earliest finish time, and every VM listed before it a strictly larger one |
| CpopPlacement.PlaceRemainingKeepsInvariant | src/main/java/com/edgescheduling/algorithms/CPOPScheduler.java:211-235 | placing the remaining tasks keeps the placement invariant |
| CpopPlacement.PlaceRemainingKeepsOthers | src/main/java/com/edgescheduling/algorithms/CPOPScheduler.java:211-235 | placing the remaining tasks leaves every task placed before on its VM |
| CpopPlacement.Unplaced | src/main/java/com/edgescheduling/algorithms/CPOPScheduler.java:195-206 | the remaining list holds exactly the tasks of the topological order that are not mapped yet |
| CpopPlacement.UnplacedDistinct | src/main/java/com/edgescheduling/algorithms/CPOPScheduler.java:195-206 | the remaining list repeats no task |
| CpopPlacement.RemainingOrder | src/main/java/com/edgescheduling/algorithms/CPOPScheduler.java:195-209 | after sorting, the remaining list still holds exactly the unmapped tasks |
| CpopPlacement.PathPlacementProperties | src/main/java/com/edgescheduling/algorithms/CPOPScheduler.java:173-191 | after `scheduleCriticalPath` the path tasks are placed well, in path order, each on the critical processor |
| CpopPlacement.PlanRestElements | src/main/java/com/edgescheduling/algorithms/CPOPScheduler.java:195-209 | after the path is placed exactly the path tasks are mapped, and the remaining list holds every other vertex once |
| CpopPlacement.PlacementOrderCovers | src/main/java/com/edgescheduling/algorithms/CPOPScheduler.java:38-49 | the path and the remaining tasks share no task and together hold every vertex |
| CpopPlacement.PlanRestSorted | src/main/java/com/edgescheduling/algorithms/CPOPScheduler.java:208-209 | the remaining tasks are placed by descending upward rank |
| CpopPlacement.CpopPlanProperties | src/main/java/com/edgescheduling/algorithms/CPOPScheduler.java:38-49 | the empty graph gets the empty mapping; otherwise every vertex is mapped exactly once, every task placed well and ordered after the tasks placed before it, and every critical path task is on the critical processor |
| CpopPlacement.CpopPlanRespectsEdges | src/main/java/com/edgescheduling/algorithms/CPOPScheduler.java:173-236 | every edge whose target is not on the critical path, or whose source is on it too, is respected: the target starts after the source's output has arrived |
| CpopPlacement.EdgeOrderedInPlan | src/main/java/com/edgescheduling/algorithms/CPOPScheduler.java:173-236 | the source of such an edge is placed before its target |
| CpopPlacement.RestEdgeForward | src/main/java/com/edgescheduling/algorithms/CPOPScheduler.java:208-209 | among the remaining tasks the source of an edge has a strictly larger upward rank, so it is placed first |
| CpopPlacement.PathTaskCanPrecedeItsPredecessor | src/main/java/com/edgescheduling/algorithms/CPOPScheduler.java:173-191 | with two tasks joined by 0 -> 1, one VM of speed 1, the second task longer and nothing to transfer, the critical path is task 1 alone and task 1 starts before task 0 has finished |
| CpopPlacement.SingleVmRunsInOrder | src/main/java/com/edgescheduling/algorithms/CPOPScheduler.java:211-235 | on a single VM a task placed earlier starts before a task placed later finishes |
| CpopPlacement.TwoTaskPath | src/main/java/com/edgescheduling/algorithms/CPOPScheduler.java:101-118 | in the two-task setting above the critical path is task 1 alone |
| CpopPlacement.TwoTaskUpwardRanks | src/main/java/com/edgescheduling/algorithms/CPOPScheduler.java:62-75 | in that setting task 1's upward rank is its length and task 0's is at most the two lengths together |
| CpopPlacement.TwoTaskDownwardRanks | src/main/java/com/edgescheduling/algorithms/CPOPScheduler.java:83-97 | in that setting task 0's downward rank is its length and task 1's is at least the two lengths together |
| CpopPlacement.TwoTaskCriticalPath | src/main/java/com/edgescheduling/algorithms/CPOPScheduler.java:101-146 | when task 1 has the greater priority the walk starts there and stops at once |
| CpopPlacement.PlaceInOrderKeepsInvariant | src/main/java/com/edgescheduling/algorithms/CPOPScheduler.java:173-236 | the corrected placement, every task in topological order, keeps the placement invariant |
| CpopPlacement.PlaceInOrderOnProcessor | src/main/java/com/edgescheduling/algorithms/CPOPScheduler.java:176-188 | in the corrected placement every critical path task is on the critical processor |
| CpopPlacement.CorrectedCpopPlanProperties | src/main/java/com/edgescheduling/algorithms/CPOPScheduler.java:38-49 | the corrected schedule places every vertex exactly once and well, in topological order, with the critical path on the critical processor |
| CpopPlacement.CorrectedCpopPlanRespectsEdges | src/main/java/com/edgescheduling/algorithms/CPOPScheduler.java:173-236 | in the corrected schedule every edge is respected: a task starts only after the output of each predecessor has arrived on its VM |
| CpopPlacement.TopologicalPlanRespectsEdge | src/main/java/com/edgescheduling/algorithms/CPOPScheduler.java:273-292 | a placement made well in topological order waits for every predecessor |
| CpopPlacement.ReadyTerms | src/main/java/com/edgescheduling/algorithms/CPOPScheduler.java:278-289 | term `k` is predecessor `k`'s contribution to the earliest start on the VM |
| CpopPlacement.PlaceOn | src/main/java/com/edgescheduling/algorithms/CPOPScheduler.java:176-188 | placing a task keeps one clock per VM |
| CpopPlacement.PlaceOnStores | src/main/java/com/edgescheduling/algorithms/CPOPScheduler.java:225-233 | placing a task stores its VM, its start at the later of the VM's clock and its earliest start, its finish its execution time later, and that finish as the VM's clock |
| CpopPlacement.InitialPlacementInvariant | src/main/java/com/edgescheduling/algorithms/CPOPScheduler.java:22-35 | the constructor's empty placement meets the placement invariant with nothing placed |
| CpopPlacement.PlanInvariantRegroup | src/main/java/com/edgescheduling/algorithms/CPOPScheduler.java:173-191 | the placement invariant depends only on the order's contents |
| CpopPlacement.PlacePath | src/main/java/com/edgescheduling/algorithms/CPOPScheduler.java:173-191 | placing the path keeps one clock per VM |
| CpopPlacement.EarliestFinishes | src/main/java/com/edgescheduling/algorithms/CPOPScheduler.java:212-221 | cell `v` is the task's earliest finish time on VM `v` |
| CpopPlacement.PlaceRemaining | src/main/java/com/edgescheduling/algorithms/CPOPScheduler.java:211-235 | placing the remaining tasks keeps one clock per VM |
| CpopPlacement.PlanPath | src/main/java/com/edgescheduling/algorithms/CPOPScheduler.java:40-44 | the critical path is a list of tasks of the graph |
| CpopPlacement.PathPlacement | src/main/java/com/edgescheduling/algorithms/CPOPScheduler.java:45 | the placement after the critical path keeps one clock per VM |
| CpopPlacement.PlanRest | src/main/java/com/edgescheduling/algorithms/CPOPScheduler.java:195-209 | the remaining order is a list of tasks of the graph |
| CpopPlacement.PlaceInOrder | src/main/java/com/edgescheduling/algorithms/CPOPScheduler.java:173-236 | the corrected placement keeps one clock per VM |
| CpopScheduling.CpopScheduler.constructor | src/main/java/com/edgescheduling/algorithms/CPOPScheduler.java:22-35 | no rank, no mapping, no start or finish time, and every VM free at time 0 |
| CpopScheduling.CpopScheduler.Schedule | src/main/java/com/edgescheduling/algorithms/CPOPScheduler.java:38-49 | the placement fields end as the reference plan `CpopPlan` (the empty mapping for an empty graph), and both rank maps as the reference ranks; the mapping returned is the task-to-VM map |
| CpopScheduling.CpopScheduler.CalculateUpwardRank | src/main/java/com/edgescheduling/algorithms/CPOPScheduler.java:52-76 | the upward-rank map becomes the reference fold over the reverse topological order; nothing else changes |
| CpopScheduling.CpopScheduler.StoreUpwardRank | src/main/java/com/edgescheduling/algorithms/CPOPScheduler.java:62-75 | one turn of the loop stores the next task's rank and nothing else |
| CpopScheduling.CpopScheduler.UpwardRankOfTask | src/main/java/com/edgescheduling/algorithms/CPOPScheduler.java:63-74 | the value stored is the task's mean execution time plus its largest successor term |
| CpopScheduling.CpopScheduler.MaxSuccessorRank | src/main/java/com/edgescheduling/algorithms/CPOPScheduler.java:63-71 | the inner loop returns the largest `communicationCost + successorRank`, starting from 0.0 |
| CpopScheduling.CpopScheduler.CalculateDownwardRank | src/main/java/com/edgescheduling/algorithms/CPOPScheduler.java:79-98 | the downward-rank map becomes the reference fold over the topological order; nothing else changes |
| CpopScheduling.CpopScheduler.StoreDownwardRank | src/main/java/com/edgescheduling/algorithms/CPOPScheduler.java:84-96 | one turn of the loop stores the next task's rank and nothing else |
| CpopScheduling.CpopScheduler.DownwardRankOfTask | src/main/java/com/edgescheduling/algorithms/CPOPScheduler.java:85-96 | the value stored is the largest predecessor term plus the task's own mean execution time |
| CpopScheduling.CpopScheduler.MaxPredecessorRank | src/main/java/com/edgescheduling/algorithms/CPOPScheduler.java:85-93 | the inner loop returns the largest `predecessorRank + communicationCost`, starting from 0.0 |
| CpopScheduling.CpopScheduler.CalculateAverageComputationCost | src/main/java/com/edgescheduling/algorithms/CPOPScheduler.java:238-244 | the result is the mean execution time over the VMs |
| CpopScheduling.CpopScheduler.FindCriticalPath | src/main/java/com/edgescheduling/algorithms/CPOPScheduler.java:101-118 | the path returned is the reference critical path |
| CpopScheduling.CpopScheduler.BuildActualCriticalPath | src/main/java/com/edgescheduling/algorithms/CPOPScheduler.java:121-146 | the path it leaves is the reference walk, and the visited set holds exactly the tasks of the path |
| CpopScheduling.CpopScheduler.BestUnvisitedSuccessor | src/main/java/com/edgescheduling/algorithms/CPOPScheduler.java:129-141 | the successor chosen is the reference scan's |
| CpopScheduling.CpopScheduler.FindCriticalProcessor | src/main/java/com/edgescheduling/algorithms/CPOPScheduler.java:148-170 | the VM chosen is the reference critical processor |
| CpopScheduling.CpopScheduler.PathExecutionTime | src/main/java/com/edgescheduling/algorithms/CPOPScheduler.java:157-161 | the total is the path's summed execution time on that VM |
| CpopScheduling.CpopScheduler.CalculateEarliestStartTime | src/main/java/com/edgescheduling/algorithms/CPOPScheduler.java:273-292 | the result is the latest arrival of a placed predecessor's output, from 0.0 |
| CpopScheduling.CpopScheduler.CalculateEarliestFinishTime | src/main/java/com/edgescheduling/algorithms/CPOPScheduler.java:265-271 | the result is the earliest finish on that VM under the current placement |
| CpopScheduling.CpopScheduler.ScheduleCriticalPath | src/main/java/com/edgescheduling/algorithms/CPOPScheduler.java:173-191 | the placement becomes the reference placement of the path on the processor, with its clock stored at the end; the ranks are unchanged |
| CpopScheduling.CpopScheduler.PlacePathTask | src/main/java/com/edgescheduling/algorithms/CPOPScheduler.java:176-188 | one turn places the task on the processor and returns the new `currentTime` |
| CpopScheduling.CpopScheduler.ScheduleRemainingTasks | src/main/java/com/edgescheduling/algorithms/CPOPScheduler.java:194-236 | the unmapped tasks, in topological order and stably sorted by descending upward rank, are placed one by one as the reference placement says |
| CpopScheduling.CpopScheduler.UnmappedTasks | src/main/java/com/edgescheduling/algorithms/CPOPScheduler.java:195-206 | the list holds, in topological order, exactly the tasks that are not mapped yet |
| CpopScheduling.CpopScheduler.ScheduleInOrder | src/main/java/com/edgescheduling/algorithms/CPOPScheduler.java:211-235 | the tasks of the given order are placed one by one, each on its first earliest-finishing VM, as the reference placement says |
| CpopScheduling.CpopScheduler.ScheduleTask | src/main/java/com/edgescheduling/algorithms/CPOPScheduler.java:211-234 | one task goes to the first VM where it finishes earliest, its start and finish are recorded and that VM's clock becomes its finish |
| CpopScheduling.CpopScheduler.EarliestFinishingVm | src/main/java/com/edgescheduling/algorithms/CPOPScheduler.java:212-221 | the VM chosen is the first with the smallest earliest finish time |
| CpopScheduling.KeepEarliest | src/main/java/com/edgescheduling/algorithms/CPOPScheduler.java:214-219 | one turn of the VM scan keeps the first VM with the smallest finish time among those seen so far |
| PsoReplay.Decode | src/main/java/com/edgescheduling/algorithms/PSOScheduler.java:264-265 | a decoded position names a VM of the list |
| PsoReplay.DecodeClamps | src/main/java/com/edgescheduling/algorithms/PSOScheduler.java:264-265 | inside [0, n) decoding is the floor; a position past either end decodes to the nearest end |
| PsoReplay.DecodeChosenIndex | src/main/java/com/edgescheduling/algorithms/PSOScheduler.java:219 | a VM index plus an offset below 1 decodes back to that index |
| PsoReplay.DecodeAll | src/main/java/com/edgescheduling/algorithms/PSOScheduler.java:263-266 | dimension `i` decodes to `Decode(position[i])`, a VM of the list |
| PsoReplay.MappingOfNext | src/main/java/com/edgescheduling/algorithms/PSOScheduler.java:266 | one more turn of the loop puts one more task in the map |
| PsoReplay.MappingOfEntries | src/main/java/com/edgescheduling/algorithms/PSOScheduler.java:259-270 | the map has an entry for exactly the tasks of the order, and with no repeats `order[i]` maps to `vmIdx[i]` |
| PsoReplay.DecodedMappingAssigns | src/main/java/com/edgescheduling/algorithms/PSOScheduler.java:259-270 | decoding a position maps every task of the graph to the VM its dimension decodes to |
| PsoReplay.Zeros | src/main/java/com/edgescheduling/algorithms/PSOScheduler.java:275 | every VM's clock starts at 0 |
| PsoReplay.ArrivalTerms | src/main/java/com/edgescheduling/algorithms/PSOScheduler.java:282-286 | term `k` is predecessor `k`'s arrival on the task's VM |
| PsoReplay.TimeTask | src/main/java/com/edgescheduling/algorithms/PSOScheduler.java:280-290 | one turn keeps one clock per VM |
| PsoReplay.Replay | src/main/java/com/edgescheduling/algorithms/PSOScheduler.java:272-292 | the replay keeps one clock per VM |
| PsoReplay.ReplayNext | src/main/java/com/edgescheduling/algorithms/PSOScheduler.java:279 | the replay of a longer prefix is one more turn on the shorter one |
| PsoReplay.TimeTaskFacts | src/main/java/com/edgescheduling/algorithms/PSOScheduler.java:280-290 | a task starts no earlier than its VM's clock, finishes its execution time later, its VM's clock becomes its finish and no other clock moves |
| PsoReplay.TimeTaskAfterArrivals | src/main/java/com/edgescheduling/algorithms/PSOScheduler.java:282-286 | a task starts no earlier than every predecessor's finish plus the transfer, free on the same VM |
| PsoReplay.ReplayTimesEachTask | src/main/java/com/edgescheduling/algorithms/PSOScheduler.java:272-292 | the replay times exactly the tasks of the order; every clock stays at or above 0; every timed task finishes its execution time after a start no earlier than 0 |
| PsoReplay.InFrontOrLast | src/main/java/com/edgescheduling/algorithms/PSOScheduler.java:279 | an element of a non-empty list is in its front or is its last |
| PsoReplay.ReplayKeepsTimes | src/main/java/com/edgescheduling/algorithms/PSOScheduler.java:288-289 | once timed, a task keeps the times its own turn gave it |
| PsoReplay.TimeTaskKeepsOthers | src/main/java/com/edgescheduling/algorithms/PSOScheduler.java:288-289 | a turn times its own task only |
| PsoReplay.ClockNeverDecreases | src/main/java/com/edgescheduling/algorithms/PSOScheduler.java:290 | a VM's clock never goes back as the replay proceeds |
| PsoReplay.ReplayRespectsPrecedence | src/main/java/com/edgescheduling/algorithms/PSOScheduler.java:272-292 | over a topological order, every edge's output arrives before its target starts, and two tasks on one VM run one after the other in order |
| PsoReplay.EdgeArrivesInTime | src/main/java/com/edgescheduling/algorithms/PSOScheduler.java:282-286 | the edge case of the precedence property, by the positions of the edge's ends in the order |
| PsoReplay.SameVmInSequence | src/main/java/com/edgescheduling/algorithms/PSOScheduler.java:281 | the same-VM case of the precedence property |
| PsoFitness.LengthSumPositive | src/main/java/com/edgescheduling/algorithms/PSOScheduler.java:95-98 | tasks of positive length have a positive total length |
| PsoFitness.Speeds | src/main/java/com/edgescheduling/algorithms/PSOScheduler.java:91-92 | cell `v` is VM `v`'s speed |
| PsoFitness.SlowestSpeedBounds | src/main/java/com/edgescheduling/algorithms/PSOScheduler.java:91-94 | the smallest speed of a non-empty list is one of its speeds and no speed is below it |
| PsoFitness.SpeedBounds | src/main/java/com/edgescheduling/algorithms/PSOScheduler.java:91-104 | the least and largest speeds are speeds of the list, below and above every speed; with no VMs both are 1 |
| PsoFitness.NormalisersPositive | src/main/java/com/edgescheduling/algorithms/PSOScheduler.java:90-109 | with at least one task the three normalisers are positive, so the fitness never divides by zero |
| PsoFitness.TaskEnergyOnFasterVm | src/main/java/com/edgescheduling/algorithms/PSOScheduler.java:301-304 | a task spends no more energy on a faster VM |
| PsoFitness.DivideByLarger | src/main/java/com/edgescheduling/algorithms/PSOScheduler.java:302 | dividing a non-negative length by a larger speed gives no more time |
| PsoFitness.TaskEnergyAtLeast | src/main/java/com/edgescheduling/algorithms/PSOScheduler.java:301-304 | a task spends at least its length priced at the fastest VM's energy per instruction |
| PsoFitness.Regroup | src/main/java/com/edgescheduling/algorithms/PSOScheduler.java:106 | pricing the whole length per instruction equals `(length / mips) * power` |
| PsoFitness.EnergyAtLeastNormaliser | src/main/java/com/edgescheduling/algorithms/PSOScheduler.java:101-106 | `maxPossibleEnergy` is a lower bound: no mapping spends less energy, so the normalised energy term is at least 1 |
| PsoFitness.EnergySumAtLeast | src/main/java/com/edgescheduling/algorithms/PSOScheduler.java:298-307 | the first `k` tasks spend at least their length priced at the fastest VM |
| PsoFitness.EnergySumAtRate | src/main/java/com/edgescheduling/algorithms/PSOScheduler.java:298-307 | the first `k` tasks spend at least their length priced at any speed no VM exceeds |
| PsoFitness.ScaledSumAtMost | src/main/java/com/edgescheduling/algorithms/PSOScheduler.java:304 | two scaled bounds add up |
| PsoFitness.EnergyNormaliser | src/main/java/com/edgescheduling/algorithms/PSOScheduler.java:101-106 | `maxPossibleEnergy` is the total length priced at the fastest VM |
| PsoFitness.EnergyCanExceedNormaliser | src/main/java/com/edgescheduling/algorithms/PSOScheduler.java:101-106 | as soon as one task runs on a VM slower than the fastest, the energy exceeds `maxPossibleEnergy` and the normalised energy term exceeds 1: the "maximum" is no maximum |
| PsoFitness.EnergyAboveNormaliser | src/main/java/com/edgescheduling/algorithms/PSOScheduler.java:101-106 | with a task on a VM slower than the fastest, the energy is above `maxPossibleEnergy` |
| PsoFitness.EnergySumAboveFastest | src/main/java/com/edgescheduling/algorithms/PSOScheduler.java:298-307 | the first `k` tasks, one of them on a slower VM, spend more than their length priced at the fastest VM |
| PsoFitness.QuotientAboveOne | src/main/java/com/edgescheduling/algorithms/PSOScheduler.java:253 | a quotient of a larger over a smaller positive number exceeds 1 |
| PsoFitness.TaskEnergyAboveRate | src/main/java/com/edgescheduling/algorithms/PSOScheduler.java:301-304 | on a VM slower than a speed a task spends more than its length priced at that speed |
| PsoFitness.EnergySumAbove | src/main/java/com/edgescheduling/algorithms/PSOScheduler.java:298-307 | once a task among the first `k` runs slower than a speed, the first `k` spend more than their length priced at it |
| PsoFitness.TaskEnergyAtMost | src/main/java/com/edgescheduling/algorithms/PSOScheduler.java:301-304 | on a VM no slower than a speed a task spends at most its length priced at that speed |
| PsoFitness.EnergySumAtMostRate | src/main/java/com/edgescheduling/algorithms/PSOScheduler.java:298-307 | the first `k` tasks spend at most their length priced at a speed no VM is below |
| PsoFitness.EnergyAtMostCorrectedNormaliser | src/main/java/com/edgescheduling/algorithms/PSOScheduler.java:101-106 | the whole work priced at the slowest VM bounds every mapping's energy from above, so with tasks the normalised energy term lies in (0, 1] |
| PsoFitness.EnergyAtMostCorrected | src/main/java/com/edgescheduling/algorithms/PSOScheduler.java:101-106 | every mapping's energy is at most the whole work priced at the slowest VM |
| PsoFitness.EnergyPositive | src/main/java/com/edgescheduling/algorithms/PSOScheduler.java:101-106 | with at least one task, every mapping spends positive energy |
| PsoFitness.CorrectedEnergyNormaliserIsRate | src/main/java/com/edgescheduling/algorithms/PSOScheduler.java:91-94 | the corrected normaliser is the total length priced at the slowest VM, whose speed is positive and no VM's is below |
| PsoFitness.UnitQuotient | src/main/java/com/edgescheduling/algorithms/PSOScheduler.java:253 | a positive number over one no smaller lies in (0, 1] |
| PsoFitness.FinishTimes | src/main/java/com/edgescheduling/algorithms/PSOScheduler.java:295 | cell `i` is the finish time of the `i`-th task of the order |
| PsoFitness.MakespanIsLatestFinish | src/main/java/com/edgescheduling/algorithms/PSOScheduler.java:294-296 | the makespan of a replay is the finish time of some task and no task finishes later; it is 0 only for an empty graph and never negative |
| PsoFitness.Deviations | src/main/java/com/edgescheduling/algorithms/PSOScheduler.java:312-315 | cell `v` is VM `v`'s squared distance from the even share |
| PsoFitness.LoadBalanceZeroIffEven | src/main/java/com/edgescheduling/algorithms/PSOScheduler.java:309-317 | the imbalance is never negative, and 0 exactly when every VM is busy for the same share of the makespan |
| PsoFitness.DeviationSign | src/main/java/com/edgescheduling/algorithms/PSOScheduler.java:314 | a squared distance is never negative, and positive exactly when the VM's busy time is not the share |
| PsoFitness.RootPositive | src/main/java/com/edgescheduling/algorithms/PSOScheduler.java:316 | the root of a positive number is positive |
| PsoFitness.ZeroQuotient | src/main/java/com/edgescheduling/algorithms/PSOScheduler.java:316 | 0 over a positive number is 0 |
| PsoFitness.PositiveQuotient | src/main/java/com/edgescheduling/algorithms/PSOScheduler.java:316 | a positive number over a positive number is positive |
| PsoFitness.SumOfZeros | src/main/java/com/edgescheduling/algorithms/PSOScheduler.java:311-315 | a sum of zeros is 0 |
| PsoFitness.SumAtLeastTerm | src/main/java/com/edgescheduling/algorithms/PSOScheduler.java:311-315 | a sum of non-negative terms is at least each term |
| PsoFitness.FitnessMonotone | src/main/java/com/edgescheduling/algorithms/PSOScheduler.java:245-257 | with positive normalisers a schedule no worse in makespan, energy and imbalance has no larger fitness |
| PsoFitness.DivideMonotone | src/main/java/com/edgescheduling/algorithms/PSOScheduler.java:252-254 | dividing by a positive normaliser keeps the order |
| PsoFitness.FitnessAtLeastEnergyWeight | src/main/java/com/edgescheduling/algorithms/PSOScheduler.java:252-256 | the weighted sum is at least the energy weight 0.2 when the makespan and imbalance are not negative and the energy is at least its normaliser |
| PsoFitness.PositionFitnessAtLeastEnergyWeight | src/main/java/com/edgescheduling/algorithms/PSOScheduler.java:245-257 | every particle's fitness is at least 0.2, because the energy term is never below 1 |
| PsoSwarm.Candidates | src/main/java/com/edgescheduling/algorithms/PSOScheduler.java:211-217 | cell `v` is the value the scan compares for VM `v`: finish time plus execution time, or load |
| PsoSwarm.GreedyStep | src/main/java/com/edgescheduling/algorithms/PSOScheduler.java:207-221 | one step keeps the earlier choices, adds one choice, a VM of the list, and keeps a busy time per VM |
| PsoSwarm.GreedyRun | src/main/java/com/edgescheduling/algorithms/PSOScheduler.java:203-243 | a run over `k` tasks makes `k` choices, each a VM of the list |
| PsoSwarm.GreedyBusyIsLoad | src/main/java/com/edgescheduling/algorithms/PSOScheduler.java:203-243 | both heuristics keep, for every VM, exactly the execution time of the tasks they sent to it |
| PsoSwarm.BusyIsLoadOf | src/main/java/com/edgescheduling/algorithms/PSOScheduler.java:220 | a VM's busy time after `k` steps is the load of the first `k` choices on it |
| PsoSwarm.GreedyRunLastStep | src/main/java/com/edgescheduling/algorithms/PSOScheduler.java:220 | the last step adds the last task's execution time to the VM it chose |
| PsoSwarm.GreedyRunPrefix | src/main/java/com/edgescheduling/algorithms/PSOScheduler.java:207 | the first `k` choices of a run are those of the run over the first `k` tasks |
| PsoSwarm.ArgMinFirstUnique | src/main/java/com/edgescheduling/algorithms/PSOScheduler.java:209-217 | a first minimum is the only index no larger than every candidate and strictly smaller than every earlier one |
| PsoSwarm.SameSpeedSameChoices | src/main/java/com/edgescheduling/algorithms/PSOScheduler.java:203-243 | on VMs of one speed the two seedings make the same choices |
| PsoSwarm.SameSpeedSameStep | src/main/java/com/edgescheduling/algorithms/PSOScheduler.java:211-217 | on VMs of one speed the two scans pick the same VM |
| PsoSwarm.JitteredChoice | src/main/java/com/edgescheduling/algorithms/PSOScheduler.java:219 | a jittered position lies just above its index, inside [0, n), and decodes to the chosen VM |
| PsoSwarm.JitteredPositionsDecode | src/main/java/com/edgescheduling/algorithms/PSOScheduler.java:219 | positions just above their indices decode to those indices and lie in [0, n) |
| PsoSwarm.UniformPositionInRange | src/main/java/com/edgescheduling/algorithms/PSOScheduler.java:188 | a uniform position lies in [0, n) |
| PsoSwarm.ProductSigns | src/main/java/com/edgescheduling/algorithms/PSOScheduler.java:188 | a non-negative times a positive factor is not negative, and positive when the first is |
| PsoSwarm.InitialVelocityInRange | src/main/java/com/edgescheduling/algorithms/PSOScheduler.java:192 | a seeded velocity lies in [-n, n) |
| PsoSwarm.InertiaAnneals | src/main/java/com/edgescheduling/algorithms/PSOScheduler.java:145 | the inertia falls linearly and strictly from 0.9 at the first iteration to 0.4 at the last |
| PsoSwarm.ClampBounds | src/main/java/com/edgescheduling/algorithms/PSOScheduler.java:154-156 | a clamped velocity lies in [-n, n], is kept when already there, and is cut to the nearer bound otherwise |
| PsoSwarm.ReflectStaysInside | src/main/java/com/edgescheduling/algorithms/PSOScheduler.java:158-166 | from a position in [0, n] and a velocity in [-n, n] the move ends in [0, n] with a velocity in [-n, n]; a step that stays inside is plain |
| PsoSwarm.FlyStaysInside | src/main/java/com/edgescheduling/algorithms/PSOScheduler.java:148-167 | whatever the coefficients and draws, a position in [0, n] stays there and the velocity ends in [-n, n] |
| PsoSwarm.ImprovedIsMinimum | src/main/java/com/edgescheduling/algorithms/PSOScheduler.java:120-123 | the kept best is no larger than the new fitness or the old best, and changes only to a strictly smaller fitness |
| PsoSwarm.NonIncreasingAppend | src/main/java/com/edgescheduling/algorithms/PSOScheduler.java:131 | appending a value no larger than the last keeps the history non-increasing |
| PsoSwarm.StagnationBounded | src/main/java/com/edgescheduling/algorithms/PSOScheduler.java:133-143 | the counter never ends an iteration above 30; the mutation fires on the stagnant iteration after 30 stagnant ones; a move of at least 1e-6 resets the count |
| PsoSwarm.WorstParticles | src/main/java/com/edgescheduling/algorithms/PSOScheduler.java:320-322 | exactly `count` particles are chosen |
| PsoSwarm.WorstParticlesAreWorst | src/main/java/com/edgescheduling/algorithms/PSOScheduler.java:319-327 | the chosen particles are `count` different particles, and none left out has a larger fitness than one chosen |
| PsoScheduling.PsoScheduler.constructor | src/main/java/com/edgescheduling/algorithms/PSOScheduler.java:51-88 | the scheduler holds its arguments, every VM free at 0, nothing timed, no swarm, an empty history, a zero counter and the normalisers of the graph and VMs |
| PsoScheduling.PsoScheduler.ConvertToMapping | src/main/java/com/edgescheduling/algorithms/PSOScheduler.java:259-270 | the mapping is the decoded position of each task of the order, every task on a VM of the list, and the timing maps hold its replay |
| PsoScheduling.PsoScheduler.UpdateTimings | src/main/java/com/edgescheduling/algorithms/PSOScheduler.java:272-292 | the timing maps become the replay of the mapping over the topological order |
| PsoScheduling.PsoScheduler.TimeTask | src/main/java/com/edgescheduling/algorithms/PSOScheduler.java:279-291 | one turn extends the replay by the next task |
| PsoScheduling.PsoScheduler.ReadyTimeOf | src/main/java/com/edgescheduling/algorithms/PSOScheduler.java:281-286 | the ready time is the VM's clock raised to every predecessor's arrival |
| PsoScheduling.PsoScheduler.CalculateEnergy | src/main/java/com/edgescheduling/algorithms/PSOScheduler.java:298-307 | the total is the energy of every task on the VM it is mapped to |
| PsoScheduling.PsoScheduler.CalculateLoadBalance | src/main/java/com/edgescheduling/algorithms/PSOScheduler.java:309-317 | the result is the root mean square distance of the VM clocks from an even share of the makespan |
| PsoScheduling.PsoScheduler.EvaluateFitness | src/main/java/com/edgescheduling/algorithms/PSOScheduler.java:245-257 | the particle's fitness becomes the weighted fitness of its decoded replay, and the timing maps hold that replay |
| PsoScheduling.PsoScheduler.InitializeSwarm | src/main/java/com/edgescheduling/algorithms/PSOScheduler.java:175-201 | `swarmSize` fresh particles inside the bounds, the first third seeded by the earliest-finish greedy, the second by the least-loaded greedy, the rest uniformly; two draws per task and particle; the global best is an evaluated copy of the first particle |
| PsoScheduling.PsoScheduler.BuildSwarm | src/main/java/com/edgescheduling/algorithms/PSOScheduler.java:179-196 | the particle loop makes `swarmSize` fresh particles, each seeded by its third |
| PsoScheduling.PsoScheduler.CreateParticle | src/main/java/com/edgescheduling/algorithms/PSOScheduler.java:181-195 | one fresh particle seeded by its third, with small velocities and its best position its position |
| PsoScheduling.PsoScheduler.SeedPosition | src/main/java/com/edgescheduling/algorithms/PSOScheduler.java:182-190 | a greedy seeding for the first two thirds, a uniform draw for the rest, every position in [0, n); dimension `d` is exactly the chosen index plus `0.05` times the `d`-th `nextDouble()` (greedy thirds) or `n` times it (uniform third) |
| PsoScheduling.PsoScheduler.InitHeuristic | src/main/java/com/edgescheduling/algorithms/PSOScheduler.java:203-243 | the positions decode to the greedy run's choices and lie in [0, n), one draw per task; position `d` is exactly the greedy choice for task `d` plus `0.05` times the `d`-th draw |
| PsoScheduling.PsoScheduler.SeedTasks | src/main/java/com/edgescheduling/algorithms/PSOScheduler.java:207-221 | every task placed by the greedy scan, its position the chosen VM's index plus `0.05` times that task's draw |
| PsoScheduling.PsoScheduler.SeedTask | src/main/java/com/edgescheduling/algorithms/PSOScheduler.java:208-220 | one turn takes the greedy's next step; the position is the chosen index plus `nextDouble() * 0.05`, just above the index |
| PsoScheduling.PsoScheduler.PlaceTask | src/main/java/com/edgescheduling/algorithms/PSOScheduler.java:209-220 | one task goes to the VM the scan picks, whose busy time grows by the task's execution time there |
| PsoScheduling.PsoScheduler.FirstCheapestVm | src/main/java/com/edgescheduling/algorithms/PSOScheduler.java:209-217 | the scan returns the first VM with the smallest value and that value |
| PsoScheduling.PsoScheduler.InitUniform | src/main/java/com/edgescheduling/algorithms/PSOScheduler.java:187-189 | every dimension is `nextDouble() * n` of its own draw, in [0, n) |
| PsoScheduling.PsoScheduler.InitVelocity | src/main/java/com/edgescheduling/algorithms/PSOScheduler.java:191-193 | every velocity is `(nextDouble() - 0.5) * n * 0.2` of its own draw, in [-n, n] |
| PsoScheduling.PsoScheduler.Schedule | src/main/java/com/edgescheduling/algorithms/PSOScheduler.java:111-173 | an empty graph gives the empty mapping and changes nothing; otherwise the returned mapping is the decoded best position of the global best, whose fitness is the last history entry and no worse than any particle's best; the history never increases and the timing maps hold the mapping's replay |
| PsoScheduling.PsoScheduler.Search | src/main/java/com/edgescheduling/algorithms/PSOScheduler.java:116-170 | after the initialisation and `maxIterations` iterations the swarm is sound, the global best leads and the history gained one non-increasing entry per iteration |
| PsoScheduling.PsoScheduler.Iterate | src/main/java/com/edgescheduling/algorithms/PSOScheduler.java:117-169 | one iteration keeps the swarm sound and the global best leading, adds one history entry and sets the inertia of that iteration |
| PsoScheduling.PsoScheduler.Assess | src/main/java/com/edgescheduling/algorithms/PSOScheduler.java:118-143 | evaluation, global best, history, stagnation and mutation keep the loop's invariant |
| PsoScheduling.PsoScheduler.EvaluateAndLead | src/main/java/com/edgescheduling/algorithms/PSOScheduler.java:118-129 | every particle is evaluated, the global best leads and its fitness never rises |
| PsoScheduling.PsoScheduler.EvaluateSwarm | src/main/java/com/edgescheduling/algorithms/PSOScheduler.java:118-124 | every particle is evaluated and its best replaced only on strict improvement |
| PsoScheduling.PsoScheduler.EvaluateParticle | src/main/java/com/edgescheduling/algorithms/PSOScheduler.java:119-123 | the particle is evaluated and its best replaced only when the new fitness is strictly smaller |
| PsoScheduling.PsoScheduler.UpdateGlobalBest | src/main/java/com/edgescheduling/algorithms/PSOScheduler.java:126-129 | the first particle of smallest best fitness is found, and the global best becomes a copy of it only when strictly better; its fitness never rises |
| PsoScheduling.PsoScheduler.FirstBestParticle | src/main/java/com/edgescheduling/algorithms/PSOScheduler.java:126 | the index returned has the smallest best fitness, and every earlier particle's is strictly larger |
| PsoScheduling.PsoScheduler.RecordProgress | src/main/java/com/edgescheduling/algorithms/PSOScheduler.java:131-138 | the history gains the global best's fitness and stays non-increasing; the counter grows on stagnation and resets otherwise; the best becomes the previous best |
| PsoScheduling.PsoScheduler.MutatedPrefix | src/main/java/com/edgescheduling/algorithms/PSOScheduler.java:323-326 | re-drawing keeps the swarm's size and each particle's dimension |
| PsoScheduling.PsoScheduler.MutatedSound | src/main/java/com/edgescheduling/algorithms/PSOScheduler.java:324-325 | a re-drawn particle stays sound and keeps its best fitness |
| PsoScheduling.PsoScheduler.MutatedPrefixSound | src/main/java/com/edgescheduling/algorithms/PSOScheduler.java:323-326 | re-drawing keeps a sound swarm sound with every best fitness |
| PsoScheduling.PsoScheduler.MutatedPrefixKeeps | src/main/java/com/edgescheduling/algorithms/PSOScheduler.java:323-326 | a particle not chosen is left as it was |
| PsoScheduling.PsoScheduler.MutatedPrefixParticle | src/main/java/com/edgescheduling/algorithms/PSOScheduler.java:323-326 | each chosen particle is re-drawn once, with its own two draws |
| PsoScheduling.PsoScheduler.MutateWorstParticles | src/main/java/com/edgescheduling/algorithms/PSOScheduler.java:319-327 | the `swarmSize / 5` particles of largest fitness each get one dimension re-drawn, the swarm stays sound and keeps its best fitnesses |
| PsoScheduling.PsoScheduler.ChooseWorst | src/main/java/com/edgescheduling/algorithms/PSOScheduler.java:320-322 | the indices of `swarmSize / 5` different particles, none left out with a larger fitness |
| PsoScheduling.PsoScheduler.MutatedSwarm | src/main/java/com/edgescheduling/algorithms/PSOScheduler.java:323-326 | after all chosen particles are re-drawn the swarm is sound, keeps its bests, each chosen particle re-drawn with its own draws and every other as it was |
| PsoScheduling.PsoScheduler.MutateChosen | src/main/java/com/edgescheduling/algorithms/PSOScheduler.java:323-326 | the loop re-draws the chosen particles in order, two draws each |
| PsoScheduling.PsoScheduler.MutateNext | src/main/java/com/edgescheduling/algorithms/PSOScheduler.java:323-326 | one turn re-draws the next chosen particle and advances the generator by two draws |
| PsoScheduling.PsoScheduler.FitnessValues | src/main/java/com/edgescheduling/algorithms/PSOScheduler.java:321 | the fitness of every particle, in swarm order |
| PsoScheduling.PsoScheduler.MutateParticle | src/main/java/com/edgescheduling/algorithms/PSOScheduler.java:324-325 | one dimension picked by `nextInt(length)` gets `nextDouble() * n`, and the particle stays sound |
| PsoScheduling.PsoScheduler.MoveSwarm | src/main/java/com/edgescheduling/algorithms/PSOScheduler.java:147-168 | every particle flown towards the global best with two draws per dimension, staying sound and keeping its best fitness |
| PsoScheduling.PsoScheduler.MoveAll | src/main/java/com/edgescheduling/algorithms/PSOScheduler.java:147-168 | the loop flies each particle of the swarm in order |
| PsoScheduling.PsoScheduler.MoveNext | src/main/java/com/edgescheduling/algorithms/PSOScheduler.java:147-168 | one turn flies the next particle with the draws that follow the ones already used, keeping every particle sound |
| PsoScheduling.PsoScheduler.MoveParticle | src/main/java/com/edgescheduling/algorithms/PSOScheduler.java:148-167 | one particle flown dimension after dimension, staying sound |
| PsoScheduling.PsoScheduler.MoveNextDimension | src/main/java/com/edgescheduling/algorithms/PSOScheduler.java:148-167 | one turn flies dimension `d` by the flight rule and leaves the later dimensions as they were, inside the bounds |
| PsoScheduling.PsoScheduler.MoveDimension | src/main/java/com/edgescheduling/algorithms/PSOScheduler.java:149-166 | two draws, the velocity rule, the clamp, the step and the reflection: the position ends in [0, n] and the velocity in [-n, n] |
| EdgeTasks.TaskNode.constructor | src/main/java/com/edgescheduling/model/TaskNode.java:18-29 | a new node has the given id, cost and data size, no dependencies or successors, priority 0, is not scheduled, sits on device -1 and has both times at 0 |
| EdgeTasks.TaskNode.AddDependency | src/main/java/com/edgescheduling/model/TaskNode.java:31-36 | a dependency already recorded changes nothing; otherwise it is appended to the dependencies and this node to its successors; either way it is recorded afterwards, so a second call is a no-op; readiness then also needs the new dependency to be scheduled; the mirrored shape of the graph is kept |
| EdgeTasks.TaskNode.IsReady | src/main/java/com/edgescheduling/model/TaskNode.java:38-40 | a node with no dependencies is ready, and a node is ready exactly when none of its dependencies is unscheduled; `AddDependency` keeps it ready exactly when the added dependency is scheduled |
| EdgeTasks.TaskNode.SetPriority | src/main/java/com/edgescheduling/model/TaskNode.java:49 | the priority becomes the argument |
| EdgeTasks.TaskNode.SetScheduled | src/main/java/com/edgescheduling/model/TaskNode.java:51 | the scheduled flag becomes the argument |
| EdgeTasks.TaskNode.SetAssignedDeviceId | src/main/java/com/edgescheduling/model/TaskNode.java:53 | the device becomes the argument |
| EdgeTasks.TaskNode.SetStartTime | src/main/java/com/edgescheduling/model/TaskNode.java:55 | the start time becomes the argument |
| EdgeTasks.TaskNode.SetFinishTime | src/main/java/com/edgescheduling/model/TaskNode.java:57 | the finish time becomes the argument |
| EdgeDevices.ScaleBetween | src/main/java/com/edgescheduling/model/EdgeDevice.java:34-35 | scaling bounds by a non-negative time keeps them |
| EdgeDevices.Min | src/main/java/com/edgescheduling/environment/EdgeEnvironment.java:52-53 | `Math.min` returns one of its arguments and neither is smaller |
| EdgeDevices.EdgeDevice.constructor | src/main/java/com/edgescheduling/model/EdgeDevice.java:16-25 | the six attributes hold the arguments; the device is free from time 0 and has no tasks |
| EdgeDevices.EdgeDevice.ExecutionTime | src/main/java/com/edgescheduling/model/EdgeDevice.java:27-29 | the execution time times the speed is the task's cost, so it is non-negative for a non-negative cost and positive for a positive one |
| EdgeDevices.EdgeDevice.Utilization | src/main/java/com/edgescheduling/model/EdgeDevice.java:33 | the utilisation is capped at 1 and not negative for a task of non-negative cost |
| EdgeDevices.EdgeDevice.ScheduleTask | src/main/java/com/edgescheduling/model/EdgeDevice.java:38-44 | the task is put on this device from the start time for its execution time, appended to the device's list, and the device is busy until the task finishes |
| EdgeDevices.EdgeDevice.SetAvailableTime | src/main/java/com/edgescheduling/model/EdgeDevice.java:54 | the device's available time becomes the argument |
| EdgeDevices.EdgeDevice.ClearScheduledTasks | src/main/java/com/edgescheduling/algorithm/CPOPScheduler.java:28 | the device's task list becomes empty |
| EdgeDevices.EdgeDevice.Power | src/main/java/com/edgescheduling/model/EdgeDevice.java:33-34 | with peak power at least idle power, the power drawn for a task of non-negative cost lies between the two |
| EdgeDevices.EdgeDevice.EnergyConsumption | src/main/java/com/edgescheduling/model/EdgeDevice.java:31-36 | the energy of a task lies between idle power and peak power times its execution time, so it is never negative when idle power is not |
| EdgeDevices.ScheduledRunsForExecutionTime | src/main/java/com/edgescheduling/model/EdgeDevice.java:38-44 | a scheduled task runs for exactly its execution time on the device, and that time is not negative |
| EdgeEnvironments.DrawnDeviceInRange | src/main/java/com/edgescheduling/environment/EdgeEnvironment.java:24-30 | a drawn device has speed in [1000, 3000), 2 to 4 cores, idle power in [10, 20), peak power in [50, 100) and bandwidth in [50, 100), so its peak power exceeds its idle power |
| EdgeEnvironments.EdgeEnvironment.constructor | src/main/java/com/edgescheduling/environment/EdgeEnvironment.java:13-19 | the environment holds `numDevices` idle devices, device `i` built from draws `5i .. 5i+4` of the seeded stream; the delay of each ordered pair `(i, j)` of distinct devices is `1 + 9 * nextDouble()` of draw `5 * numDevices + DelayDrawIndex(i, j)`, the diagonal is 0, and the stream has advanced by exactly `5n + n(n-1)` draws |
| EdgeEnvironments.EdgeEnvironment.CommunicationTime | src/main/java/com/edgescheduling/environment/EdgeEnvironment.java:48-55 | a device and itself need no time; between two different devices, for non-negative data, the time lies in [1, 10 + dataSize/50) |
| EdgeEnvironments.EdgeEnvironment.GetDevice | src/main/java/com/edgescheduling/environment/EdgeEnvironment.java:58 | the device returned has the requested id and belongs to the environment |
| EdgeEnvironments.TransferBound | src/main/java/com/edgescheduling/environment/EdgeEnvironment.java:50-54 | moving non-negative data over a link of bandwidth at least 50 takes no negative time and no longer than over a link of exactly 50 |
| EdgeEnvironments.CreateEdgeDevices | src/main/java/com/edgescheduling/environment/EdgeEnvironment.java:21-32 | device `i` is built from the five draws following the `5i` made before it, idle and with id `i`, and the loop consumes five draws per device |
| EdgeEnvironments.DrawDevice | src/main/java/com/edgescheduling/environment/EdgeEnvironment.java:22-31 | one turn builds a fresh idle device from the next five draws |
| EdgeEnvironments.InitializeCommunicationMatrix | src/main/java/com/edgescheduling/environment/EdgeEnvironment.java:34-46 | every cell is set: the diagonal to 0 and the cell of each ordered pair `(i, j)` of distinct devices to `1 + 9 * nextDouble()` of the pair's own draw, row by row with the diagonal skipped, so in [1, 10); exactly `n(n-1)` draws are used |
| EdgeEnvironments.DelayDrawIndex | src/main/java/com/edgescheduling/environment/EdgeEnvironment.java:36-43 | the draw of each ordered pair of distinct devices lies within the `n(n-1)` draws the matrix uses |
| TaskGraphGeneration.Triangle | src/main/java/com/edgescheduling/util/TaskGraphGenerator.java:25-34 | there are `n(n-1)/2` forward pairs below `n` |
| TaskGraphGeneration.TaskGraphGenerator.constructor | src/main/java/com/edgescheduling/util/TaskGraphGenerator.java:9-11 | the generator owns a fresh random source at the start of its stream |
| TaskGraphGeneration.TaskGraphGenerator.GenerateDag | src/main/java/com/edgescheduling/util/TaskGraphGenerator.java:13-37 | `numTasks` nodes with ids in order, each built from its two draws; the nodes are linked both ways, every link goes forward, the links are exactly those `EdgeLoop` makes of the draws after the nodes' ones, there are never more links than requested, and the loop ends with exactly `numEdges` links, which is possible only when `numEdges <= n(n-1)/2` |
| TaskGraphGeneration.TaskGraphGenerator.DrawNodes | src/main/java/com/edgescheduling/util/TaskGraphGenerator.java:17-21 | node `i` is built from draws `2i` and `2i+1`, with id `i` and no links |
| TaskGraphGeneration.TaskGraphGenerator.AddEdges | src/main/java/com/edgescheduling/util/TaskGraphGenerator.java:24-34 | the loop keeps the nodes linked both ways and every link forward, and counts exactly the links it added, never more than requested; its links are `EdgeLoop` of its draws after `fuel` attempts |
| TaskGraphGeneration.TaskGraphGenerator.LinkIfNew | src/main/java/com/edgescheduling/util/TaskGraphGenerator.java:29-32 | the drawn pair is linked, and counted, exactly when it goes forward and is not linked yet; the links stay two-way and forward |
| TaskGraphGeneration.TaskGraphGenerator.Attempt | src/main/java/com/edgescheduling/util/TaskGraphGenerator.java:26-33 | one attempt draws the next pair and turns the links of `k` attempts into those of `k + 1`, keeping them two-way and forward |
| TaskGraphGeneration.TaskGraphGenerator.DrawPair | src/main/java/com/edgescheduling/util/TaskGraphGenerator.java:26-27 | `from` and `to` are `nextInt(numTasks)` of the next two draws, in that order |
| TaskGraphGeneration.EdgeLoopStep | src/main/java/com/edgescheduling/util/TaskGraphGenerator.java:25-33 | with fewer than `numEdges` links, an attempt adds the pair it draws exactly when it goes forward; a pair already linked adds nothing |
| TaskGraphGeneration.EdgeLoopSaturated | src/main/java/com/edgescheduling/util/TaskGraphGenerator.java:25 | once `numEdges` links exist the loop stops, so further attempts change nothing |
| TaskGraphGeneration.EdgeLoopForward | src/main/java/com/edgescheduling/util/TaskGraphGenerator.java:25-34 | after any number of attempts the links are forward pairs of nodes, never more than `numEdges`, and every attempt keeps the earlier links |
| TaskGraphGeneration.TaskGraphGenerator.DrawNode | src/main/java/com/edgescheduling/util/TaskGraphGenerator.java:18-20 | one turn builds a fresh unlinked node from the next two draws |
| TaskGraphGeneration.LinkForward | src/main/java/com/edgescheduling/util/TaskGraphGenerator.java:30-32 | linking a forward pair not yet linked adds exactly that pair to the edges and keeps the graph linked and forward |
| TaskGraphGeneration.ForwardLinks | src/main/java/com/edgescheduling/util/TaskGraphGenerator.java:30 | in a generated graph a dependency always has a lower index than its dependant |
| TaskGraphGeneration.IsolatedNodes | src/main/java/com/edgescheduling/util/TaskGraphGenerator.java:17-21 | fresh nodes are trivially linked, forward and edgeless |
| TaskGraphGeneration.ForwardPairsBound | src/main/java/com/edgescheduling/util/TaskGraphGenerator.java:25-34 | there are at most `n(n-1)/2` forward pairs, so a request for more edges can never be met |
| TaskGraphGeneration.Heights | src/main/java/com/edgescheduling/util/TaskGraphGenerator.java:30 | every node gets the height `n - id` |
| TaskGraphGeneration.GeneratedIsRanked | src/main/java/com/edgescheduling/algorithm/CPOPScheduler.java:55-77 | a generated graph is what the CPOP scheduler of this generation takes: its nodes are distinct and every successor of a node is a node of the graph of smaller height, so the rank recursion ends |
| TaskGraphGeneration.DrawnNodeInRange | src/main/java/com/edgescheduling/util/TaskGraphGenerator.java:18-19 | a drawn node has cost in [100, 1000) and data size in [1, 10) |
| EdgeCpopRanks.ExecutionTimes | src/main/java/com/edgescheduling/algorithm/CPOPScheduler.java:61-62 | cell `i` is the task's execution time on device `i`, one cell per device |
| EdgeCpopRanks.AverageExecutionTimePositive | src/main/java/com/edgescheduling/algorithm/CPOPScheduler.java:61-64 | with at least one device, a task of positive cost takes positive time on average |
| EdgeCpopRanks.RowTotalNonNegative | src/main/java/com/edgescheduling/algorithm/CPOPScheduler.java:84-85 | the running total of a row of communication times is not negative for non-negative data |
| EdgeCpopRanks.GridTotalNonNegative | src/main/java/com/edgescheduling/algorithm/CPOPScheduler.java:83-87 | the running total over the rows is not negative for non-negative data |
| EdgeCpopRanks.AverageCommunicationBounds | src/main/java/com/edgescheduling/algorithm/CPOPScheduler.java:79-91 | the average communication time is not negative for non-negative data, and is 0 on a single device, whose only pair is the device with itself |
| EdgeCpopRanks.SuccessorMaxBounds | src/main/java/com/edgescheduling/algorithm/CPOPScheduler.java:66-71 | the running `Math.max` over the successors is at least 0 and every term seen, and is 0 or one of those terms |
| EdgeCpopRanks.UpwardRankIsLargestPath | src/main/java/com/edgescheduling/algorithm/CPOPScheduler.java:55-77 | a task's rank is its average execution time plus the largest successor term: at least that time and every successor's communication time plus rank, and equal to the time alone or to one of those sums; a task without successors has just its time |
| EdgeCpopRanks.RankDominates | src/main/java/com/edgescheduling/algorithm/CPOPScheduler.java:55-77 | with a device, a positive cost and non-negative data, a task outranks each of its successors |
| EdgeCpopPlacement.DataReadyTimeIsLatestArrival | src/main/java/com/edgescheduling/algorithm/CPOPScheduler.java:117-134 | the data-ready time is the latest arrival of a dependency's output: never negative, no earlier than any arrival, and 0 or one of them |
| EdgeCpopPlacement.RecordedFrame | src/main/java/com/edgescheduling/algorithm/CPOPScheduler.java:93-115 | recording another task's slot keeps a recorded task as it was |
| EdgeCpopPlacement.RunOrderAppend | src/main/java/com/edgescheduling/model/EdgeDevice.java:38-44 | recording a task on a device from no earlier than the device is free extends the device's run order by that task |
| EdgeCpopPlacement.RunOrderFrame | src/main/java/com/edgescheduling/model/EdgeDevice.java:38-44 | recording a task on another device leaves a device's run order as it was |
| EdgeCpopPlacement.WaitsRecorded | src/main/java/com/edgescheduling/algorithm/CPOPScheduler.java:117-134 | a task that waits for the data of its recorded dependencies still does once its own slot is recorded |
| EdgeCpopPlacement.RunOrders | src/main/java/com/edgescheduling/model/EdgeDevice.java:46 | cell `w` is device `w`'s task list |
| EdgeCpopPlacement.FreeTimes | src/main/java/com/edgescheduling/model/EdgeDevice.java:50 | cell `w` is device `w`'s available time |
| EdgeCpopPlacement.RecordPlacement | src/main/java/com/edgescheduling/algorithm/CPOPScheduler.java:111-114 | one placement of the loop keeps every recorded task recorded, records the new one, extends its device's run order and leaves the other devices' run orders alone |
| EdgeCpopPlacement.SlotsGivePlacement | src/main/java/com/edgescheduling/algorithm/CPOPScheduler.java:93-134 | recorded slots that the fields hold give a placed task that waits for its dependencies' data |
| EdgeCpopPlacement.RunOrderGivesTimeline | src/main/java/com/edgescheduling/model/EdgeDevice.java:38-44 | a run order over slots that the fields hold is the device's timeline: its own tasks, none twice, one after another, free from the end of the last |
| EdgeCpopPlacement.PlacementComplete | src/main/java/com/edgescheduling/algorithm/CPOPScheduler.java:39-41 | once the loop has recorded every task (none when there is no device), each task is placed and waits for its data, each device runs its tasks one after another, and every task on a device is one of the sorted tasks |
| EdgeCpopPlacement.SortByKeyOrdersPriorities | src/main/java/com/edgescheduling/algorithm/CPOPScheduler.java:35-36 | sorting distinct tasks on their priority keeps each task exactly once and puts larger priorities first |
| EdgeCpopPlacement.EmptyPlan | src/main/java/com/edgescheduling/algorithm/CPOPScheduler.java:25-29 | the greedy reference starts with nothing placed and every device free from 0 |
| EdgeCpopPlacement.BestDevice | src/main/java/com/edgescheduling/algorithm/CPOPScheduler.java:98-109 | the device the `<` scan ends on is one of the devices scanned |
| EdgeCpopPlacement.BestDeviceIsFirstEarliest | src/main/java/com/edgescheduling/algorithm/CPOPScheduler.java:98-109 | the scan ends on a device where the task finishes no later than on any other, and strictly earlier than on every device before it |
| EdgeCpopPlacement.GreedyStepPlaces | src/main/java/com/edgescheduling/algorithm/CPOPScheduler.java:93-115 | one turn of the greedy reference gives the task a slot on the first earliest-finishing device, from when it could start there to when it would finish; only that device's free time moves, to the finish, and no other slot changes |
| EdgeCpopPlacement.DataReadyFromSlots | src/main/java/com/edgescheduling/algorithm/CPOPScheduler.java:117-134 | over dependencies whose fields hold their recorded slots, the data-ready time computed from the fields equals the one computed from the slots |
| EdgeCpopPlacement.ChoiceFollowsPlan | src/main/java/com/edgescheduling/algorithm/CPOPScheduler.java:93-115 | when the devices' free times and the dependencies' fields agree with a plan, the start time on each device is the plan's, and the first earliest finisher is the plan's `BestDevice` |
| EdgeCpopPlacement.DependenciesRecorded | src/main/java/com/edgescheduling/algorithm/CPOPScheduler.java:117-134 | in a topological order, the next task finds every dependency recorded, on a device, with its fields holding its slot |
| EdgeCpopPlacement.PrioritiesHold | src/main/java/com/edgescheduling/algorithm/CPOPScheduler.java:35-36 | the comparator's key gives every task its own priority |
| EdgeCpopRanks.UpwardRanksKept | src/main/java/com/edgescheduling/algorithm/CPOPScheduler.java:55-77 | a rank depends only on the successor lists and the delays: while those stay, every rank stays |
| EdgeCpopPlacement.RankOrderIsTopological | src/main/java/com/edgescheduling/algorithm/CPOPScheduler.java:31-36 | with a device, positive costs and non-negative data, every task ranked and the tasks sorted by rank, largest first, every dependency comes before its dependants |
| EdgeCpopPlacement.Outcomes | src/main/java/com/edgescheduling/algorithm/CPOPScheduler.java:136-181 | outcome `i` holds task `i`'s id, device, start and finish |
| EdgeCpopPlacement.DeviceEnergyNonNegative | src/main/java/com/edgescheduling/algorithm/CPOPScheduler.java:144-146 | a device whose power lies between a non-negative idle and a peak reports no negative energy for tasks of non-negative cost |
| EdgeCpopPlacement.EnergyOverNonNegative | src/main/java/com/edgescheduling/algorithm/CPOPScheduler.java:142-147 | the total energy of devices with a power range from a non-negative idle, running tasks of non-negative cost, is not negative |
| EdgeResults.FinishTimes | src/main/java/com/edgescheduling/algorithm/CPOPScheduler.java:137-138 | cell `i` is task `i`'s finish time |
| EdgeResults.MakespanIsLatestFinish | src/main/java/com/edgescheduling/algorithm/CPOPScheduler.java:137-140 | the makespan is the latest finish: no task finishes later, some task finishes exactly then, and with no tasks it is 0 |
| EdgeResults.MetCount | src/main/java/com/edgescheduling/algorithm/CPOPScheduler.java:156-160 | no more tasks meet their deadline than there are tasks |
| EdgeResults.AllMetIffFullCount | src/main/java/com/edgescheduling/algorithm/CPOPScheduler.java:156-160 | every task meets its deadline `(id + 1) * 15` exactly when the count of those that do is the number of tasks |
| EdgeResults.DeadlineSatisfactionBounds | src/main/java/com/edgescheduling/algorithm/CPOPScheduler.java:156-162 | the deadline share lies in [0, 1] and is 1 exactly when there are tasks and every one meets its deadline |
| EdgeResults.QuotientAtMostOne | src/main/java/com/edgescheduling/algorithm/CPOPScheduler.java:161 | a count over a larger positive total is a share in [0, 1], equal to 1 only when the two agree |
| EdgeResults.DeviceLoads | src/main/java/com/edgescheduling/algorithm/CPOPScheduler.java:165-170 | there is one load per device |
| EdgeResults.DeviceLoadsStep | src/main/java/com/edgescheduling/algorithm/CPOPScheduler.java:166-170 | one more task adds its run time to its device's cell when it has a device, and changes nothing otherwise |
| EdgeResults.DeviceLoadsAreRunTimes | src/main/java/com/edgescheduling/algorithm/CPOPScheduler.java:165-170 | each device's cell holds the sum of the run times of the tasks on it |
| EdgeResults.SquaredDeviations | src/main/java/com/edgescheduling/algorithm/CPOPScheduler.java:173-174 | cell `i` is the squared deviation of load `i` from the mean |
| EdgeResults.VarianceNonNegative | src/main/java/com/edgescheduling/algorithm/CPOPScheduler.java:173-176 | the load variance is never negative |
| EdgeResults.LoadBalancingBounds | src/main/java/com/edgescheduling/algorithm/CPOPScheduler.java:178 | the balancing factor lies in (0, 1], and is 1 when the average load is not positive |
| EdgeResults.ReciprocalBounds | src/main/java/com/edgescheduling/algorithm/CPOPScheduler.java:178 | the reciprocal of a number at least 1 lies in (0, 1] |
| EdgeResults.QosBounds | src/main/java/com/edgescheduling/algorithm/CPOPScheduler.java:154-181 | the QoS score lies in [0, 1], and is 1 exactly when there are tasks, every one meets its deadline and the balancing factor is 1 |
| EdgeCpop.CpopScheduler.PlacementKept | src/main/java/com/edgescheduling/algorithm/CPOPScheduler.java:136-152 | computing the results changes no task, device or delay, so every task stays placed and waiting for its data, or reset without devices |
| EdgeCpop.CpopScheduler.TimelinesKept | src/main/java/com/edgescheduling/algorithm/CPOPScheduler.java:136-152 | computing the results keeps every device's timeline and its tasks among the scheduled ones |
| EdgeCpop.CpopScheduler.constructor | src/main/java/com/edgescheduling/algorithm/CPOPScheduler.java:12-14 | the scheduler holds the environment it is given |
| EdgeCpop.CpopScheduler.Schedule | src/main/java/com/edgescheduling/algorithm/CPOPScheduler.java:16-45 | every task gets its upward rank as priority; `order` is the stable descending sort of the tasks on those priorities; with no device every task stays reset; otherwise every task holds exactly the slot the greedy reference `GreedySlots` gives it when it places `order` task by task on the first device where each finishes earliest, starts only once every dependency's data has arrived, and each device runs its tasks one after another; the result holds the latest finish, the energy the devices report (not negative) and the QoS score (in [0, 1]) |
| EdgeCpop.CpopScheduler.Prepare | src/main/java/com/edgescheduling/algorithm/CPOPScheduler.java:17-36 | every task is reset and ranked and every device idle; the result is `SortDesc(tasks, key)`, the stable descending sort on a key that is each task's priority, so each task appears exactly once, larger ranks first; with a device that order puts every dependency first |
| EdgeCpop.CpopScheduler.PlaceAndReport | src/main/java/com/edgescheduling/algorithm/CPOPScheduler.java:38-44 | placing the sorted tasks leaves each one in the slot the greedy reference over that order gives it (with a device), placed, waiting for its data, listed on its device, or reset (no device); the results are the latest finish, the reported energy and the QoS score; ranks, links and delays stay as they were |
| EdgeCpop.CpopScheduler.Report | src/main/java/com/edgescheduling/algorithm/CPOPScheduler.java:44 | the results of placed tasks, leaving them placed |
| EdgeCpop.CpopScheduler.PlaceTasks | src/main/java/com/edgescheduling/algorithm/CPOPScheduler.java:38-41 | after the placement loop over the sorted tasks every task holds the slot the greedy reference over that order gives it, is placed, waits for its data and is listed on its device (with a device), or stays reset (no device); each device's timeline is in order and lists only tasks of the graph |
| EdgeCpop.CpopScheduler.SortByRank | src/main/java/com/edgescheduling/algorithm/CPOPScheduler.java:34-36 | the result is `SortDesc(tasks, key)` for a key that is each task's rank: each task exactly once, larger ranks first, equal ranks in list order, and, with a device, every dependency before its dependants |
| EdgeCpop.CpopScheduler.SortByPriority | src/main/java/com/edgescheduling/algorithm/CPOPScheduler.java:35-36 | the result is `SortDesc(tasks, key)`, the stable descending sort on a key that is each task's priority: each task exactly once, larger priorities first |
| EdgeCpop.CpopScheduler.ResetTasks | src/main/java/com/edgescheduling/algorithm/CPOPScheduler.java:17-23 | every task is unscheduled, on device -1, with both times 0, and nothing else changes |
| EdgeCpop.CpopScheduler.ResetDevices | src/main/java/com/edgescheduling/algorithm/CPOPScheduler.java:25-29 | every device is free from 0 with no tasks, and nothing else changes |
| EdgeCpop.CpopScheduler.CalculateUpwardRank | src/main/java/com/edgescheduling/algorithm/CPOPScheduler.java:47-53 | every task's priority becomes its upward rank and the devices are untouched |
| EdgeCpop.CpopScheduler.CalculateUpwardRankRecursive | src/main/java/com/edgescheduling/algorithm/CPOPScheduler.java:55-77 | the value returned is the task's upward rank; the cache keeps holding ranks, which are also the tasks' priorities, and gains the task |
| EdgeCpop.CpopScheduler.MaxSuccessorRank | src/main/java/com/edgescheduling/algorithm/CPOPScheduler.java:66-71 | the loop returns the largest `communication time + rank` over the successors, seeded with 0, and the cache stays right |
| EdgeCpop.CpopScheduler.SuccessorStep | src/main/java/com/edgescheduling/algorithm/CPOPScheduler.java:67-71 | one turn joins successor `k`'s term to the running maximum |
| EdgeCpop.CpopScheduler.CalculateAverageCommunicationTime | src/main/java/com/edgescheduling/algorithm/CPOPScheduler.java:79-91 | the result is the mean communication time of the sender's data over every ordered pair of devices, 0 with no devices |
| EdgeCpop.CpopScheduler.AddRow | src/main/java/com/edgescheduling/algorithm/CPOPScheduler.java:84-89 | one row of the double loop adds the communication times from device `i` to every device and counts one per device |
| EdgeCpop.CpopScheduler.ScheduleTask | src/main/java/com/edgescheduling/algorithm/CPOPScheduler.java:93-115 | no device is chosen exactly when there are none, and then the task is untouched; otherwise the task is put on the first device on which it finishes earliest, from when it could start there, and marked scheduled, so it waits for its dependencies' data; nothing else changes |
| EdgeCpop.CpopScheduler.ChooseDevice | src/main/java/com/edgescheduling/algorithm/CPOPScheduler.java:94-109 | the device chosen is the first on which the task would finish earliest (none exactly when there are no devices), with the time it could start there |
| EdgeCpop.CpopScheduler.ConsiderDevice | src/main/java/com/edgescheduling/algorithm/CPOPScheduler.java:98-108 | one turn keeps the first device with the earliest finish among those seen so far, with its start time |
| EdgeCpop.CpopScheduler.CalculateDataReadyTime | src/main/java/com/edgescheduling/algorithm/CPOPScheduler.java:117-134 | the result is the latest arrival of a dependency's output on the device, 0 with none |
| EdgeCpop.CpopScheduler.CalculateResults | src/main/java/com/edgescheduling/algorithm/CPOPScheduler.java:136-152 | the makespan, the energy the devices report for their tasks, and the QoS score, which lies in [0, 1] |
| EdgeCpop.CpopScheduler.TotalEnergyConsumption | src/main/java/com/edgescheduling/algorithm/CPOPScheduler.java:142-147 | the total is the energy of every task on every device, device by device |
| EdgeCpop.CpopScheduler.CalculateQos | src/main/java/com/edgescheduling/algorithm/CPOPScheduler.java:154-181 | the score is `0.7 *` the deadline share `+ 0.3 *` the balancing factor of the loads |
| EdgeCpop.CpopScheduler.LoadPerDevice | src/main/java/com/edgescheduling/algorithm/CPOPScheduler.java:165-170 | the loads are each device's summed run times, task by task |
| EdgeCpop.CpopScheduler.AddRunTime | src/main/java/com/edgescheduling/algorithm/CPOPScheduler.java:165-170 | one task adds its run time to its own device's load, and nothing when it has no device |
| EdgeCpop.CpopScheduler.PlaceAll | src/main/java/com/edgescheduling/algorithm/CPOPScheduler.java:38-41 | with no device every task stays reset; otherwise every task holds exactly the slot `GreedySlots` gives it over the sorted order, is placed and waits for its dependencies' data; each device runs its tasks one after another, and only sorted tasks are on devices |
| EdgeCpop.CpopScheduler.PlaceEach | src/main/java/com/edgescheduling/algorithm/CPOPScheduler.java:38-41 | the record of the loop is exactly `GreedySlots` over the sorted order and the devices' free times are the greedy plan's; every task is placed when there is a device and none otherwise, and each device's list is its run order |
| EdgeCpop.CpopScheduler.PlaceNext | src/main/java/com/edgescheduling/algorithm/CPOPScheduler.java:39-41 | one turn takes the loop from the greedy plan after `k` tasks to the one after `k + 1`: task `k` gets the greedy step's slot on the first earliest-finishing device, and what was recorded before is kept |
| EdgeCpop.CpopScheduler.PlacementCovers | src/main/java/com/edgescheduling/algorithm/CPOPScheduler.java:38-41 | what the loop established for every task of the sorted list (reset, or placed, waiting, listed on its device and in its greedy slot) holds for every task of the graph, and the devices list only graph tasks |

## Left out

- Randomness: `java.util.Random` (DAGGenerator, EdgeEnvironment, TaskGraphGenerator) and `ThreadLocalRandom` (PSOScheduler) are a caller-supplied stream of raw draws (`JavaRandom.Random`, a `nat -> nat` stream with a cursor). `nextInt(bound)` is the draw modulo `bound` and `nextDouble()` a 53-bit fraction in `[0, 1)`. The 48-bit linear congruential generator itself, and so the exact values a given seed produces, are not modelled. Properties hold for every stream.
- Floating point: every `double` is a `real`. Rounding, overflow to infinity and NaN are not modelled. `Double.MAX_VALUE` and `Double.NEGATIVE_INFINITY` used as "nothing yet" sentinels, and `null` best candidates, are `Option`'s `None`.
- `Math.sqrt` is the parameter `sqrt`, constrained by `PsoFitness.IsSqrt` (non-negative root, `sqrt(0) = 0`). `Math.floor` and `Math.pow(x, 2)` are written out.
- `Task.cloudlet` and `setCloudlet` (model/Task.java:41) are dropped: they hold a CloudSim object the engine never reads.
- Integer widths: task ids, counters and indices are unbounded. `Task.hashCode` is the one place the 32-bit wrap-around is modelled (`CloudTask.WrapInt32`). The `int count` of `calculateAverageCommunicationTime` (algorithm/CPOPScheduler.java:81-86) would overflow past 46340 devices, and `numEdges * 10` (model/DAGGenerator.java:41) past 2^31 / 10. Neither is modelled.
- PsoSwarm.Inertia: requires `maxIterations >= 2`. With `maxIterations == 1` the source divides 0 by 0 at algorithms/PSOScheduler.java:145 and gets NaN, which reals cannot represent. `PsoScheduler.Schedule` therefore requires `maxIterations != 1` for a non-empty graph; with 0 iterations the loop never runs and the requirement is not needed.
- PsoScheduling.PsoScheduler.Schedule: for a non-empty graph requires `swarmSize > 0` and at least one VM, besides the `maxIterations != 1` above. With an empty swarm, `swarm.get(0)` at algorithms/PSOScheduler.java:198 throws `IndexOutOfBoundsException`. With no VMs, the heuristic seeding calls `availableVMs.get(0)` at algorithms/PSOScheduler.java:220 and :240-241, and the decoding clamps every index to 0 at :265 and then calls `availableVMs.get(0)` at :266; both throw `IndexOutOfBoundsException`. The model excludes these exceptions instead of modelling them.
- CpopScheduling.CpopScheduler.Schedule: requires `PlanSetting` (cpop_placement.dfy:398-402), which requires more than the source checks. First, at least one VM whenever the graph has a task. With no VMs the source computes `0.0 / 0`, which is NaN, at algorithms/CPOPScheduler.java:243, and then throws `IndexOutOfBoundsException` at `availableVMs.get(0)` (:169). Second, every VM speed positive (`ValidVms`). Third, through `WellFormed` and `Consistent` (dag.dfy:25-30), every task length positive and every output size non-negative, and no edge stored twice. The source schedules a task of length 0 like any other. The model excludes such tasks because its rank lemmas use positive lengths: `CpopRanks.UpwardRankProperties` shows that a rank strictly exceeds each successor's. The graph generator only makes lengths from 100 up (model/DAGGenerator.java:28).
- DagGeneration.DagGenerator.GenerateDag: requires `numTasks > 0 || numEdges == 0` (dag_generator.dfy:274). With no tasks and edges requested, `random.nextInt(0)` at model/DAGGenerator.java:44 throws `IllegalArgumentException`; the model excludes that call instead of modelling the exception. Negative `int` arguments (no tasks or no attempts, or again an exception from `nextInt`) are excluded by typing both counts `nat`.
- TaskGraphGeneration.TaskGraphGenerator.GenerateDag: takes a `fuel` bound on the edge loop, which has no attempt bound in util/TaskGraphGenerator.java:25-34. The loop never ends when `numEdges > n(n-1)/2`. The model states that a run that finishes has exactly `numEdges` links and that this needs `numEdges <= n(n-1)/2`. A run cut off by fuel has spent all its fuel. It also requires `numTasks > 0 || numEdges == 0`, for the same `nextInt(0)` exception at util/TaskGraphGenerator.java:26-27.
- Each scheduler models one `schedule` call on the state its constructor (PSO) or its reset (hand-rolled CPOP) leaves. `getTaskStartTime`, `getTaskFinishTime` and `getConvergenceHistory` only return views of fields the model exposes directly.
- Topological order: JGraphT's `TopologicalOrderIterator` is an input `topo` with the property `IsTopologicalOrder`. The model proves everything for any such order, not for the particular one JGraphT yields. `vertexSet()` is taken to iterate in id order and `incomingEdgesOf`/`outgoingEdgesOf` in edge insertion order, as the generator builds them.
- VMs and CloudSim: a `Vm` is its speed (`mips`), and VMs are identified by their position in the list. A Java `Map<Vm, ...>` is a sequence indexed by that position. Nothing else of CloudSim is modelled.
- EdgeCpop.CpopScheduler.Schedule: requires an acyclic successor graph. This is given as a ghost `height` map that decreases along every successor (`EdgeCpopRanks.Ranked`); the source's recursion would overflow the stack on a cycle. It also requires distinct nodes with mirrored dependency/successor lists (`Linked`), as `TaskNode.addDependency` builds them. It requires every data size to be non-negative, whether or not there is a device, and, with at least one device, every computation cost to be positive. Without those, sorting by rank need not put a dependency first, and `getCommunicationTime` would index the delay matrix with device -1 and throw. The model excludes that exception rather than modelling it.
- EdgeCpop.CpopScheduler.CalculateUpwardRankRecursive: the `HashMap` rank cache is a value map passed in and handed back rather than a shared mutable object.
- EdgeCpop.CpopScheduler.LoadPerDevice: the `double[] deviceLoads` array is a local `seq<real>` that the loop reassigns.
- EdgeCpop.CpopScheduler.ScheduleTask: the returned device choice and the `placed` record of `PlaceNext` are ghost bookkeeping for the proof; the method changes exactly the fields the source changes.
- EdgeTasks.TaskNode.AddDependency: takes a ghost list `nodes` of the graph's nodes to state that the mirrored-link invariant `Linked(nodes)` is kept.
- EdgeDevices: devices have `mips > 0` and `cores > 0`, as every device the environment draws has. The execution time and energy require them instead of modelling a division by zero.
- EdgeEnvironments.EdgeEnvironment.GetDevice: requires `0 <= id < |devices|`, where `List.get` would throw `IndexOutOfBoundsException`. EdgeEnvironment.CommunicationTime likewise requires both devices in range when they differ. The constructor's `numDevices` is a `nat`; a negative count would throw `NegativeArraySizeException` at environment/EdgeEnvironment.java:15.
- PSO particles are `Particle` values and the swarm is a `seq<Particle>` field. Java updates particle arrays in place. No aliasing is observable: the global best is always a `copy()`, and no particle is shared. The in-place updates are modelled by replacing the particle.
- I/O: `printEnvironmentInfo`, `printDAGStatistics` and the `toString` methods only print or format text and are not modelled. The simulation driver, metrics and visualisation files are outside the engine.

## Findings

| source | as written | input that shows it | evidently intended | confidence | as-written member | corrected member |
|---|---|---|---|---|---|---|
| src/main/java/com/edgescheduling/algorithms/CPOPScheduler.java:173-191 | `scheduleCriticalPath` places every critical-path task before any other task, at `max(currentTime, calculateEarliestStartTime)`. `calculateEarliestStartTime` skips predecessors that are not placed yet (:278), so a path task can start before an off-path predecessor finishes. The downward rank includes the task's own cost (:95-96), so the path can start mid-graph. | Two tasks, edge 0 -> 1, one VM of speed 1, `length(0) < length(1)`, `outputSize(0) = 0`. The priorities make task 1 alone the critical path; it is placed at time 0, before task 0, which then runs after it. | Every task starts only after the output of each of its predecessors has arrived, as the schedule's precedence invariant states: tasks placed in topological order, the critical path pinned to the critical processor. | not executed | CpopPlacement.PathTaskCanPrecedeItsPredecessor | CpopPlacement.CorrectedCpopPlanRespectsEdges |
| src/main/java/com/edgescheduling/algorithms/PSOScheduler.java:101-106 | `maxPossibleEnergy` prices the whole work at the fastest VM, which spends the least energy per instruction. That makes it a lower bound of every mapping's energy, not a maximum, and the normalised energy term is at least 1 and can exceed 1. | Any graph with a task of positive length mapped to a VM slower than the fastest one, e.g. two VMs of speeds 1000 and 2000 with the task on the first. | A worst-case energy that bounds every mapping from above, so that the normalised term lies in (0, 1] like the makespan term: the whole work priced at the slowest VM. | not executed | PsoFitness.EnergyCanExceedNormaliser | PsoFitness.EnergyAtMostCorrectedNormaliser |

The scheduler classes `CpopScheduling.CpopScheduler` and `PsoScheduling.PsoScheduler` model the code as written. The corrected definitions (`CpopPlacement.CorrectedCpopPlan`, `PsoFitness.CorrectedEnergyNormaliser`) stand beside them with the intended property proved. Proved about the as-written code: `CpopPlacement.CpopPlanRespectsEdges` shows that the CPOP plan respects every edge whose target is off the critical path or whose source is on it too; `PsoFitness.EnergyAtLeastNormaliser` shows that `maxPossibleEnergy` is a lower bound of the energy, so the PSO fitness is at least the energy weight 0.2.
