/** The upward rank that `calculateUpwardRank` of algorithm/CPOPScheduler.java gives
    every task: its average execution time over the devices plus the largest
    `average communication time + rank` over its successors (0 with none). The
    average communication time of a task is the mean of `getCommunicationTime(i, j,
    dataSize)` over every ordered pair of devices, the diagonal included. The rank
    recursion ends because the graph is acyclic; here that is a height for every node
    that drops from a node to each successor. */
module EdgeCpopRanks {
  import opened Folds
  import opened EdgeTasks
  import opened EdgeDevices
  import opened EdgeEnvironments
  import Costs

  /** The execution time of `task` on each device, in device order. */
  function ExecutionTimes(env: EdgeEnvironment, task: TaskNode): (r: seq<real>)
    requires env.Shape()
    ensures |r| == |env.devices|
    ensures forall i :: 0 <= i < |r| ==> r[i] == env.devices[i].ExecutionTime(task)
  {
    seq(|env.devices|, i requires 0 <= i < |env.devices| => env.devices[i].ExecutionTime(task))
  }

  /** `mapToDouble(calculateExecutionTime).average().orElse(0.0)`. */
  function AverageExecutionTime(env: EdgeEnvironment, task: TaskNode): real
    requires env.Shape()
  {
    var n := |env.devices|;
    if n == 0 then 0.0 else Sum(ExecutionTimes(env, task)) / n as real
  }

  /** On at least one device, a task of positive cost takes positive time on average. */
  lemma AverageExecutionTimePositive(env: EdgeEnvironment, task: TaskNode)
    requires env.Shape() && |env.devices| > 0 && task.computationCost > 0.0
    ensures AverageExecutionTime(env, task) > 0.0
  {
    Costs.SumOfPositives(ExecutionTimes(env, task));
  }

  /** The running total of the communication times over the first `j` cells of row
      `i`. */
  function RowTotal(env: EdgeEnvironment, i: nat, j: nat, dataSize: real): real
    requires env.Shape() && i < |env.devices| && j <= |env.devices|
    reads env.communicationMatrix
    decreases j
  {
    if j == 0 then 0.0
    else RowTotal(env, i, j - 1, dataSize) + env.CommunicationTime(i, j - 1, dataSize)
  }

  /** The running total over the first `i` rows. */
  function GridTotal(env: EdgeEnvironment, i: nat, dataSize: real): real
    requires env.Shape() && i <= |env.devices|
    reads env.communicationMatrix
    decreases i
  {
    if i == 0 then 0.0
    else GridTotal(env, i - 1, dataSize) + RowTotal(env, i - 1, |env.devices|, dataSize)
  }

  /** `calculateAverageCommunicationTime`: the total over all `n * n` ordered pairs
      divided by their number, or 0 with no devices. */
  function AverageCommunication(env: EdgeEnvironment, dataSize: real): real
    requires env.Shape()
    reads env.communicationMatrix
  {
    var n := |env.devices|;
    if n == 0 then 0.0 else GridTotal(env, n, dataSize) / (n * n) as real
  }

  lemma {:induction false} RowTotalNonNegative(env: EdgeEnvironment, i: nat, j: nat, dataSize: real)
    requires env.Valid() && i < |env.devices| && j <= |env.devices| && dataSize >= 0.0
    ensures RowTotal(env, i, j, dataSize) >= 0.0
    decreases j
  {
    if j > 0 {
      RowTotalNonNegative(env, i, j - 1, dataSize);
    }
  }

  lemma {:induction false} GridTotalNonNegative(env: EdgeEnvironment, i: nat, dataSize: real)
    requires env.Valid() && i <= |env.devices| && dataSize >= 0.0
    ensures GridTotal(env, i, dataSize) >= 0.0
    decreases i
  {
    if i > 0 {
      GridTotalNonNegative(env, i - 1, dataSize);
      RowTotalNonNegative(env, i - 1, |env.devices|, dataSize);
    }
  }

  /** Non-negative data takes non-negative time on average, and on a single device,
      where the only pair is the device with itself, it takes none. */
  lemma AverageCommunicationBounds(env: EdgeEnvironment, dataSize: real)
    requires env.Valid() && dataSize >= 0.0
    ensures AverageCommunication(env, dataSize) >= 0.0
    ensures |env.devices| == 1 ==> AverageCommunication(env, dataSize) == 0.0
  {
    var n := |env.devices|;
    if n > 0 {
      GridTotalNonNegative(env, n, dataSize);
      assert (n * n) as real > 0.0;
    }
    if n == 1 {
      assert RowTotal(env, 0, 1, dataSize) == 0.0 by {
        assert RowTotal(env, 0, 0, dataSize) == 0.0;
      }
      assert GridTotal(env, 1, dataSize) == GridTotal(env, 0, dataSize) + RowTotal(env, 0, 1, dataSize);
    }
  }

  /** Every node of `tasks` has a height, and every successor of a node is in `tasks`
      and lower: the successor graph has no cycle. */
  ghost predicate Ranked(tasks: seq<TaskNode>, height: map<TaskNode, nat>)
    reads tasks`successors
  {
    forall t :: t in tasks ==>
      t in height &&
      forall s :: s in t.successors ==> s in tasks && s in height && height[s] < height[t]
  }

  /** `calculateUpwardRankRecursive`: average execution time plus the largest
      successor term. */
  ghost function UpwardRank(env: EdgeEnvironment, tasks: seq<TaskNode>, height: map<TaskNode, nat>, t: TaskNode): real
    requires env.Shape() && Ranked(tasks, height) && t in tasks
    reads tasks`successors, env.communicationMatrix
    decreases height[t], |t.successors| + 1
  {
    AverageExecutionTime(env, t) + SuccessorMax(env, tasks, height, t, |t.successors|)
  }

  /** `maxSuccessorRank` after the first `k` successors: the running
      `Math.max(maxSuccessorRank, avgCommTime + successorRank)`, seeded with 0. */
  ghost function SuccessorMax(env: EdgeEnvironment, tasks: seq<TaskNode>, height: map<TaskNode, nat>, t: TaskNode, k: nat): real
    requires env.Shape() && Ranked(tasks, height) && t in tasks && k <= |t.successors|
    reads tasks`successors, env.communicationMatrix
    decreases height[t], k
  {
    if k == 0 then 0.0
    else
      Max(SuccessorMax(env, tasks, height, t, k - 1),
          AverageCommunication(env, t.dataSize) + UpwardRank(env, tasks, height, t.successors[k - 1]))
  }

  /** The running maximum is at least 0 and every term seen so far, and is 0 or one of
      those terms. */
  lemma {:induction false} SuccessorMaxBounds(env: EdgeEnvironment, tasks: seq<TaskNode>, height: map<TaskNode, nat>, t: TaskNode, k: nat)
    requires env.Shape() && Ranked(tasks, height) && t in tasks && k <= |t.successors|
    ensures 0.0 <= SuccessorMax(env, tasks, height, t, k)
    ensures forall j :: 0 <= j < k ==>
              AverageCommunication(env, t.dataSize) + UpwardRank(env, tasks, height, t.successors[j])
                <= SuccessorMax(env, tasks, height, t, k)
    ensures SuccessorMax(env, tasks, height, t, k) == 0.0 ||
            exists j :: 0 <= j < k &&
              SuccessorMax(env, tasks, height, t, k) ==
                AverageCommunication(env, t.dataSize) + UpwardRank(env, tasks, height, t.successors[j])
    decreases k
  {
    if k > 0 {
      SuccessorMaxBounds(env, tasks, height, t, k - 1);
    }
  }

  /** The rank of a task is its average execution time plus the largest successor term:
      at least the average execution time and every successor's communication time plus
      rank, and equal to the average execution time (a task without successors) or to
      one of those sums. */
  lemma UpwardRankIsLargestPath(env: EdgeEnvironment, tasks: seq<TaskNode>, height: map<TaskNode, nat>, t: TaskNode)
    requires env.Shape() && Ranked(tasks, height) && t in tasks
    ensures AverageExecutionTime(env, t) <= UpwardRank(env, tasks, height, t)
    ensures forall s :: s in t.successors ==>
              AverageExecutionTime(env, t) + AverageCommunication(env, t.dataSize) + UpwardRank(env, tasks, height, s)
                <= UpwardRank(env, tasks, height, t)
    ensures UpwardRank(env, tasks, height, t) == AverageExecutionTime(env, t) ||
            exists s :: s in t.successors &&
              UpwardRank(env, tasks, height, t) ==
                AverageExecutionTime(env, t) + AverageCommunication(env, t.dataSize) + UpwardRank(env, tasks, height, s)
    ensures t.successors == [] ==> UpwardRank(env, tasks, height, t) == AverageExecutionTime(env, t)
  {
    SuccessorMaxBounds(env, tasks, height, t, |t.successors|);
    forall s | s in t.successors
      ensures AverageExecutionTime(env, t) + AverageCommunication(env, t.dataSize) + UpwardRank(env, tasks, height, s)
                <= UpwardRank(env, tasks, height, t)
    {
      var j :| 0 <= j < |t.successors| && t.successors[j] == s;
    }
  }

  /** With at least one device, positive costs and non-negative data sizes, a task
      outranks each of its successors, so sorting by rank puts it first. */
  lemma RankDominates(env: EdgeEnvironment, tasks: seq<TaskNode>, height: map<TaskNode, nat>, t: TaskNode, s: TaskNode)
    requires env.Valid() && Ranked(tasks, height) && t in tasks && s in t.successors
    requires |env.devices| > 0 && t.computationCost > 0.0 && t.dataSize >= 0.0
    ensures UpwardRank(env, tasks, height, s) < UpwardRank(env, tasks, height, t)
  {
    UpwardRankIsLargestPath(env, tasks, height, t);
    AverageExecutionTimePositive(env, t);
    AverageCommunicationBounds(env, t.dataSize);
  }

  /** Ranks depend only on the successor lists and the delay matrix: while those
      stay as they were, so does every rank. */
  twostate lemma UpwardRanksKept(new env: EdgeEnvironment, new tasks: seq<TaskNode>, height: map<TaskNode, nat>)
    requires old(allocated(env)) && old(allocated(tasks)) && env.Shape() && old(Ranked(tasks, height))
    requires unchanged(env.communicationMatrix)
    requires forall t :: t in tasks ==> t.successors == old(t.successors)
    ensures Ranked(tasks, height)
    ensures forall t :: t in tasks ==> UpwardRank(env, tasks, height, t) == old(UpwardRank(env, tasks, height, t))
  {
  }
}
