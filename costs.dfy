/** The cost helpers of algorithms/CPOPScheduler.java, which PSOScheduler.java writes
    out inline with the same formulas: execution time is `length / mips`, and moving a
    task's output costs `outputSize / 1e6` seconds unless both ends run on the same VM. */
module Costs {
  import opened Folds
  import opened CloudTask
  import opened Dags

  /** The fixed bandwidth of `calculateAverageCommunicationCost`. */
  const Bandwidth: real := 1000000.0

  function ExecutionTime(t: Task, vm: Vm): (r: real)
    requires vm.mips > 0.0
    ensures t.length > 0 ==> r > 0.0
  {
    t.length as real / vm.mips
  }

  /** The communication cost used by both ranks: it ignores placement. */
  function AverageCommunicationCost(source: Task): (r: real)
    ensures source.outputSize >= 0 ==> r >= 0.0
  {
    source.outputSize as real / Bandwidth
  }

  /** The communication cost once both VMs are known. */
  function CommunicationCost(source: Task, sourceVm: nat, targetVm: nat): real
  {
    if sourceVm == targetVm then 0.0 else AverageCommunicationCost(source)
  }

  /** The execution time of `t` on each VM, in list order. */
  function ExecutionTimes(t: Task, vms: seq<Vm>): (r: seq<real>)
    requires ValidVms(vms)
    ensures |r| == |vms| && forall v :: 0 <= v < |vms| ==> r[v] == ExecutionTime(t, vms[v])
  {
    seq(|vms|, v requires 0 <= v < |vms| => ExecutionTime(t, vms[v]))
  }

  /** `calculateAverageComputationCost`: the mean execution time over all VMs. */
  function AverageComputationCost(t: Task, vms: seq<Vm>): real
    requires ValidVms(vms) && |vms| > 0
  {
    Sum(ExecutionTimes(t, vms)) / |vms| as real
  }

  lemma {:induction false} SumOfPositives(xs: seq<real>)
    requires |xs| > 0 && forall i :: 0 <= i < |xs| ==> xs[i] > 0.0
    ensures Sum(xs) > 0.0
    decreases |xs|
  {
    if |xs| > 1 {
      SumOfPositives(xs[..|xs| - 1]);
    } else {
      assert Sum(xs[..0]) == 0.0 by { assert xs[..0] == []; }
    }
  }

  /** A task of positive length has a positive average computation cost. */
  lemma AverageComputationCostPositive(t: Task, vms: seq<Vm>)
    requires ValidVms(vms) && |vms| > 0 && t.length > 0
    ensures AverageComputationCost(t, vms) > 0.0
  {
    SumOfPositives(ExecutionTimes(t, vms));
  }

  /** With a single VM the average is that VM's execution time. */
  lemma SingleVmAverage(t: Task, vm: Vm)
    requires vm.mips > 0.0
    ensures AverageComputationCost(t, [vm]) == ExecutionTime(t, vm)
  {
    var xs := ExecutionTimes(t, [vm]);
    assert xs[..0] == [];
    assert Sum(xs) == xs[0];
  }
}
