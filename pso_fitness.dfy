/** The objective algorithms/PSOScheduler.java minimises: a weighted sum of makespan,
    energy and load imbalance, each divided by a normaliser that
    `calculateNormalizationFactors` derives from the graph and the VM speeds.
    `Math.sqrt` is a parameter `sqrt`, of which the model only needs that it returns
    the non-negative root of a non-negative argument. */
module PsoFitness {
  import opened Folds
  import opened CloudTask
  import opened Dags
  import opened Costs
  import opened PsoReplay

  const MakespanWeight: real := 0.7
  const EnergyWeight: real := 0.2
  const BalanceWeight: real := 0.1

  /** `Math.sqrt` on the arguments where it is defined: the non-negative root, and 0 for 0. */
  ghost predicate IsSqrt(sqrt: real -> real)
  {
    && sqrt(0.0) == 0.0
    && forall x :: 0.0 <= x ==> 0.0 <= sqrt(x) && sqrt(x) * sqrt(x) == x
  }

  // ------------------------------------------------------------ normalisers

  /** The summed length of the first `k` tasks (`mapToDouble(Task::getLength).sum()`
      over all of them for `k = |tasks|`). */
  function LengthSum(g: Dag, k: nat): real
    requires k <= |g.tasks|
  {
    if k == 0 then 0.0 else LengthSum(g, k - 1) + g.tasks[k - 1].length as real
  }

  function TotalLength(g: Dag): real
  {
    LengthSum(g, |g.tasks|)
  }

  /** Tasks of positive length have a positive total. */
  lemma {:induction false} LengthSumPositive(g: Dag, k: nat)
    requires WellFormed(g) && 0 < k <= |g.tasks|
    ensures 0.0 < LengthSum(g, k)
  {
    if k > 1 {
      LengthSumPositive(g, k - 1);
    }
  }

  function Speeds(vms: seq<Vm>): (r: seq<real>)
    ensures |r| == |vms| && forall v :: 0 <= v < |vms| ==> r[v] == vms[v].mips
  {
    seq(|vms|, v requires 0 <= v < |vms| => vms[v].mips)
  }

  /** The smallest speed of a non-empty list (`DoubleStream.min`). */
  function SlowestSpeed(vms: seq<Vm>): real
    requires |vms| > 0
    decreases |vms|
  {
    if |vms| == 1 then vms[0].mips
    else
      var rest := SlowestSpeed(vms[..|vms| - 1]);
      if vms[|vms| - 1].mips < rest then vms[|vms| - 1].mips else rest
  }

  lemma {:induction false} SlowestSpeedBounds(vms: seq<Vm>)
    requires |vms| > 0
    ensures forall v :: 0 <= v < |vms| ==> SlowestSpeed(vms) <= vms[v].mips
    ensures exists v :: 0 <= v < |vms| && SlowestSpeed(vms) == vms[v].mips
    decreases |vms|
  {
    var last := |vms| - 1;
    if last == 0 {
      assert SlowestSpeed(vms) == vms[0].mips;
    } else {
      var front := vms[..last];
      SlowestSpeedBounds(front);
      forall v | 0 <= v < |vms| ensures SlowestSpeed(vms) <= vms[v].mips {
        if v < last {
          assert front[v] == vms[v];
        }
      }
      if SlowestSpeed(vms) != vms[last].mips {
        var w :| 0 <= w < |front| && SlowestSpeed(front) == front[w].mips;
        assert front[w] == vms[w];
      }
    }
  }

  /** `min().orElse(1.0)` over the VM speeds. */
  function MinMips(vms: seq<Vm>): real
  {
    if vms == [] then 1.0 else SlowestSpeed(vms)
  }

  /** `max().orElse(1.0)` over the VM speeds. */
  function MaxMips(vms: seq<Vm>): real
  {
    if vms == [] then 1.0 else MaxFrom(vms[0].mips, Speeds(vms))
  }

  /** The least and the largest speed are speeds of the list, below and above all of
      them; without VMs both are 1. */
  lemma SpeedBounds(vms: seq<Vm>)
    ensures vms == [] ==> MinMips(vms) == 1.0 && MaxMips(vms) == 1.0
    ensures forall v :: 0 <= v < |vms| ==> MinMips(vms) <= vms[v].mips <= MaxMips(vms)
    ensures vms != [] ==> exists v :: 0 <= v < |vms| && MinMips(vms) == vms[v].mips
    ensures vms != [] ==> exists v :: 0 <= v < |vms| && MaxMips(vms) == vms[v].mips
  {
    if vms != [] {
      SlowestSpeedBounds(vms);
      var speeds := Speeds(vms);
      MaxFromBounds(vms[0].mips, speeds);
      if MaxMips(vms) != vms[0].mips {
        var v :| 0 <= v < |speeds| && MaxMips(vms) == speeds[v];
        assert MaxMips(vms) == vms[v].mips;
      }
    }
  }

  /** `maxPossibleMakespan`, `maxPossibleEnergy` and `maxPossibleLoadBalance`. */
  datatype Normalisers = Normalisers(makespan: real, energy: real, balance: real)

  /** `Power(vm)`: the draw of a VM in watts, `mips * 0.0001 + 10`. */
  function Power(mips: real): real
  {
    mips * 0.0001 + 10.0
  }

  /** The energy one instruction costs on a VM of speed `mips`: its draw over its speed. */
  function EnergyPerInstruction(mips: real): real
    requires mips > 0.0
  {
    Power(mips) / mips
  }

  /** `calculateNormalizationFactors`: the whole work on the slowest VM, the energy of
      the whole work on the fastest VM, and again the first for the imbalance. */
  function NormalisersOf(g: Dag, vms: seq<Vm>): Normalisers
    requires ValidVms(vms)
  {
    SpeedBounds(vms);
    var total := TotalLength(g);
    var makespan := total / MinMips(vms);
    Normalisers(makespan, (total / MaxMips(vms)) * Power(MaxMips(vms)), makespan)
  }

  /** With at least one task the three normalisers are positive, so the fitness never
      divides by zero. */
  lemma NormalisersPositive(g: Dag, vms: seq<Vm>)
    requires WellFormed(g) && ValidVms(vms) && |g.tasks| > 0
    ensures NormalisersOf(g, vms).makespan > 0.0
    ensures NormalisersOf(g, vms).energy > 0.0
    ensures NormalisersOf(g, vms).balance > 0.0
  {
    SpeedBounds(vms);
    LengthSumPositive(g, |g.tasks|);
  }

  // ------------------------------------------------------------------ energy

  /** `power * exec` for one task on its VM. */
  function TaskEnergy(t: Task, vm: Vm): real
    requires vm.mips > 0.0
  {
    Power(vm.mips) * ExecutionTime(t, vm)
  }

  /** The energy of the first `k` tasks on the VMs they are mapped to. */
  function EnergySum(g: Dag, vms: seq<Vm>, assign: map<nat, nat>, k: nat): real
    requires ValidVms(vms) && Assigns(g, |vms|, assign) && k <= |g.tasks|
  {
    if k == 0 then 0.0 else EnergySum(g, vms, assign, k - 1) + TaskEnergy(g.tasks[k - 1], vms[assign[k - 1]])
  }

  /** `calculateEnergy`: the energy of every task on the VM it is mapped to. */
  function Energy(g: Dag, vms: seq<Vm>, assign: map<nat, nat>): real
    requires ValidVms(vms) && Assigns(g, |vms|, assign)
  {
    EnergySum(g, vms, assign, |g.tasks|)
  }

  /** A task's energy is `length * (0.0001 + 10 / mips)`: a faster VM spends less. */
  lemma TaskEnergyOnFasterVm(t: Task, slow: Vm, fast: Vm)
    requires 0.0 < slow.mips <= fast.mips && 0 <= t.length
    ensures TaskEnergy(t, fast) <= TaskEnergy(t, slow)
  {
    var l := t.length as real;
    assert TaskEnergy(t, slow) == l * 0.0001 + 10.0 * (l / slow.mips);
    assert TaskEnergy(t, fast) == l * 0.0001 + 10.0 * (l / fast.mips);
    DivideByLarger(l, slow.mips, fast.mips);
  }

  lemma DivideByLarger(l: real, small: real, large: real)
    requires 0.0 <= l && 0.0 < small <= large
    ensures l / large <= l / small
  {
    assert l / small - l / large == l * (large - small) / (small * large);
    assert 0.0 <= l * (large - small);
    assert 0.0 < small * large;
  }

  /** A task's energy on any VM is at least its length times the energy per
      instruction of the fastest VM. */
  lemma TaskEnergyAtLeast(t: Task, vm: Vm, fastest: real)
    requires 0.0 < vm.mips <= fastest && 0 <= t.length
    ensures t.length as real * EnergyPerInstruction(fastest) <= TaskEnergy(t, vm)
  {
    TaskEnergyOnFasterVm(t, vm, Vm(fastest));
    var l := t.length as real;
    assert Power(fastest) * (l / fastest) == l * (Power(fastest) / fastest);
  }

  lemma Regroup(total: real, mips: real, power: real)
    requires mips != 0.0
    ensures total * (power / mips) == (total / mips) * power
  {
  }

  /** `maxPossibleEnergy` prices the whole work at the fastest VM, which spends the
      least energy per instruction: no mapping uses less energy than it, so the
      normalised energy term is never below 1. */
  lemma EnergyAtLeastNormaliser(g: Dag, vms: seq<Vm>, assign: map<nat, nat>)
    requires WellFormed(g) && ValidVms(vms) && |vms| > 0 && Assigns(g, |vms|, assign)
    ensures NormalisersOf(g, vms).energy <= Energy(g, vms, assign)
  {
    EnergyNormaliser(g, vms);
    EnergySumAtLeast(g, vms, assign, |g.tasks|);
    assert TotalLength(g) == LengthSum(g, |g.tasks|);
    assert Energy(g, vms, assign) == EnergySum(g, vms, assign, |g.tasks|);
  }

  /** The first `k` tasks spend at least their length priced at the fastest VM. */
  lemma EnergySumAtLeast(g: Dag, vms: seq<Vm>, assign: map<nat, nat>, k: nat)
    requires WellFormed(g) && ValidVms(vms) && |vms| > 0 && Assigns(g, |vms|, assign) && k <= |g.tasks|
    ensures MaxMips(vms) > 0.0
    ensures LengthSum(g, k) * EnergyPerInstruction(MaxMips(vms)) <= EnergySum(g, vms, assign, k)
  {
    SpeedBounds(vms);
    EnergySumAtRate(g, vms, assign, k, MaxMips(vms));
  }

  /** The first `k` tasks spend at least their length priced at a speed no VM exceeds. */
  lemma {:induction false} EnergySumAtRate(g: Dag, vms: seq<Vm>, assign: map<nat, nat>, k: nat, fastest: real)
    requires WellFormed(g) && ValidVms(vms) && Assigns(g, |vms|, assign) && k <= |g.tasks|
    requires 0.0 < fastest && forall v :: 0 <= v < |vms| ==> vms[v].mips <= fastest
    ensures LengthSum(g, k) * EnergyPerInstruction(fastest) <= EnergySum(g, vms, assign, k)
  {
    if k > 0 {
      var t := g.tasks[k - 1];
      var vm := vms[assign[k - 1]];
      EnergySumAtRate(g, vms, assign, k - 1, fastest);
      TaskEnergyAtLeast(t, vm, fastest);
      ScaledSumAtMost(LengthSum(g, k - 1), t.length as real, EnergyPerInstruction(fastest),
                      EnergySum(g, vms, assign, k - 1), TaskEnergy(t, vm));
    }
  }

  lemma ScaledSumAtMost(a: real, b: real, c: real, x: real, y: real)
    requires a * c <= x && b * c <= y
    ensures (a + b) * c <= x + y
  {
  }

  /** `maxPossibleEnergy` is the total length priced at the fastest VM. */
  lemma EnergyNormaliser(g: Dag, vms: seq<Vm>)
    requires ValidVms(vms) && |vms| > 0
    ensures MaxMips(vms) > 0.0
    ensures NormalisersOf(g, vms).energy == TotalLength(g) * EnergyPerInstruction(MaxMips(vms))
  {
    SpeedBounds(vms);
    Regroup(TotalLength(g), MaxMips(vms), Power(MaxMips(vms)));
  }

  /** `maxPossibleEnergy` is no maximum: as soon as one task runs on a VM slower than
      the fastest, the energy exceeds it and the normalised energy term exceeds 1. */
  lemma EnergyCanExceedNormaliser(g: Dag, vms: seq<Vm>, assign: map<nat, nat>, t: nat)
    requires WellFormed(g) && ValidVms(vms) && |vms| > 0 && Assigns(g, |vms|, assign)
    requires t < |g.tasks| && vms[assign[t]].mips < MaxMips(vms)
    ensures 0.0 < NormalisersOf(g, vms).energy < Energy(g, vms, assign)
    ensures 1.0 < Energy(g, vms, assign) / NormalisersOf(g, vms).energy
  {
    NormalisersPositive(g, vms);
    EnergyAboveNormaliser(g, vms, assign, t);
    QuotientAboveOne(Energy(g, vms, assign), NormalisersOf(g, vms).energy);
  }

  lemma EnergyAboveNormaliser(g: Dag, vms: seq<Vm>, assign: map<nat, nat>, t: nat)
    requires WellFormed(g) && ValidVms(vms) && |vms| > 0 && Assigns(g, |vms|, assign)
    requires t < |g.tasks| && vms[assign[t]].mips < MaxMips(vms)
    ensures NormalisersOf(g, vms).energy < Energy(g, vms, assign)
  {
    EnergyNormaliser(g, vms);
    EnergySumAboveFastest(g, vms, assign, |g.tasks|, t);
  }

  /** The first `k` tasks, among them `t` on a VM slower than the fastest, spend more
      than their length priced at the fastest VM. */
  lemma EnergySumAboveFastest(g: Dag, vms: seq<Vm>, assign: map<nat, nat>, k: nat, t: nat)
    requires WellFormed(g) && ValidVms(vms) && |vms| > 0 && Assigns(g, |vms|, assign) && t < k <= |g.tasks|
    requires vms[assign[t]].mips < MaxMips(vms)
    ensures MaxMips(vms) > 0.0
    ensures LengthSum(g, k) * EnergyPerInstruction(MaxMips(vms)) < EnergySum(g, vms, assign, k)
  {
    SpeedBounds(vms);
    EnergySumAbove(g, vms, assign, k, t, MaxMips(vms));
  }

  lemma QuotientAboveOne(e: real, n: real)
    requires 0.0 < n < e
    ensures 1.0 < e / n
  {
    var q := e / n;
    assert q * n == e;
    assert q <= 1.0 ==> q * n <= 1.0 * n;
  }

  /** On a VM slower than `fastest` a task spends more than its length priced at
      `fastest`. */
  lemma TaskEnergyAboveRate(t: Task, vm: Vm, fastest: real)
    requires 0.0 < vm.mips < fastest && 0 < t.length
    ensures t.length as real * EnergyPerInstruction(fastest) < TaskEnergy(t, vm)
  {
    var l := t.length as real;
    assert Power(fastest) * (l / fastest) == l * (Power(fastest) / fastest);
    assert TaskEnergy(t, vm) == l * 0.0001 + 10.0 * (l / vm.mips);
    assert Power(fastest) * (l / fastest) == l * 0.0001 + 10.0 * (l / fastest);
    assert l / vm.mips - l / fastest == l * (fastest - vm.mips) / (vm.mips * fastest);
    assert 0.0 < l * (fastest - vm.mips);
    assert 0.0 < vm.mips * fastest;
  }

  /** Once task `t` is among the first `k` and runs slower than `fastest`, the first
      `k` tasks spend more than their length priced at `fastest`. */
  lemma {:induction false} EnergySumAbove(g: Dag, vms: seq<Vm>, assign: map<nat, nat>, k: nat, t: nat, fastest: real)
    requires WellFormed(g) && ValidVms(vms) && Assigns(g, |vms|, assign) && t < k <= |g.tasks|
    requires 0.0 < fastest && forall v :: 0 <= v < |vms| ==> vms[v].mips <= fastest
    requires vms[assign[t]].mips < fastest
    ensures LengthSum(g, k) * EnergyPerInstruction(fastest) < EnergySum(g, vms, assign, k)
  {
    if k - 1 == t {
      EnergySumAtRate(g, vms, assign, k - 1, fastest);
      LastTaskAbove(g, vms, assign, k, fastest);
    } else {
      EnergySumAbove(g, vms, assign, k - 1, t, fastest);
      EarlierTaskAbove(g, vms, assign, k, fastest);
    }
  }

  /** The step of `EnergySumAbove` where task `k - 1` is the slow one. */
  lemma LastTaskAbove(g: Dag, vms: seq<Vm>, assign: map<nat, nat>, k: nat, fastest: real)
    requires WellFormed(g) && ValidVms(vms) && Assigns(g, |vms|, assign) && 0 < k <= |g.tasks|
    requires 0.0 < fastest && vms[assign[k - 1]].mips < fastest
    requires LengthSum(g, k - 1) * EnergyPerInstruction(fastest) <= EnergySum(g, vms, assign, k - 1)
    ensures LengthSum(g, k) * EnergyPerInstruction(fastest) < EnergySum(g, vms, assign, k)
  {
    var x := g.tasks[k - 1];
    var vm := vms[assign[k - 1]];
    TaskEnergyAboveRate(x, vm, fastest);
    ScaledSumBelow(LengthSum(g, k - 1), x.length as real, EnergyPerInstruction(fastest),
                   EnergySum(g, vms, assign, k - 1), TaskEnergy(x, vm));
  }

  /** The step of `EnergySumAbove` where the slow task came earlier. */
  lemma EarlierTaskAbove(g: Dag, vms: seq<Vm>, assign: map<nat, nat>, k: nat, fastest: real)
    requires WellFormed(g) && ValidVms(vms) && Assigns(g, |vms|, assign) && 0 < k <= |g.tasks|
    requires 0.0 < fastest && vms[assign[k - 1]].mips <= fastest
    requires LengthSum(g, k - 1) * EnergyPerInstruction(fastest) < EnergySum(g, vms, assign, k - 1)
    ensures LengthSum(g, k) * EnergyPerInstruction(fastest) < EnergySum(g, vms, assign, k)
  {
    var x := g.tasks[k - 1];
    var vm := vms[assign[k - 1]];
    TaskEnergyAtLeast(x, vm, fastest);
    ScaledSumBelow(LengthSum(g, k - 1), x.length as real, EnergyPerInstruction(fastest),
                   EnergySum(g, vms, assign, k - 1), TaskEnergy(x, vm));
  }

  lemma ScaledSumBelow(a: real, b: real, c: real, x: real, y: real)
    requires (a * c < x && b * c <= y) || (a * c <= x && b * c < y)
    ensures (a + b) * c < x + y
  {
  }

  /** What `maxPossibleEnergy` evidently stands for: the energy of the whole work on the
      slowest VM, which spends the most energy per instruction. */
  function CorrectedEnergyNormaliser(g: Dag, vms: seq<Vm>): real
    requires ValidVms(vms)
  {
    SpeedBounds(vms);
    (TotalLength(g) / MinMips(vms)) * Power(MinMips(vms))
  }

  /** On a VM no slower than `slowest` a task spends at most its length priced at
      `slowest`. */
  lemma TaskEnergyAtMost(t: Task, vm: Vm, slowest: real)
    requires 0.0 < slowest <= vm.mips && 0 <= t.length
    ensures TaskEnergy(t, vm) <= t.length as real * EnergyPerInstruction(slowest)
  {
    TaskEnergyOnFasterVm(t, Vm(slowest), vm);
    var l := t.length as real;
    assert Power(slowest) * (l / slowest) == l * (Power(slowest) / slowest);
  }

  /** The first `k` tasks spend at most their length priced at a speed no VM is
      below. */
  lemma {:induction false} EnergySumAtMostRate(g: Dag, vms: seq<Vm>, assign: map<nat, nat>, k: nat, slowest: real)
    requires WellFormed(g) && ValidVms(vms) && Assigns(g, |vms|, assign) && k <= |g.tasks|
    requires 0.0 < slowest && forall v :: 0 <= v < |vms| ==> slowest <= vms[v].mips
    ensures EnergySum(g, vms, assign, k) <= LengthSum(g, k) * EnergyPerInstruction(slowest)
  {
    if k > 0 {
      var t := g.tasks[k - 1];
      EnergySumAtMostRate(g, vms, assign, k - 1, slowest);
      TaskEnergyAtMost(t, vms[assign[k - 1]], slowest);
      assert LengthSum(g, k) * EnergyPerInstruction(slowest) ==
             LengthSum(g, k - 1) * EnergyPerInstruction(slowest) + t.length as real * EnergyPerInstruction(slowest);
    }
  }

  /** The corrected normaliser bounds the energy of every mapping from above, so with
      at least one task the normalised energy term lies in `(0, 1]`. */
  lemma EnergyAtMostCorrectedNormaliser(g: Dag, vms: seq<Vm>, assign: map<nat, nat>)
    requires WellFormed(g) && ValidVms(vms) && |vms| > 0 && Assigns(g, |vms|, assign)
    ensures Energy(g, vms, assign) <= CorrectedEnergyNormaliser(g, vms)
    ensures |g.tasks| > 0 ==> 0.0 < Energy(g, vms, assign) && 0.0 < CorrectedEnergyNormaliser(g, vms)
    ensures |g.tasks| > 0 ==>
              0.0 < Energy(g, vms, assign) / CorrectedEnergyNormaliser(g, vms) <= 1.0
  {
    EnergyAtMostCorrected(g, vms, assign);
    if |g.tasks| > 0 {
      EnergyPositive(g, vms, assign);
      UnitQuotient(Energy(g, vms, assign), CorrectedEnergyNormaliser(g, vms));
    }
  }

  /** Every mapping spends at most the work priced at the slowest VM. */
  lemma EnergyAtMostCorrected(g: Dag, vms: seq<Vm>, assign: map<nat, nat>)
    requires WellFormed(g) && ValidVms(vms) && |vms| > 0 && Assigns(g, |vms|, assign)
    ensures Energy(g, vms, assign) <= CorrectedEnergyNormaliser(g, vms)
  {
    CorrectedEnergyNormaliserIsRate(g, vms);
    EnergySumAtMostRate(g, vms, assign, |g.tasks|, MinMips(vms));
  }

  /** With at least one task every mapping spends some energy. */
  lemma EnergyPositive(g: Dag, vms: seq<Vm>, assign: map<nat, nat>)
    requires WellFormed(g) && ValidVms(vms) && |vms| > 0 && Assigns(g, |vms|, assign) && |g.tasks| > 0
    ensures 0.0 < Energy(g, vms, assign)
  {
    EnergyAtLeastNormaliser(g, vms, assign);
    NormalisersPositive(g, vms);
  }

  /** The corrected normaliser is the total length priced at the slowest VM. */
  lemma CorrectedEnergyNormaliserIsRate(g: Dag, vms: seq<Vm>)
    requires ValidVms(vms) && |vms| > 0
    ensures 0.0 < MinMips(vms) && forall v :: 0 <= v < |vms| ==> MinMips(vms) <= vms[v].mips
    ensures CorrectedEnergyNormaliser(g, vms) == TotalLength(g) * EnergyPerInstruction(MinMips(vms))
  {
    SpeedBounds(vms);
    Regroup(TotalLength(g), MinMips(vms), Power(MinMips(vms)));
  }

  lemma UnitQuotient(e: real, n: real)
    requires 0.0 < e <= n
    ensures 0.0 < e / n <= 1.0
  {
    var q := e / n;
    assert q * n == e;
    assert q > 1.0 ==> q * n > 1.0 * n;
    assert q <= 0.0 ==> q * n <= 0.0 * n;
  }

  // ---------------------------------------------------------------- makespan

  function FinishTimes(tm: Timing, order: seq<nat>): (r: seq<real>)
    ensures |r| == |order| && forall i :: 0 <= i < |order| ==> r[i] == Get(tm.finish, order[i])
  {
    seq(|order|, i requires 0 <= i < |order| => Get(tm.finish, order[i]))
  }

  /** `max().orElse(0.0)`. */
  function MaxOrZero(xs: seq<real>): real
  {
    if xs == [] then 0.0 else MaxFrom(xs[0], xs)
  }

  /** `calculateMakespan`: the latest finish time of the last replay. */
  function Makespan(tm: Timing, order: seq<nat>): real
  {
    MaxOrZero(FinishTimes(tm, order))
  }

  /** The makespan of a replay is the finish time of some task, and no task finishes
      after it; it is 0 only for an empty graph, and never negative. */
  lemma MakespanIsLatestFinish(g: Dag, vms: seq<Vm>, assign: map<nat, nat>, topo: seq<nat>)
    requires PsoSetting(g, vms, topo) && Assigns(g, |vms|, assign)
    ensures var tm := Replay(g, vms, assign, topo);
            && (forall t :: t in tm.finish ==> tm.finish[t] <= Makespan(tm, topo))
            && (|topo| > 0 ==> exists t :: t in tm.finish && tm.finish[t] == Makespan(tm, topo))
            && (|topo| == 0 ==> Makespan(tm, topo) == 0.0)
            && 0.0 <= Makespan(tm, topo)
  {
    var tm := Replay(g, vms, assign, topo);
    ReplayTimesEachTask(g, vms, assign, topo);
    var fs := FinishTimes(tm, topo);
    if |topo| > 0 {
      MaxFromBounds(fs[0], fs);
      forall t | t in tm.finish ensures tm.finish[t] <= Makespan(tm, topo) {
        var i :| 0 <= i < |topo| && topo[i] == t;
        assert fs[i] == tm.finish[t];
      }
      var i :| 0 <= i < |fs| && MaxOrZero(fs) == fs[i];
      assert topo[i] in tm.finish && tm.finish[topo[i]] == Makespan(tm, topo);
      assert 0.0 <= tm.start[topo[0]] <= fs[0];
    }
  }

  // ------------------------------------------------------------ load balance

  /** The squared distance of each VM's busy time from the average `mean`. */
  function Deviations(clock: seq<real>, mean: real): (r: seq<real>)
    ensures |r| == |clock|
    ensures forall v :: 0 <= v < |clock| ==> r[v] == Square(clock[v] - mean)
  {
    seq(|clock|, v requires 0 <= v < |clock| => Square(clock[v] - mean))
  }

  /** `calculateLoadBalance`: the root mean square distance of the VM busy times from
      an even share `makespan / |vms|` of the makespan. */
  function LoadBalance(sqrt: real -> real, clock: seq<real>, makespan: real): real
    requires |clock| > 0
  {
    sqrt(Sum(Deviations(clock, makespan / |clock| as real)) / |clock| as real)
  }

  /** The imbalance is never negative, and it is 0 exactly when every VM is busy for
      the same share of the makespan. */
  lemma LoadBalanceZeroIffEven(sqrt: real -> real, clock: seq<real>, makespan: real)
    requires IsSqrt(sqrt) && |clock| > 0
    ensures 0.0 <= LoadBalance(sqrt, clock, makespan)
    ensures LoadBalance(sqrt, clock, makespan) == 0.0 <==>
            forall v :: 0 <= v < |clock| ==> clock[v] == makespan / |clock| as real
  {
    var mean := makespan / |clock| as real;
    var ds := Deviations(clock, mean);
    forall v | 0 <= v < |clock| ensures 0.0 <= ds[v] && (0.0 < ds[v] <==> clock[v] != mean) {
      DeviationSign(clock, mean, v);
    }
    SumNonNegative(ds);
    DivideMonotone(0.0, Sum(ds), |clock| as real);
    if forall v :: 0 <= v < |clock| ==> clock[v] == mean {
      SumOfZeros(ds);
      ZeroQuotient(|clock| as real);
    } else {
      var v :| 0 <= v < |clock| && clock[v] != mean;
      SumAtLeastTerm(ds, v);
      PositiveQuotient(Sum(ds), |clock| as real);
      RootPositive(sqrt, Sum(ds) / |clock| as real);
    }
  }

  /** A deviation is never negative, and positive exactly for a VM whose busy time is
      not the average. */
  lemma DeviationSign(clock: seq<real>, mean: real, v: nat)
    requires v < |clock|
    ensures 0.0 <= Deviations(clock, mean)[v]
    ensures 0.0 < Deviations(clock, mean)[v] <==> clock[v] != mean
  {
    var x := clock[v] - mean;
    SquareSign(x, Deviations(clock, mean)[v]);
  }

  /** The root of a positive number is positive. */
  lemma RootPositive(sqrt: real -> real, x: real)
    requires IsSqrt(sqrt) && 0.0 < x
    ensures 0.0 < sqrt(x)
  {
    var r := sqrt(x);
    assert 0.0 <= r && r * r == x;
    if r <= 0.0 {
      assert false;
    }
  }

  lemma ZeroQuotient(d: real)
    requires 0.0 < d
    ensures 0.0 / d == 0.0
  {
  }

  lemma PositiveQuotient(a: real, d: real)
    requires 0.0 < a && 0.0 < d
    ensures 0.0 < a / d
  {
  }

  lemma {:induction false} SumOfZeros(xs: seq<real>)
    requires forall i :: 0 <= i < |xs| ==> xs[i] == 0.0
    ensures Sum(xs) == 0.0
    decreases |xs|
  {
    if xs != [] {
      SumOfZeros(xs[..|xs| - 1]);
    }
  }

  /** A sum of non-negative terms is at least each of its terms. */
  lemma {:induction false} SumAtLeastTerm(xs: seq<real>, k: nat)
    requires k < |xs| && forall i :: 0 <= i < |xs| ==> 0.0 <= xs[i]
    ensures xs[k] <= Sum(xs)
    decreases |xs|
  {
    var n := |xs| - 1;
    if k < n {
      SumAtLeastTerm(xs[..n], k);
    } else {
      SumNonNegative(xs[..n]);
    }
  }

  // ----------------------------------------------------------------- fitness

  /** `w1 * nm + w2 * ne + w3 * nb`. */
  function Fitness(makespan: real, energy: real, balance: real, norm: Normalisers): real
    requires norm.makespan != 0.0 && norm.energy != 0.0 && norm.balance != 0.0
  {
    MakespanWeight * (makespan / norm.makespan)
    + EnergyWeight * (energy / norm.energy)
    + BalanceWeight * (balance / norm.balance)
  }

  /** With positive normalisers the fitness orders schedules the way the objectives do:
      a schedule no worse in makespan, energy and imbalance has no larger fitness. */
  lemma FitnessMonotone(m1: real, e1: real, b1: real, m2: real, e2: real, b2: real, norm: Normalisers)
    requires norm.makespan > 0.0 && norm.energy > 0.0 && norm.balance > 0.0
    requires m1 <= m2 && e1 <= e2 && b1 <= b2
    ensures Fitness(m1, e1, b1, norm) <= Fitness(m2, e2, b2, norm)
  {
    DivideMonotone(m1, m2, norm.makespan);
    DivideMonotone(e1, e2, norm.energy);
    DivideMonotone(b1, b2, norm.balance);
  }

  lemma DivideMonotone(a: real, b: real, d: real)
    requires a <= b && 0.0 < d
    ensures a / d <= b / d
  {
    assert b / d - a / d == (b - a) / d;
  }

  /** The weighted sum is at least the energy weight when the makespan and imbalance
      are not negative and the energy is at least its normaliser. */
  lemma FitnessAtLeastEnergyWeight(makespan: real, energy: real, balance: real, norm: Normalisers)
    requires norm.makespan > 0.0 && norm.energy > 0.0 && norm.balance > 0.0
    requires 0.0 <= makespan && norm.energy <= energy && 0.0 <= balance
    ensures EnergyWeight <= Fitness(makespan, energy, balance, norm)
  {
    DivideMonotone(0.0, makespan, norm.makespan);
    DivideMonotone(0.0, balance, norm.balance);
    DivideMonotone(norm.energy, energy, norm.energy);
  }

  /** The fitness of a particle position: decode it into a mapping, replay the
      mapping, and weigh the makespan, the energy and the imbalance of that replay. */
  function PositionFitness(sqrt: real -> real, g: Dag, vms: seq<Vm>, topo: seq<nat>, position: seq<real>): real
    requires PsoSetting(g, vms, topo) && |position| == |topo| && |topo| > 0
  {
    DecodedMappingAssigns(g, vms, topo, position);
    NormalisersPositive(g, vms);
    var assign := MappingOf(topo, DecodeAll(position, |vms|));
    var tm := Replay(g, vms, assign, topo);
    var makespan := Makespan(tm, topo);
    Fitness(makespan, Energy(g, vms, assign), LoadBalance(sqrt, tm.clock, makespan), NormalisersOf(g, vms))
  }

  /** The timing maps the replay of a particle position leaves. */
  function PositionTiming(g: Dag, vms: seq<Vm>, topo: seq<nat>, position: seq<real>): Timing
    requires PsoSetting(g, vms, topo) && |position| == |topo|
  {
    DecodedMappingAssigns(g, vms, topo, position);
    Replay(g, vms, MappingOf(topo, DecodeAll(position, |vms|)), topo)
  }

  /** Every fitness is at least the energy weight, 0.2: the makespan and imbalance terms
      are not negative and the energy term is at least 1. */
  lemma PositionFitnessAtLeastEnergyWeight(sqrt: real -> real, g: Dag, vms: seq<Vm>, topo: seq<nat>,
                                           position: seq<real>)
    requires PsoSetting(g, vms, topo) && |position| == |topo| && |topo| > 0 && IsSqrt(sqrt)
    ensures EnergyWeight <= PositionFitness(sqrt, g, vms, topo, position)
  {
    DecodedMappingAssigns(g, vms, topo, position);
    NormalisersPositive(g, vms);
    var assign := MappingOf(topo, DecodeAll(position, |vms|));
    var tm := Replay(g, vms, assign, topo);
    var makespan := Makespan(tm, topo);
    MakespanIsLatestFinish(g, vms, assign, topo);
    LoadBalanceZeroIffEven(sqrt, tm.clock, makespan);
    EnergyAtLeastNormaliser(g, vms, assign);
    FitnessAtLeastEnergyWeight(makespan, Energy(g, vms, assign), LoadBalance(sqrt, tm.clock, makespan),
                               NormalisersOf(g, vms));
  }
}
