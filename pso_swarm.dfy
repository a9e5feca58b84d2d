/** The swarm arithmetic of algorithms/PSOScheduler.java, one particle dimension or
    one bookkeeping step at a time: the two greedy seedings of `initializeSwarm`, the
    draws that seed the other particles and every velocity, the inertia schedule,
    the velocity update with its clamp and the elastic reflection at the ends of
    `[0, n]`, the best-so-far bookkeeping, the stagnation counter and the choice of
    the particles `mutateWorstParticles` re-draws. */
module PsoSwarm {
  import opened Wrappers
  import opened Folds
  import opened Sorting
  import opened CloudTask
  import opened Dags
  import opened Costs
  import opened PsoReplay

  /** `wMax` and `wMin`. */
  const InertiaStart: real := 0.9
  const InertiaEnd: real := 0.4
  /** How close two best fitnesses must be for an iteration to count as stagnant. */
  const StagnationTolerance: real := 0.000001
  /** The counter value past which the worst particles are mutated. */
  const StagnationLimit: nat := 30

  // ------------------------------------------------------------- seeding

  /** The two greedy seedings: `initEarliestFinishHeuristic` picks the VM on which the
      task would finish first, `initLoadBalanceHeuristic` the least busy VM. */
  datatype Heuristic = EarliestFinish | LeastLoaded

  /** What the scan of a heuristic compares for `t` on each VM, given how long each
      VM is already busy: `vmFinish + exec`, or `vmLoad`. */
  function Candidates(h: Heuristic, t: Task, vms: seq<Vm>, busy: seq<real>): (r: seq<real>)
    requires ValidVms(vms) && |busy| == |vms|
    ensures |r| == |vms|
    ensures forall v :: 0 <= v < |vms| ==>
              r[v] == if h == EarliestFinish then busy[v] + ExecutionTime(t, vms[v]) else busy[v]
  {
    seq(|vms|, v requires 0 <= v < |vms| =>
      if h == EarliestFinish then busy[v] + ExecutionTime(t, vms[v]) else busy[v])
  }

  /** The VM chosen for each task of the order, and how long each VM is busy after. */
  datatype Greedy = Greedy(choices: seq<nat>, busy: seq<real>)

  /** One task of a heuristic: the first VM with the smallest candidate value takes it
      (the scans start from `Double.MAX_VALUE` and replace on `<`), and that VM's busy
      time grows by the task's execution time on it. */
  function GreedyStep(h: Heuristic, t: Task, vms: seq<Vm>, prev: Greedy): (r: Greedy)
    requires ValidVms(vms) && |vms| > 0 && |prev.busy| == |vms|
    ensures |r.choices| == |prev.choices| + 1 && |r.busy| == |vms|
    ensures forall i :: 0 <= i < |prev.choices| ==> r.choices[i] == prev.choices[i]
    ensures r.choices[|prev.choices|] < |vms|
  {
    var v := ArgMinFirst(Candidates(h, t, vms, prev.busy));
    Greedy(prev.choices + [v], prev.busy[v := prev.busy[v] + ExecutionTime(t, vms[v])])
  }

  /** A heuristic over the first `k` tasks of `order`, one step per task. */
  function GreedyRun(h: Heuristic, g: Dag, vms: seq<Vm>, order: seq<nat>, k: nat): (r: Greedy)
    requires ValidVms(vms) && |vms| > 0 && InGraph(g, order) && k <= |order|
    ensures |r.choices| == k && |r.busy| == |vms|
    ensures forall i :: 0 <= i < k ==> r.choices[i] < |vms|
  {
    if k == 0 then Greedy([], Zeros(|vms|))
    else GreedyStep(h, g.tasks[order[k - 1]], vms, GreedyRun(h, g, vms, order, k - 1))
  }

  /** The work the first `k` choices put on VM `v`: the summed execution time on `v`
      of the tasks of the order that were sent to it. */
  function LoadOn(g: Dag, vms: seq<Vm>, order: seq<nat>, choices: seq<nat>, k: nat, v: nat): real
    requires ValidVms(vms) && v < |vms| && InGraph(g, order) && k <= |choices| == |order|
  {
    if k == 0 then 0.0
    else
      LoadOn(g, vms, order, choices, k - 1, v)
      + (if choices[k - 1] == v then ExecutionTime(g.tasks[order[k - 1]], vms[v]) else 0.0)
  }

  /** Both heuristics keep, for every VM, exactly the work they have sent to it: the
      running `vmFinish` of the earliest-finish seeding is a load, like `vmLoad`. */
  lemma GreedyBusyIsLoad(h: Heuristic, g: Dag, vms: seq<Vm>, order: seq<nat>, k: nat, v: nat)
    requires ValidVms(vms) && |vms| > 0 && InGraph(g, order) && k <= |order| && v < |vms|
    ensures GreedyRun(h, g, vms, order, k).busy[v]
            == LoadOn(g, vms, order, GreedyRun(h, g, vms, order, |order|).choices, k, v)
  {
    GreedyRunPrefix(h, g, vms, order, k);
    BusyIsLoadOf(h, g, vms, order, GreedyRun(h, g, vms, order, |order|).choices, k, v);
  }

  /** The busy time of a VM after `k` steps is the load of the first `k` choices on it. */
  lemma {:induction false} BusyIsLoadOf(h: Heuristic, g: Dag, vms: seq<Vm>, order: seq<nat>, choices: seq<nat>,
                                        k: nat, v: nat)
    requires ValidVms(vms) && |vms| > 0 && InGraph(g, order) && k <= |order| == |choices| && v < |vms|
    requires forall i :: 0 <= i < k ==> choices[i] == GreedyRun(h, g, vms, order, k).choices[i]
    ensures GreedyRun(h, g, vms, order, k).busy[v] == LoadOn(g, vms, order, choices, k, v)
  {
    if k > 0 {
      var chosen := GreedyRun(h, g, vms, order, k).choices[k - 1];
      var prev := GreedyRun(h, g, vms, order, k - 1).busy;
      var exec := ExecutionTime(g.tasks[order[k - 1]], vms[chosen]);
      GreedyRunLastStep(h, g, vms, order, k);
      BusyIsLoadOf(h, g, vms, order, choices, k - 1, v);
      if chosen == v {
        assert GreedyRun(h, g, vms, order, k).busy[v] == prev[v] + exec;
      } else {
        assert GreedyRun(h, g, vms, order, k).busy[v] == prev[v];
      }
    }
  }

  /** The last step of a run adds the last task's execution time to the VM it chose. */
  lemma GreedyRunLastStep(h: Heuristic, g: Dag, vms: seq<Vm>, order: seq<nat>, k: nat)
    requires ValidVms(vms) && |vms| > 0 && InGraph(g, order) && 0 < k <= |order|
    ensures var c := GreedyRun(h, g, vms, order, k).choices[k - 1];
            var prev := GreedyRun(h, g, vms, order, k - 1).busy;
            GreedyRun(h, g, vms, order, k).busy == prev[c := prev[c] + ExecutionTime(g.tasks[order[k - 1]], vms[c])]
  {
  }

  /** The first `k` choices of a run are the choices of the run over the first `k`
      tasks: the seeding never revisits a task. */
  lemma {:induction false} GreedyRunPrefix(h: Heuristic, g: Dag, vms: seq<Vm>, order: seq<nat>, k: nat)
    requires ValidVms(vms) && |vms| > 0 && InGraph(g, order) && k <= |order|
    ensures forall i :: 0 <= i < k ==>
              GreedyRun(h, g, vms, order, k).choices[i] == GreedyRun(h, g, vms, order, |order|).choices[i]
    decreases |order| - k
  {
    if k < |order| {
      GreedyRunPrefix(h, g, vms, order, k + 1);
    }
  }

  /** A first minimum is the only index that is no larger than every candidate and
      strictly smaller than every earlier one. */
  lemma ArgMinFirstUnique(costs: seq<real>, r: nat)
    requires r < |costs|
    requires forall j :: 0 <= j < |costs| ==> costs[r] <= costs[j]
    requires forall j :: 0 <= j < r ==> costs[r] < costs[j]
    ensures ArgMinFirst(costs) == r
  {
  }

  /** On VMs of one speed the two seedings agree: finishing first and being least
      busy are the same thing when the execution time is the same everywhere. */
  lemma {:induction false} SameSpeedSameChoices(g: Dag, vms: seq<Vm>, order: seq<nat>, k: nat)
    requires ValidVms(vms) && |vms| > 0 && InGraph(g, order) && k <= |order|
    requires forall v :: 0 <= v < |vms| ==> vms[v].mips == vms[0].mips
    ensures GreedyRun(EarliestFinish, g, vms, order, k) == GreedyRun(LeastLoaded, g, vms, order, k)
  {
    if k > 0 {
      var prev := GreedyRun(LeastLoaded, g, vms, order, k - 1);
      assert GreedyRun(EarliestFinish, g, vms, order, k - 1) == prev by {
        SameSpeedSameChoices(g, vms, order, k - 1);
      }
      SameSpeedSameStep(g.tasks[order[k - 1]], vms, prev);
    }
  }

  /** On VMs of one speed the two scans pick the same VM for a task, so the two
      seedings take the same step. */
  lemma SameSpeedSameStep(t: Task, vms: seq<Vm>, prev: Greedy)
    requires ValidVms(vms) && |vms| > 0 && |prev.busy| == |vms|
    requires forall v :: 0 <= v < |vms| ==> vms[v].mips == vms[0].mips
    ensures GreedyStep(EarliestFinish, t, vms, prev) == GreedyStep(LeastLoaded, t, vms, prev)
  {
    var finish := Candidates(EarliestFinish, t, vms, prev.busy);
    var load := Candidates(LeastLoaded, t, vms, prev.busy);
    var v := ArgMinFirst(load);
    forall j | 0 <= j < |vms| ensures finish[j] == load[j] + ExecutionTime(t, vms[0]) {
      assert vms[j] == vms[0];
    }
    ArgMinFirstUnique(finish, v);
  }

  /** A heuristic's position for a task: the chosen index plus `nextDouble() * 0.05`. */
  function JitteredPosition(index: nat, draw: real): real
  {
    index as real + draw * 0.05
  }

  /** `position` lies less than 0.05 above the VM index `index`. */
  predicate NearIndex(position: real, index: nat)
  {
    index as real <= position < index as real + 0.05
  }

  /** A jittered position lies just above its index, inside `[0, n)`, and decodes
      back to the chosen VM. */
  lemma JitteredChoice(index: nat, draw: real, vmCount: nat)
    requires index < vmCount && 0.0 <= draw < 1.0
    ensures NearIndex(JitteredPosition(index, draw), index)
    ensures 0.0 <= JitteredPosition(index, draw) < vmCount as real
    ensures Decode(JitteredPosition(index, draw), vmCount) == index
  {
    DecodeChosenIndex(index, draw * 0.05, vmCount);
  }

  /** Positions each just above a VM index decode to those indices, and lie inside
      `[0, n)`. */
  lemma JitteredPositionsDecode(positions: seq<real>, choices: seq<nat>, vmCount: nat)
    requires |positions| == |choices| && vmCount > 0
    requires forall d :: 0 <= d < |choices| ==> choices[d] < vmCount && NearIndex(positions[d], choices[d])
    ensures DecodeAll(positions, vmCount) == choices
    ensures forall d :: 0 <= d < |positions| ==> 0.0 <= positions[d] < vmCount as real
  {
    var decoded := DecodeAll(positions, vmCount);
    forall d | 0 <= d < |choices|
      ensures decoded[d] == choices[d] && 0.0 <= positions[d] < vmCount as real
    {
      DecodeChosenIndex(choices[d], positions[d] - choices[d] as real, vmCount);
    }
  }

  /** The position of the uniform third: `nextDouble() * n`. */
  function UniformPosition(draw: real, vmCount: nat): real
  {
    draw * vmCount as real
  }

  /** A uniform position lies inside `[0, n)`. */
  lemma UniformPositionInRange(draw: real, vmCount: nat)
    requires 0.0 <= draw < 1.0 && vmCount > 0
    ensures 0.0 <= UniformPosition(draw, vmCount) < vmCount as real
  {
    var n := vmCount as real;
    ProductSigns(draw, n);
    ProductSigns(1.0 - draw, n);
    assert draw * n == n - (1.0 - draw) * n;
  }

  /** Signs of a product of a non-negative and a positive factor. */
  lemma ProductSigns(a: real, b: real)
    requires 0.0 <= a && 0.0 < b
    ensures 0.0 <= a * b && (0.0 < a ==> 0.0 < a * b)
  {
  }

  /** A seeded velocity: `(nextDouble() - 0.5) * n * 0.2`. */
  function SeededVelocity(draw: real, vmCount: nat): real
  {
    (draw - 0.5) * vmCount as real * 0.2
  }

  /** A seeded velocity lies inside `[-n/10, n/10)`, well within the clamp. */
  lemma InitialVelocityInRange(draw: real, vmCount: nat)
    requires 0.0 <= draw < 1.0 && vmCount > 0
    ensures -(vmCount as real) <= SeededVelocity(draw, vmCount) < vmCount as real
  {
    var n := vmCount as real;
    ProductSigns(draw, n * 0.2);
    ProductSigns(1.0 - draw, n * 0.2);
    assert SeededVelocity(draw, vmCount) == draw * (n * 0.2) - 0.1 * n;
    assert SeededVelocity(draw, vmCount) == 0.1 * n - (1.0 - draw) * (n * 0.2);
  }

  // ------------------------------------------------------------- inertia

  /** `wMax - ((wMax - wMin) * iter / (maxIterations - 1))`; with one iteration the
      divisor is 0 and Java yields NaN, which the model does not represent. */
  function Inertia(iter: nat, maxIterations: nat): real
    requires 2 <= maxIterations
  {
    InertiaStart - (InertiaStart - InertiaEnd) * iter as real / (maxIterations - 1) as real
  }

  /** The inertia falls linearly, strictly, from 0.9 at the first iteration to 0.4 at
      the last. */
  lemma InertiaAnneals(iter: nat, maxIterations: nat)
    requires 2 <= maxIterations && iter < maxIterations
    ensures Inertia(0, maxIterations) == InertiaStart
    ensures Inertia(maxIterations - 1, maxIterations) == InertiaEnd
    ensures InertiaEnd <= Inertia(iter, maxIterations) <= InertiaStart
    ensures iter + 1 < maxIterations ==> Inertia(iter + 1, maxIterations) < Inertia(iter, maxIterations)
  {
    var d := (maxIterations - 1) as real;
    var i := iter as real;
    assert 0.5 * d / d == 0.5;
    assert 0.5 * i / d <= 0.5 by {
      assert 0.5 * d / d - 0.5 * i / d == 0.5 * (d - i) / d;
    }
    assert 0.5 * (i + 1.0) / d - 0.5 * i / d == 0.5 / d;
  }

  // -------------------------------------------------------------- motion

  /** `if (v > vmax) v = vmax; if (v < -vmax) v = -vmax;`, in that order. */
  function Clamp(velocity: real, limit: real): real
  {
    var capped := if velocity > limit then limit else velocity;
    if capped < -limit then -limit else capped
  }

  /** A clamped velocity lies in `[-limit, limit]`, and one already there is kept. */
  lemma ClampBounds(velocity: real, limit: real)
    requires 0.0 <= limit
    ensures -limit <= Clamp(velocity, limit) <= limit
    ensures -limit <= velocity <= limit ==> Clamp(velocity, limit) == velocity
    ensures velocity > limit ==> Clamp(velocity, limit) == limit
    ensures velocity < -limit ==> Clamp(velocity, limit) == -limit
  {
  }

  /** The velocity rule: inertia, a pull to the particle's best position and a pull to
      the swarm's best position. */
  function NewVelocity(inertia: real, velocity: real, position: real, best: real, globalBest: real,
                       c1: real, c2: real, r1: real, r2: real): real
  {
    inertia * velocity + c1 * r1 * (best - position) + c2 * r2 * (globalBest - position)
  }

  datatype Motion = Motion(position: real, velocity: real)

  /** `position += velocity`, then a position below 0 is mirrored at 0 and one at or
      past `limit` at `limit`, each time negating the velocity. */
  function Reflect(position: real, velocity: real, limit: real): Motion
  {
    var p := position + velocity;
    var m := if p < 0.0 then Motion(-p, -velocity) else Motion(p, velocity);
    if m.position >= limit then Motion(2.0 * limit - m.position, -m.velocity) else m
  }

  /** From a position in `[0, limit]` and a velocity in `[-limit, limit]` the move
      ends in `[0, limit]` with a velocity still in `[-limit, limit]`; a move that stays
      inside `[0, limit)` is a plain step. */
  lemma ReflectStaysInside(position: real, velocity: real, limit: real)
    requires 0.0 <= position <= limit && -limit <= velocity <= limit
    ensures 0.0 <= Reflect(position, velocity, limit).position <= limit
    ensures -limit <= Reflect(position, velocity, limit).velocity <= limit
    ensures 0.0 <= position + velocity < limit ==>
              Reflect(position, velocity, limit) == Motion(position + velocity, velocity)
  {
  }

  /** One dimension of one particle in one iteration: the new velocity, clamped to
      `[-n, n]`, then the reflected move. */
  function Fly(position: real, velocity: real, best: real, globalBest: real,
               inertia: real, c1: real, c2: real, r1: real, r2: real, limit: real): Motion
  {
    Reflect(position, Clamp(NewVelocity(inertia, velocity, position, best, globalBest, c1, c2, r1, r2), limit), limit)
  }

  /** Whatever the coefficients and draws, a position in `[0, n]` stays there and the
      velocity ends in `[-n, n]`. */
  lemma FlyStaysInside(position: real, velocity: real, best: real, globalBest: real,
                       inertia: real, c1: real, c2: real, r1: real, r2: real, limit: real)
    requires 0.0 <= position <= limit
    ensures 0.0 <= Fly(position, velocity, best, globalBest, inertia, c1, c2, r1, r2, limit).position <= limit
    ensures -limit <= Fly(position, velocity, best, globalBest, inertia, c1, c2, r1, r2, limit).velocity <= limit
  {
    var v := NewVelocity(inertia, velocity, position, best, globalBest, c1, c2, r1, r2);
    ClampBounds(v, limit);
    ReflectStaysInside(position, Clamp(v, limit), limit);
  }

  // --------------------------------------------------------- bookkeeping

  /** `fitness < bestFitness`, where no best yet stands for `Double.MAX_VALUE`. */
  predicate Improves(fitness: real, best: Option<real>)
  {
    best.None? || fitness < best.value
  }

  /** The best after seeing `fitness`: replaced only on strict improvement. */
  function Improved(fitness: real, best: Option<real>): Option<real>
  {
    if Improves(fitness, best) then Some(fitness) else best
  }

  /** The kept best is the smaller of the two, never above the new fitness nor the old
      best, and it changes only to a strictly smaller value. */
  lemma ImprovedIsMinimum(fitness: real, best: Option<real>)
    ensures Improved(fitness, best).Some?
    ensures Improved(fitness, best).value <= fitness
    ensures best.Some? ==> Improved(fitness, best).value <= best.value
    ensures Improved(fitness, best) != best ==> Improved(fitness, best) == Some(fitness) && Improves(fitness, best)
  {
  }

  ghost predicate NonIncreasing(h: seq<real>)
  {
    forall i, j :: 0 <= i < j < |h| ==> h[j] <= h[i]
  }

  /** Appending a value no larger than the last keeps a history non-increasing. */
  lemma {:induction false} NonIncreasingAppend(h: seq<real>, x: real)
    requires NonIncreasing(h) && (|h| > 0 ==> x <= h[|h| - 1])
    ensures NonIncreasing(h + [x])
  {
    var h' := h + [x];
    forall i, j | 0 <= i < j < |h'| ensures h'[j] <= h'[i] {
      if j == |h| {
        assert h'[i] == h[i];
        if i < |h| - 1 {
          assert h[|h| - 1] <= h[i];
        }
      } else {
        assert h'[i] == h[i] && h'[j] == h[j];
      }
    }
  }

  function Abs(x: real): real
  {
    if x < 0.0 then -x else x
  }

  /** `Math.abs(previousBestFitness - best) < 1e-6`; before the first iteration the
      previous best is `Double.MAX_VALUE`, which no fitness comes near. */
  predicate Stagnant(previous: Option<real>, best: real)
  {
    previous.Some? && Abs(previous.value - best) < StagnationTolerance
  }

  /** The counter after the comparison: one more for a stagnant iteration, else 0. */
  function StagnationCount(previous: Option<real>, best: real, counter: nat): nat
  {
    if Stagnant(previous, best) then counter + 1 else 0
  }

  /** The counter at the end of an iteration: past the limit it triggers the mutation
      and is reset. */
  function CounterAfterIteration(previous: Option<real>, best: real, counter: nat): nat
  {
    var c := StagnationCount(previous, best, counter);
    if c > StagnationLimit then 0 else c
  }

  /** The counter never ends an iteration above 30; the mutation fires exactly on the
      stagnant iteration that follows 30 stagnant ones, and a move of the best by at
      least 1e-6 resets the count. */
  lemma StagnationBounded(previous: Option<real>, best: real, counter: nat)
    requires counter <= StagnationLimit
    ensures CounterAfterIteration(previous, best, counter) <= StagnationLimit
    ensures StagnationCount(previous, best, counter) > StagnationLimit
            <==> counter == StagnationLimit && Stagnant(previous, best)
    ensures !Stagnant(previous, best) ==> CounterAfterIteration(previous, best, counter) == 0
    ensures Stagnant(previous, best) && counter < StagnationLimit ==>
              CounterAfterIteration(previous, best, counter) == counter + 1
  {
  }

  // ------------------------------------------------------------- mutation

  /** The order `swarm.stream().sorted(comparingDouble(p -> -p.fitness))` visits the
      particles in: by fitness, largest first, ties in swarm order. */
  function FitnessKey(fitness: seq<real>): nat -> real
  {
    (i: nat) => if i < |fitness| then fitness[i] else 0.0
  }

  /** The particles `mutateWorstParticles` re-draws: the first `count` of that order. */
  function WorstParticles(fitness: seq<real>, count: nat): (r: seq<nat>)
    requires count <= |fitness|
    ensures |r| == count
  {
    SortDesc(Ids(|fitness|), FitnessKey(fitness))[..count]
  }

  /** The chosen particles are `count` different particles of the swarm, and none left
      out has a larger fitness than one chosen. */
  lemma WorstParticlesAreWorst(fitness: seq<real>, count: nat)
    requires count <= |fitness|
    ensures Distinct(WorstParticles(fitness, count))
    ensures forall k :: 0 <= k < count ==> WorstParticles(fitness, count)[k] < |fitness|
    ensures forall k, j :: 0 <= k < count && 0 <= j < |fitness| && j !in WorstParticles(fitness, count) ==>
              fitness[j] <= fitness[WorstParticles(fitness, count)[k]]
  {
    var ids := Ids(|fitness|);
    var key := FitnessKey(fitness);
    var sorted := SortDesc(ids, key);
    var r := sorted[..count];
    assert Distinct(ids) by {
      forall i, j | 0 <= i < j < |ids| ensures ids[i] != ids[j] {
      }
    }
    SortDescKeepsElements(ids, key);
    SortDescSorted(ids, key);
    forall k | 0 <= k < count ensures r[k] < |fitness| {
      assert sorted[k] in ids;
    }
    forall k, j | 0 <= k < count && 0 <= j < |fitness| && j !in r
      ensures fitness[j] <= fitness[r[k]]
    {
      assert ids[j] == j;
      assert j in sorted;
      var p :| 0 <= p < |sorted| && sorted[p] == j;
      assert forall q :: 0 <= q < count ==> sorted[q] == r[q];
      assert count <= p;
      assert sorted[k] in ids;
      assert key(sorted[p]) <= key(sorted[k]);
    }
  }

}
