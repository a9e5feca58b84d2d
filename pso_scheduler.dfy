/** algorithms/PSOScheduler.java as a class. A particle's three arrays and two fitnesses
    are a `Particle` value (the code copies particles with `copy()` and never shares
    them); the scheduler owns the swarm, the global best, the timing maps
    `updateTimings` rewrites, the convergence history and the stagnation bookkeeping,
    and its methods reassign them. Each step is proved to do what the functions of
    PsoReplay, PsoFitness and PsoSwarm describe, and the swarm keeps its positions
    inside `[0, n]` for `n` VMs. Tasks are named by their ids and VMs by their positions
    in the list; the random draws come from a `Random` the caller supplies and
    `Math.sqrt` is the parameter `sqrt`. */
module PsoScheduling {
  import opened Wrappers
  import opened Folds
  import opened JavaRandom
  import opened CloudTask
  import opened Dags
  import opened Costs
  import opened PsoReplay
  import opened PsoFitness
  import opened PsoSwarm
  import opened Sorting

  /** `Particle`: one position, velocity and best position per task of the order, the
      last fitness and the best fitness; `None` stands for the `Double.MAX_VALUE` a new
      particle starts with. */
  datatype Particle = Particle(position: seq<real>, velocity: seq<real>, bestPosition: seq<real>,
                               fitness: Option<real>, bestFitness: Option<real>)

  /** Every position and best position inside `[0, limit]`, every velocity inside
      `[-limit, limit]`. */
  ghost predicate InBounds(p: Particle, limit: real)
  {
    && |p.velocity| == |p.position| == |p.bestPosition|
    && (forall d :: 0 <= d < |p.position| ==> 0.0 <= p.position[d] <= limit && -limit <= p.velocity[d] <= limit)
    && (forall d :: 0 <= d < |p.bestPosition| ==> 0.0 <= p.bestPosition[d] <= limit)
  }

  class PsoScheduler {
    const graph: Dag
    const vms: seq<Vm>
    /** `taskOrder`: the order `TopologicalOrderIterator` yields. */
    const topo: seq<nat>
    const swarmSize: nat
    const maxIterations: nat
    const c1: real
    const c2: real
    const random: Random
    const sqrt: real -> real
    /** `maxPossibleMakespan`, `maxPossibleEnergy`, `maxPossibleLoadBalance`. */
    const normalisers: Normalisers
    /** The fitness `evaluateFitness` gives each position; `Known` ties it to
        `PositionFitness`. */
    ghost const fitnessOf: seq<real> -> real
    /** The timing maps `evaluateFitness` leaves for each position; `Known` ties
        it to `PositionTiming`. */
    ghost const timingOf: seq<real> -> Timing
    /** `Fly` with this scheduler's `c1` and `c2`; `Known` ties the two. */
    ghost const flight: (real, real, real, real, real, real, real, real) -> Motion
    var inertiaWeight: real
    var swarm: seq<Particle>
    /** `globalBest`; `None` until `initializeSwarm` sets it. */
    var globalBest: Option<Particle>
    var startTime: map<nat, real>
    var finishTime: map<nat, real>
    var vmAvailableTime: seq<real>
    var convergenceHistory: seq<real>
    var stagnationCounter: nat
    /** `previousBestFitness`; `None` for its initial `Double.MAX_VALUE`. */
    var previousBestFitness: Option<real>

    /** The timing maps of the last replay. */
    function State(): Timing
      reads this`startTime, this`finishTime, this`vmAvailableTime
    {
      Timing(startTime, finishTime, vmAvailableTime)
    }

    /** What a non-empty schedule needs: a graph with at least one task, at least one
        VM, the topological order, and the normalisers computed from them. */
    ghost predicate Setting()
    {
      PsoSetting(graph, vms, topo) && |topo| > 0 && normalisers == NormalisersOf(graph, vms) && Known()
    }

    /** In a schedulable setting, `fitnessOf` is the fitness of a position and
        `timingOf` the replay it is measured on; `flight` is always `Fly` with `c1` and
        `c2`. */
    ghost predicate Known()
    {
      && Flies()
      && (forall position {:trigger PositionFitness(sqrt, graph, vms, topo, position)} ::
            PsoSetting(graph, vms, topo) && |topo| > 0 && |position| == |topo| ==>
              fitnessOf(position) == PositionFitness(sqrt, graph, vms, topo, position))
      && (forall position {:trigger PositionTiming(graph, vms, topo, position)} ::
            PsoSetting(graph, vms, topo) && |position| == |topo| ==>
              timingOf(position) == PositionTiming(graph, vms, topo, position))
    }

    /** `flight` is `Fly` with `c1` and `c2`. */
    ghost predicate Flies()
    {
      forall position, velocity, best, global, inertia, r1, r2, limit
        {:trigger Fly(position, velocity, best, global, inertia, c1, c2, r1, r2, limit)} ::
        flight(position, velocity, best, global, inertia, r1, r2, limit) ==
          Fly(position, velocity, best, global, inertia, c1, c2, r1, r2, limit)
    }

    /** A particle with one entry per task in each of its three sequences. */
    ghost predicate Shaped(p: Particle)
    {
      |p.position| == |p.velocity| == |p.bestPosition| == |topo|
    }

    /** A recorded personal best is the fitness of the best position. */
    ghost predicate BestRecorded(p: Particle)
    {
      p.bestFitness.Some? ==> p.bestFitness.value == fitnessOf(p.bestPosition)
    }

    /** A particle of the right shape inside `[0, n]` whose recorded best is true. */
    ghost predicate Sound(p: Particle)
    {
      Shaped(p) && InBounds(p, |vms| as real) && BestRecorded(p)
    }

    /** A sound global best with a recorded best, and a swarm of sound particles. */
    ghost predicate SwarmValid()
      reads this`swarm, this`globalBest
    {
      globalBest.Some? && Sound(globalBest.value) && globalBest.value.bestFitness.Some? && AllSound(swarm)
    }

    /** Every particle of `s` is sound. */
    ghost predicate AllSound(s: seq<Particle>)
    {
      forall i :: 0 <= i < |s| ==> Sound(s[i])
    }

    /** The state after the constructor: nothing timed yet, every VM free at 0, no
        swarm, an empty history and a zero stagnation counter. */
    ghost predicate Initial()
      reads this
    {
      && startTime == map[] && finishTime == map[] && vmAvailableTime == Zeros(|vms|)
      && swarm == [] && globalBest == None
      && convergenceHistory == [] && stagnationCounter == 0 && previousBestFitness == None
    }

    constructor (graph: Dag, vms: seq<Vm>, topo: seq<nat>, swarmSize: nat, maxIterations: nat,
                 initialInertia: real, c1: real, c2: real, random: Random, sqrt: real -> real)
      requires ValidVms(vms)
      ensures this.graph == graph && this.vms == vms && this.topo == topo
      ensures this.swarmSize == swarmSize && this.maxIterations == maxIterations
      ensures this.c1 == c1 && this.c2 == c2 && this.random == random && this.sqrt == sqrt
      ensures inertiaWeight == initialInertia && normalisers == NormalisersOf(graph, vms)
      ensures Known() && Initial()
    {
      this.graph := graph;
      this.vms := vms;
      this.topo := topo;
      this.swarmSize := swarmSize;
      this.maxIterations := maxIterations;
      this.inertiaWeight := initialInertia;
      this.c1 := c1;
      this.c2 := c2;
      this.random := random;
      this.sqrt := sqrt;
      this.fitnessOf := position =>
        if PsoSetting(graph, vms, topo) && |topo| > 0 && |position| == |topo|
        then PositionFitness(sqrt, graph, vms, topo, position) else 0.0;
      this.flight := (position, velocity, best, global, inertia, r1, r2, limit) =>
        Fly(position, velocity, best, global, inertia, c1, c2, r1, r2, limit);
      this.timingOf := position =>
        if PsoSetting(graph, vms, topo) && |position| == |topo|
        then PositionTiming(graph, vms, topo, position) else Timing(map[], map[], []);
      startTime := map[];
      finishTime := map[];
      convergenceHistory := [];
      stagnationCounter := 0;
      previousBestFitness := None;
      swarm := [];
      globalBest := None;
      var clocks := [];
      var v := 0;
      while v < |vms|
        invariant v <= |vms| && clocks == Zeros(v)
      {
        clocks := clocks + [0.0];
        v := v + 1;
      }
      vmAvailableTime := clocks;
      normalisers := NormalisersOf(graph, vms);
    }

    // ---------------------------------------------------------------- fitness

    /** `convertToMapping`: each dimension's position, floored and kept inside the VM
        list, names the VM of the task at that place of the order; the mapping is
        then replayed. */
    method ConvertToMapping(p: Particle) returns (mapping: map<nat, nat>)
      requires Setting() && Shaped(p) && |vmAvailableTime| == |vms|
      modifies this`startTime, this`finishTime, this`vmAvailableTime
      ensures mapping == MappingOf(topo, DecodeAll(p.position, |vms|))
      ensures Assigns(graph, |vms|, mapping)
      ensures State() == Replay(graph, vms, mapping, topo)
    {
      ghost var vmIdx := DecodeAll(p.position, |vms|);
      mapping := map[];
      var i := 0;
      while i < |topo|
        invariant i <= |topo| && mapping == MappingOf(topo[..i], vmIdx[..i])
        invariant |vmAvailableTime| == |vms|
      {
        MappingOfNext(topo, vmIdx, i);
        var vid := p.position[i].Floor;
        vid := if vid < |vms| - 1 then vid else |vms| - 1;
        vid := if 0 < vid then vid else 0;
        mapping := mapping[topo[i] := vid as nat];
        i := i + 1;
      }
      assert topo[..i] == topo && vmIdx[..i] == vmIdx;
      DecodedMappingAssigns(graph, vms, topo, p.position);
      UpdateTimings(mapping);
    }
    /** `updateTimings`: clear the maps, free every VM, and time the tasks in
        topological order. */
    method UpdateTimings(mapping: map<nat, nat>)
      requires WellFormed(graph) && ValidVms(vms) && Assigns(graph, |vms|, mapping) && InGraph(graph, topo)
      requires |vmAvailableTime| == |vms|
      modifies this`startTime, this`finishTime, this`vmAvailableTime
      ensures State() == Replay(graph, vms, mapping, topo)
    {
      startTime := map[];
      finishTime := map[];
      var v := 0;
      while v < |vms|
        invariant v <= |vms| == |vmAvailableTime|
        invariant forall u :: 0 <= u < v ==> vmAvailableTime[u] == 0.0
        invariant startTime == map[] && finishTime == map[]
      {
        vmAvailableTime := vmAvailableTime[v := 0.0];
        v := v + 1;
      }
      assert vmAvailableTime == Zeros(|vms|);
      assert topo[..0] == [];
      var i := 0;
      while i < |topo|
        invariant i <= |topo| && State() == Replay(graph, vms, mapping, topo[..i])
      {
        TimeTask(mapping, i);
        i := i + 1;
      }
      assert topo[..i] == topo;
    }

    /** One turn of `updateTimings`' loop: the `i`-th task of the order starts when it
        is ready and keeps its VM busy until it finishes. */
    method TimeTask(mapping: map<nat, nat>, i: nat)
      requires WellFormed(graph) && ValidVms(vms) && Assigns(graph, |vms|, mapping) && InGraph(graph, topo)
      requires i < |topo| && State() == Replay(graph, vms, mapping, topo[..i])
      modifies this`startTime, this`finishTime, this`vmAvailableTime
      ensures State() == Replay(graph, vms, mapping, topo[..i + 1])
    {
      ReplayNext(graph, vms, mapping, topo, i);
      var t := topo[i];
      var vm := mapping[t];
      var ready := ReadyTimeOf(mapping, t);
      var exec := graph.tasks[t].length as real / vms[vm].mips;
      startTime := startTime[t := ready];
      finishTime := finishTime[t := ready + exec];
      vmAvailableTime := vmAvailableTime[vm := ready + exec];
    }

    /** The inner loop of `updateTimings`: the VM's clock raised to the arrival of
        every predecessor's output. */
    method ReadyTimeOf(mapping: map<nat, nat>, t: nat) returns (ready: real)
      requires WellFormed(graph) && ValidVms(vms) && Assigns(graph, |vms|, mapping)
      requires t < |graph.tasks| && |vmAvailableTime| == |vms|
      ensures ready == ReadyTime(graph, mapping, State(), t)
    {
      var vm := mapping[t];
      var predecessors := Predecessors(graph.edges, t);
      PredecessorsInGraph(graph, t);
      ghost var terms := ArrivalTerms(graph, mapping, finishTime, predecessors, vm);
      ready := vmAvailableTime[vm];
      var k := 0;
      while k < |predecessors|
        invariant k <= |predecessors| && ready == MaxFrom(vmAvailableTime[vm], terms[..k])
      {
        MaxFromNext(vmAvailableTime[vm], terms, k);
        var pre := predecessors[k];
        var comm := if mapping[pre] == vm then 0.0 else graph.tasks[pre].outputSize as real / 1000000.0;
        ready := Max(ready, Get(finishTime, pre) + comm);
        k := k + 1;
      }
      assert terms[..k] == terms;
    }

    /** `calculateEnergy`: `power * exec` summed over the vertices. */
    method CalculateEnergy(mapping: map<nat, nat>) returns (total: real)
      requires ValidVms(vms) && Assigns(graph, |vms|, mapping)
      ensures total == Energy(graph, vms, mapping)
    {
      total := 0.0;
      var t := 0;
      while t < |graph.tasks|
        invariant t <= |graph.tasks| && total == EnergySum(graph, vms, mapping, t)
      {
        var vm := vms[mapping[t]];
        var exec := graph.tasks[t].length as real / vm.mips;
        var power := vm.mips * 0.0001 + 10.0;
        total := total + power * exec;
        t := t + 1;
      }
    }

    /** `calculateLoadBalance`: the root of the mean squared distance of the VM clocks
        from an even share of the makespan, which is recomputed on every turn. */
    method CalculateLoadBalance() returns (balance: real)
      requires |vms| > 0 && |vmAvailableTime| == |vms|
      ensures balance == LoadBalance(sqrt, vmAvailableTime, Makespan(State(), topo))
    {
      ghost var deviations := Deviations(vmAvailableTime, Makespan(State(), topo) / |vms| as real);
      var sum := 0.0;
      var v := 0;
      while v < |vms|
        invariant v <= |vms| && sum == Sum(deviations[..v])
      {
        SumNext(deviations, v);
        var busy := vmAvailableTime[v];
        var share := Makespan(State(), topo) / |vms| as real;
        sum := sum + Square(busy - share);
        v := v + 1;
      }
      assert deviations[..v] == deviations;
      balance := sqrt(sum / |vms| as real);
    }

    /** `evaluateFitness`: decode and replay the particle, then weigh the makespan,
        energy and imbalance of that replay into its fitness. The timing maps keep the
        replay. */
    method EvaluateFitness(p: Particle) returns (q: Particle)
      requires Setting() && Shaped(p) && |vmAvailableTime| == |vms|
      modifies this`startTime, this`finishTime, this`vmAvailableTime
      ensures q == p.(fitness := Some(fitnessOf(p.position)))
      ensures State() == timingOf(p.position) && |vmAvailableTime| == |vms|
    {
      var mapping := ConvertToMapping(p);
      var makespan := Makespan(State(), topo);
      var energy := CalculateEnergy(mapping);
      var balance := CalculateLoadBalance();
      NormalisersPositive(graph, vms);
      q := p.(fitness := Some(Fitness(makespan, energy, balance, normalisers)));
      assert q.fitness.value == PositionFitness(sqrt, graph, vms, topo, p.position);
      assert State() == PositionTiming(graph, vms, topo, p.position);
    }

    // ----------------------------------------------------------- initialisation

    /** A particle as `initializeSwarm` leaves it: inside the bounds, not yet
        evaluated, and its best position its position. */
    ghost predicate Fresh(p: Particle)
    {
      && Shaped(p) && InBounds(p, |vms| as real)
      && p.fitness == None && p.bestFitness == None && p.bestPosition == p.position
    }

    /** The start positions of particle `i`: in the first third they decode to the
        earliest-finish greedy's choices, in the second third to the least-loaded
        greedy's. */
    ghost predicate SeededPositions(positions: seq<real>, i: nat)
    {
      && ValidVms(vms) && |vms| > 0 && InGraph(graph, topo)
      && (i < swarmSize / 3 ==>
            DecodeAll(positions, |vms|) == GreedyRun(EarliestFinish, graph, vms, topo, |topo|).choices)
      && (swarmSize / 3 <= i < 2 * swarmSize / 3 ==>
            DecodeAll(positions, |vms|) == GreedyRun(LeastLoaded, graph, vms, topo, |topo|).choices)
    }

    /** `initializeSwarm`: `swarmSize` particles over the tasks in topological order;
        the first third seeded by the earliest-finish greedy, the second by the
        least-loaded greedy, the rest uniformly; every velocity drawn small, every best
        position the start position. The global best starts as an evaluated copy of
        the first particle, whose fitness is also its best fitness. */
    method InitializeSwarm()
      requires Setting() && 0 < swarmSize && |vmAvailableTime| == |vms|
      modifies this`swarm, this`globalBest, random`cursor
      modifies this`startTime, this`finishTime, this`vmAvailableTime
      ensures SwarmValid() && |swarm| == swarmSize && |vmAvailableTime| == |vms|
      ensures forall k :: 0 <= k < |swarm| ==> Fresh(swarm[k]) && SeededPositions(swarm[k].position, k)
      ensures random.cursor == old(random.cursor) + 2 * |topo| * swarmSize
      ensures globalBest == Some(swarm[0].(fitness := Some(fitnessOf(swarm[0].position)),
                                          bestFitness := Some(fitnessOf(swarm[0].position))))
    {
      BuildSwarm();
      var first := EvaluateFitness(swarm[0]);
      globalBest := Some(first.(bestFitness := first.fitness));
    }

    /** The particle loop of `initializeSwarm`. */
    method BuildSwarm()
      requires ValidVms(vms) && |vms| > 0 && InGraph(graph, topo)
      modifies this`swarm, random`cursor
      ensures |swarm| == swarmSize && random.cursor == old(random.cursor) + 2 * |topo| * swarmSize
      ensures forall k :: 0 <= k < |swarm| ==> Fresh(swarm[k]) && SeededPositions(swarm[k].position, k)
    {
      swarm := [];
      var i := 0;
      while i < swarmSize
        invariant i <= swarmSize && |swarm| == i && random.cursor == old(random.cursor) + 2 * |topo| * i
        invariant forall k :: 0 <= k < i ==> Fresh(swarm[k]) && SeededPositions(swarm[k].position, k)
      {
        var p := CreateParticle(i);
        swarm := swarm + [p];
        i := i + 1;
      }
    }

    /** One particle of `initializeSwarm`'s loop: `new Particle(tasks.size())`, its
        position by its third of the swarm, its velocity, and `System.arraycopy` of the
        position into the best position. */
    method CreateParticle(i: nat) returns (p: Particle)
      requires ValidVms(vms) && |vms| > 0 && InGraph(graph, topo)
      modifies random`cursor
      ensures Fresh(p) && SeededPositions(p.position, i)
      ensures random.cursor == old(random.cursor) + 2 * |topo|
    {
      var position := SeedPosition(i);
      var velocity := InitVelocity();
      p := Particle(position, velocity, position, None, None);
    }

    /** The start value of dimension `d` of particle `i` for the draw `draw`: the greedy
        choice jittered by `nextDouble() * 0.05` for the first two thirds of the swarm,
        `nextDouble() * n` for the rest. */
    ghost function SeedValue(i: nat, d: nat, draw: real): real
      requires ValidVms(vms) && |vms| > 0 && InGraph(graph, topo) && d < |topo|
      reads this
    {
      if i < swarmSize / 3 then JitteredPosition(GreedyRun(EarliestFinish, graph, vms, topo, |topo|).choices[d], draw)
      else if i < 2 * swarmSize / 3 then JitteredPosition(GreedyRun(LeastLoaded, graph, vms, topo, |topo|).choices[d], draw)
      else UniformPosition(draw, |vms|)
    }

    /** The start position of particle `i`: a greedy seeding for the first two thirds
        of the swarm, a uniform draw for the rest. */
    method SeedPosition(i: nat) returns (position: seq<real>)
      requires ValidVms(vms) && |vms| > 0 && InGraph(graph, topo)
      modifies random`cursor
      ensures |position| == |topo| && SeededPositions(position, i)
      ensures forall d :: 0 <= d < |topo| ==> position[d] == SeedValue(i, d, DrawAt(old(random.cursor), d))
      ensures forall d :: 0 <= d < |topo| ==> 0.0 <= position[d] < |vms| as real
      ensures random.cursor == old(random.cursor) + |topo|
    {
      if i < swarmSize / 3 {
        position := InitHeuristic(EarliestFinish);
      } else if i < 2 * swarmSize / 3 {
        position := InitHeuristic(LeastLoaded);
      } else {
        position := InitUniform();
      }
    }

    /** `initEarliestFinishHeuristic` and `initLoadBalanceHeuristic`: each task, in
        topological order, goes to the VM the heuristic's scan picks, at a position
        jittered by `nextDouble() * 0.05` above that VM's index. */
    method InitHeuristic(h: Heuristic) returns (position: seq<real>)
      requires ValidVms(vms) && |vms| > 0 && InGraph(graph, topo)
      modifies random`cursor
      ensures |position| == |topo|
      ensures DecodeAll(position, |vms|) == GreedyRun(h, graph, vms, topo, |topo|).choices
      ensures forall d :: 0 <= d < |topo| ==>
                position[d] == JitteredPosition(GreedyRun(h, graph, vms, topo, |topo|).choices[d], DrawAt(old(random.cursor), d))
      ensures forall d :: 0 <= d < |topo| ==> 0.0 <= position[d] < |vms| as real
      ensures random.cursor == old(random.cursor) + |topo|
    {
      ghost var run := (k: nat) => if k <= |topo| then GreedyRun(h, graph, vms, topo, k) else Greedy([], []);
      ghost var chosen;
      position, chosen := SeedTasks(h, run);
      JitteredPositionsDecode(position, chosen, |vms|);
    }

    /** `run` follows heuristic `h` over the topological order: its `k`-th value is the
        state of the greedy run after the first `k` tasks. */
    ghost predicate Follows(run: nat -> Greedy, h: Heuristic)
    {
      && ValidVms(vms) && |vms| > 0 && InGraph(graph, topo)
      && forall k: nat {:trigger GreedyRun(h, graph, vms, topo, k)} ::
           k <= |topo| ==> run(k) == GreedyRun(h, graph, vms, topo, k)
    }

    /** The loop of a heuristic: every task placed by the greedy scan, its position
        just above the chosen VM's index. */
    method SeedTasks(h: Heuristic, ghost run: nat -> Greedy) returns (position: seq<real>, ghost chosen: seq<nat>)
      requires Follows(run, h)
      modifies random`cursor
      ensures chosen == run(|topo|).choices && |chosen| == |topo| == |position|
      ensures forall d :: 0 <= d < |topo| ==> NearIndex(position[d], chosen[d])
      ensures forall d :: 0 <= d < |topo| ==> position[d] == JitteredPosition(chosen[d], DrawAt(old(random.cursor), d))
      ensures random.cursor == old(random.cursor) + |topo|
    {
      var busy := Zeros(|vms|);
      position := [];
      chosen := [];
      assert run(0) == GreedyRun(h, graph, vms, topo, 0);
      var i := 0;
      while i < |topo|
        invariant i <= |topo| && |chosen| == |position| == i && |busy| == |vms| && run(i) == Greedy(chosen, busy)
        invariant forall d :: 0 <= d < i ==> NearIndex(position[d], chosen[d])
        invariant forall d :: 0 <= d < i ==> position[d] == JitteredPosition(chosen[d], DrawAt(old(random.cursor), d))
        invariant random.cursor == old(random.cursor) + i
      {
        var index, next, x := SeedTask(h, run, i, busy, chosen);
        assert x == JitteredPosition(index, DrawAt(old(random.cursor), i));
        busy := next;
        chosen := chosen + [index];
        position := position + [x];
        i := i + 1;
      }
    }

    /** One turn of a heuristic's loop: place task `topo[i]` and draw its jittered
        position. */
    method SeedTask(h: Heuristic, ghost run: nat -> Greedy, i: nat, busy: seq<real>, ghost chosen: seq<nat>)
      returns (index: nat, next: seq<real>, position: real)
      requires Follows(run, h) && i < |topo| && |busy| == |vms|
      requires run(i) == Greedy(chosen, busy)
      modifies random`cursor
      ensures run(i + 1) == Greedy(chosen + [index], next) && |next| == |vms|
      ensures NearIndex(position, index) && position == JitteredPosition(index, DrawAt(old(random.cursor), 0))
      ensures random.cursor == old(random.cursor) + 1
    {
      assert run(i) == GreedyRun(h, graph, vms, topo, i);
      assert run(i + 1) == GreedyRun(h, graph, vms, topo, i + 1);
      index, next := PlaceTask(h, topo[i], busy, chosen);
      var draw := random.NextDouble();
      position := JitteredPosition(index, draw);
      JitteredChoice(index, draw, |vms|);
    }
    /** One task of either heuristic: the VM the scan picks, and that VM's finish time
        (earliest finish: the finish time found) or load (least loaded: load plus the
        execution time) afterwards; both are the VM's busy time plus the task, so the
        call takes one step of the run the seeding follows, from any choices made so
        far (`chosen`, which the code does not keep). */
    method PlaceTask(h: Heuristic, t: nat, busy: seq<real>, ghost chosen: seq<nat>) returns (index: nat, next: seq<real>)
      requires ValidVms(vms) && |vms| > 0 && |busy| == |vms| && t < |graph.tasks|
      ensures GreedyStep(h, graph.tasks[t], vms, Greedy(chosen, busy)) == Greedy(chosen + [index], next)
    {
      var best;
      index, best := FirstCheapestVm(h, t, busy);
      if h == EarliestFinish {
        next := busy[index := best];
      } else {
        next := busy[index := busy[index] + ExecutionTime(graph.tasks[t], vms[index])];
      }
    }

    /** The scan of both heuristics: the first VM whose value is strictly below the
        best so far, from `Double.MAX_VALUE`, together with that value. */
    method FirstCheapestVm(h: Heuristic, t: nat, busy: seq<real>) returns (index: nat, best: real)
      requires ValidVms(vms) && |vms| > 0 && |busy| == |vms| && t < |graph.tasks|
      ensures index == ArgMinFirst(Candidates(h, graph.tasks[t], vms, busy))
      ensures best == Candidates(h, graph.tasks[t], vms, busy)[index]
    {
      ghost var costs := Candidates(h, graph.tasks[t], vms, busy);
      var bestSoFar: Option<real> := None;
      index := 0;
      var v := 0;
      while v < |vms|
        invariant v <= |vms|
        invariant v == 0 ==> bestSoFar == None && index == 0
        invariant 0 < v ==> index == ArgMinFirst(costs[..v]) && bestSoFar == Some(costs[index])
      {
        var candidate := if h == EarliestFinish then busy[v] + ExecutionTime(graph.tasks[t], vms[v])
                         else busy[v];
        if 0 < v {
          ArgMinFirstNext(costs, v);
        }
        if bestSoFar.None? || candidate < bestSoFar.value {
          bestSoFar := Some(candidate);
          index := v;
        }
        v := v + 1;
      }
      assert costs[..v] == costs;
      best := bestSoFar.value;
    }

    /** The uniform third: `nextDouble() * n` in every dimension. */
    method InitUniform() returns (position: seq<real>)
      requires |vms| > 0
      modifies random`cursor
      ensures |position| == |topo|
      ensures forall d :: 0 <= d < |topo| ==> position[d] == UniformPosition(DrawAt(old(random.cursor), d), |vms|)
      ensures forall d :: 0 <= d < |topo| ==> 0.0 <= position[d] < |vms| as real
      ensures random.cursor == old(random.cursor) + |topo|
    {
      position := [];
      var d := 0;
      while d < |topo|
        invariant d <= |topo| && |position| == d && random.cursor == old(random.cursor) + d
        invariant forall e :: 0 <= e < d ==> position[e] == UniformPosition(DrawAt(old(random.cursor), e), |vms|)
        invariant forall e :: 0 <= e < d ==> 0.0 <= position[e] < |vms| as real
      {
        var draw := random.NextDouble();
        UniformPositionInRange(draw, |vms|);
        position := position + [UniformPosition(draw, |vms|)];
        d := d + 1;
      }
    }

    /** Every velocity: `(nextDouble() - 0.5) * n * 0.2`. */
    method InitVelocity() returns (velocity: seq<real>)
      requires |vms| > 0
      modifies random`cursor
      ensures |velocity| == |topo|
      ensures forall d :: 0 <= d < |topo| ==> velocity[d] == SeededVelocity(DrawAt(old(random.cursor), d), |vms|)
      ensures forall d :: 0 <= d < |topo| ==> -(|vms| as real) <= velocity[d] <= |vms| as real
      ensures random.cursor == old(random.cursor) + |topo|
    {
      velocity := [];
      var d := 0;
      while d < |topo|
        invariant d <= |topo| && |velocity| == d && random.cursor == old(random.cursor) + d
        invariant forall e :: 0 <= e < d ==> velocity[e] == SeededVelocity(DrawAt(old(random.cursor), e), |vms|)
        invariant forall e :: 0 <= e < d ==> -(|vms| as real) <= velocity[e] <= |vms| as real
      {
        var draw := random.NextDouble();
        InitialVelocityInRange(draw, |vms|);
        velocity := velocity + [SeededVelocity(draw, |vms|)];
        d := d + 1;
      }
    }

    // --------------------------------------------------------------- iterations

    /** A particle whose recorded best, if any, is no better than the global best. */
    ghost predicate Behind(p: Particle)
      reads this`globalBest
    {
      globalBest.Some? && p.bestFitness.Some? && globalBest.value.bestFitness.Some? ==>
        globalBest.value.bestFitness.value <= p.bestFitness.value
    }

    /** An evaluated particle whose recorded best beats the global best only when it
        was recorded from the particle's current position. */
    ghost predicate Trails(p: Particle)
      reads this`globalBest
    {
      && p.fitness.Some? && p.bestFitness.Some? && globalBest.Some? && globalBest.value.bestFitness.Some?
      && (p.bestFitness.value < globalBest.value.bestFitness.value ==> p.position == p.bestPosition)
    }

    /** The global best is at least as good as every particle's best, and it sits at
        its own best position (the global best is never moved). */
    ghost predicate Leads()
      reads this`swarm, this`globalBest
    {
      && globalBest.Some?
      && (forall i :: 0 <= i < |swarm| ==> Behind(swarm[i]))
      && globalBest.value.position == globalBest.value.bestPosition
    }

    /** What holds after `iter` iterations of `schedule`'s loop: the swarm is sound,
        the global best leads, `convergenceHistory` has gained one entry per iteration
        since position `base` and those entries never increase, the last being the
        global best's fitness, which is also `previousBestFitness`; the stagnation
        counter is at most 30 once an iteration has run. */
    ghost predicate Between(iter: nat, base: nat)
      reads this`swarm, this`globalBest, this`convergenceHistory, this`previousBestFitness
      reads this`stagnationCounter
    {
      && SwarmValid() && 0 < |swarm| == swarmSize && Leads()
      && |convergenceHistory| == base + iter && NonIncreasing(convergenceHistory[base..])
      && (0 < iter ==> convergenceHistory[base + iter - 1] == globalBest.value.bestFitness.value
                       && previousBestFitness == globalBest.value.bestFitness
                       && stagnationCounter <= StagnationLimit)
    }

    /** `schedule`: an empty graph gives the empty mapping; otherwise the swarm is
        initialised and flown for `maxIterations` iterations, and the global best's
        position is decoded and replayed. The returned mapping is that of the global
        best's best position, whose fitness is the last entry of the history and no
        worse than any particle's best; the timing maps hold its replay. */
    method Schedule() returns (mapping: map<nat, nat>)
      requires WellFormed(graph) && ValidVms(vms) && IsTopologicalOrder(graph, topo)
      requires Known() && normalisers == NormalisersOf(graph, vms) && |vmAvailableTime| == |vms|
      requires |graph.tasks| > 0 ==> |vms| > 0 && 0 < swarmSize && maxIterations != 1
      modifies this, random`cursor
      ensures |graph.tasks| == 0 ==> mapping == map[] && unchanged(this)
      ensures |graph.tasks| > 0 ==>
                && Between(maxIterations, |old(convergenceHistory)|)
                && convergenceHistory[..|old(convergenceHistory)|] == old(convergenceHistory)
                && mapping == MappingOf(topo, DecodeAll(globalBest.value.bestPosition, |vms|))
                && Assigns(graph, |vms|, mapping)
                && globalBest.value.bestFitness == Some(fitnessOf(globalBest.value.bestPosition))
                && State() == Replay(graph, vms, mapping, topo)
    {
      if |graph.tasks| == 0 {
        return map[];
      }
      Search();
      mapping := ConvertToMapping(globalBest.value);
    }

    /** The part of `schedule` between the empty-graph check and the decoding: the
        swarm's initialisation and the `maxIterations` iterations of the loop. */
    method Search()
      requires Setting() && |vms| > 0 && 0 < swarmSize && maxIterations != 1
      requires |vmAvailableTime| == |vms|
      modifies this`swarm, this`globalBest, this`convergenceHistory, this`stagnationCounter
      modifies this`previousBestFitness, this`inertiaWeight, this`startTime, this`finishTime, this`vmAvailableTime
      modifies random`cursor
      ensures Between(maxIterations, |old(convergenceHistory)|) && |vmAvailableTime| == |vms|
      ensures convergenceHistory[..|old(convergenceHistory)|] == old(convergenceHistory)
    {
      InitializeSwarm();
      ghost var base := |convergenceHistory|;
      assert convergenceHistory[base..] == [];
      var iter := 0;
      while iter < maxIterations
        invariant iter <= maxIterations && Between(iter, base) && |vmAvailableTime| == |vms|
        invariant convergenceHistory[..base] == old(convergenceHistory)
      {
        Iterate(iter, base);
        iter := iter + 1;
      }
    }

    /** One iteration of `schedule`'s loop. */
    method Iterate(iter: nat, ghost base: nat)
      requires Setting() && Between(iter, base) && iter < maxIterations && maxIterations != 1
      requires |vmAvailableTime| == |vms|
      modifies this`swarm, this`globalBest, this`convergenceHistory, this`stagnationCounter
      modifies this`previousBestFitness, this`inertiaWeight, this`startTime, this`finishTime, this`vmAvailableTime
      modifies random`cursor
      ensures Between(iter + 1, base) && |vmAvailableTime| == |vms|
      ensures convergenceHistory[..base + iter] == old(convergenceHistory)
      ensures inertiaWeight == Inertia(iter, maxIterations)
    {
      Assess(iter, base);
      inertiaWeight := Inertia(iter, maxIterations);
      MoveSwarm();
    }

    /** The part of an iteration before the particles move: evaluation, the global
        best, the history, the stagnation count and, on stagnation, the mutation. */
    method Assess(iter: nat, ghost base: nat)
      requires Setting() && Between(iter, base) && |vmAvailableTime| == |vms|
      modifies this`swarm, this`globalBest, this`convergenceHistory, this`stagnationCounter
      modifies this`previousBestFitness, this`startTime, this`finishTime, this`vmAvailableTime
      modifies random`cursor
      ensures Between(iter + 1, base) && |vmAvailableTime| == |vms|
      ensures convergenceHistory[..base + iter] == old(convergenceHistory)
    {
      EvaluateAndLead();
      RecordProgress(iter, base);
      if stagnationCounter > StagnationLimit {
        var worst := MutateWorstParticles();
        stagnationCounter := 0;
      }
    }

    /** The first loop of an iteration and the update of the global best after it. */
    method EvaluateAndLead()
      requires Setting() && SwarmValid() && Leads() && |vmAvailableTime| == |vms| && 0 < |swarm|
      modifies this`swarm, this`globalBest, this`startTime, this`finishTime, this`vmAvailableTime
      ensures SwarmValid() && Leads() && |swarm| == old(|swarm|) && |vmAvailableTime| == |vms|
      ensures forall i :: 0 <= i < |swarm| ==> swarm[i].fitness.Some?
      ensures globalBest.value.bestFitness.value <= old(globalBest.value.bestFitness.value)
    {
      EvaluateSwarm();
      assert forall i :: 0 <= i < |swarm| ==> swarm[i].fitness.Some? && swarm[i].bestFitness.Some?;
      var bestInSwarm := UpdateGlobalBest();
    }

    /** `b` is `a` with every best fitness kept. */
    ghost predicate BestsKept(a: seq<Particle>, b: seq<Particle>)
    {
      |a| == |b| && forall i :: 0 <= i < |a| ==> b[i].bestFitness == a[i].bestFitness
    }

    /** The particle after the first loop of an iteration has visited it: evaluated,
        and its best replaced when the new fitness is strictly smaller. */
    ghost function Evaluated(p: Particle): Particle
    {
      var f := fitnessOf(p.position);
      p.(fitness := Some(f), bestFitness := Improved(f, p.bestFitness),
         bestPosition := if Improves(f, p.bestFitness) then p.position else p.bestPosition)
    }

    /** The first loop of an iteration, particle after particle. */
    method EvaluateSwarm()
      requires Setting() && SwarmValid() && Leads() && |vmAvailableTime| == |vms|
      modifies this`swarm, this`startTime, this`finishTime, this`vmAvailableTime
      ensures SwarmValid() && |vmAvailableTime| == |vms| && |swarm| == old(|swarm|)
      ensures forall i :: 0 <= i < |swarm| ==> swarm[i] == Evaluated(old(swarm[i])) && Trails(swarm[i])
    {
      var k := 0;
      while k < |swarm|
        invariant k <= |swarm| == old(|swarm|) && SwarmValid() && |vmAvailableTime| == |vms|
        invariant forall i :: 0 <= i < k ==> swarm[i] == Evaluated(old(swarm[i])) && Trails(swarm[i])
        invariant forall i :: k <= i < |swarm| ==> swarm[i] == old(swarm[i])
      {
        var q := EvaluateParticle(swarm[k]);
        swarm := swarm[k := q];
        k := k + 1;
      }
    }

    /** One particle of the first loop: `evaluateFitness(p)`, then on
        `p.fitness < p.bestFitness` the best fitness and `System.arraycopy` of the
        position into the best position. */
    method EvaluateParticle(p: Particle) returns (q: Particle)
      requires Setting() && Sound(p) && |vmAvailableTime| == |vms|
      requires globalBest.Some? && globalBest.value.bestFitness.Some? && Behind(p)
      modifies this`startTime, this`finishTime, this`vmAvailableTime
      ensures q == Evaluated(p) && Sound(q) && Trails(q) && |vmAvailableTime| == |vms|
    {
      q := EvaluateFitness(p);
      if Improves(q.fitness.value, q.bestFitness) {
        q := q.(bestFitness := q.fitness, bestPosition := q.position);
      }
      ImprovedIsMinimum(fitnessOf(p.position), p.bestFitness);
    }

    /** `Collections.min` over the particles' best fitnesses (the first smallest), and
        the global best replaced by a copy of that particle when it is strictly
        better. */
    method UpdateGlobalBest() returns (bestInSwarm: nat)
      requires SwarmValid() && 0 < |swarm| && (forall i :: 0 <= i < |swarm| ==> Trails(swarm[i]))
      requires forall i :: 0 <= i < |swarm| ==> swarm[i].bestFitness.Some?
      requires globalBest.value.position == globalBest.value.bestPosition
      modifies this`globalBest
      ensures SwarmValid() && Leads()
      ensures bestInSwarm < |swarm|
      ensures forall j :: 0 <= j < |swarm| ==> swarm[bestInSwarm].bestFitness.value <= swarm[j].bestFitness.value
      ensures forall j :: 0 <= j < bestInSwarm ==> swarm[bestInSwarm].bestFitness.value < swarm[j].bestFitness.value
      ensures globalBest == if swarm[bestInSwarm].bestFitness.value < old(globalBest.value.bestFitness.value)
                            then Some(swarm[bestInSwarm]) else old(globalBest)
      ensures globalBest.value.bestFitness.value <= old(globalBest.value.bestFitness.value)
    {
      bestInSwarm := FirstBestParticle();
      if swarm[bestInSwarm].bestFitness.value < globalBest.value.bestFitness.value {
        globalBest := Some(swarm[bestInSwarm]);
      }
    }

    /** The scan of `Collections.min`: a later particle wins only when strictly
        better. */
    method FirstBestParticle() returns (b: nat)
      requires 0 < |swarm| && forall i :: 0 <= i < |swarm| ==> swarm[i].bestFitness.Some?
      ensures b < |swarm|
      ensures forall j :: 0 <= j < |swarm| ==> swarm[b].bestFitness.value <= swarm[j].bestFitness.value
      ensures forall j :: 0 <= j < b ==> swarm[b].bestFitness.value < swarm[j].bestFitness.value
    {
      b := 0;
      var v := 1;
      while v < |swarm|
        invariant 1 <= v <= |swarm| && b < v
        invariant forall j :: 0 <= j < v ==> swarm[b].bestFitness.value <= swarm[j].bestFitness.value
        invariant forall j :: 0 <= j < b ==> swarm[b].bestFitness.value < swarm[j].bestFitness.value
      {
        if swarm[v].bestFitness.value < swarm[b].bestFitness.value {
          b := v;
        }
        v := v + 1;
      }
    }

    /** `convergenceHistory.add(globalBest.bestFitness)` and the stagnation count:
        one more when the best moved by less than 1e-6, else 0; the best becomes the
        previous best. */
    method RecordProgress(ghost iter: nat, ghost base: nat)
      requires globalBest.Some? && globalBest.value.bestFitness.Some?
      requires |convergenceHistory| == base + iter && NonIncreasing(convergenceHistory[base..])
      requires 0 < iter ==> globalBest.value.bestFitness.value <= convergenceHistory[base + iter - 1]
      modifies this`convergenceHistory, this`stagnationCounter, this`previousBestFitness
      ensures convergenceHistory == old(convergenceHistory) + [globalBest.value.bestFitness.value]
      ensures NonIncreasing(convergenceHistory[base..])
      ensures stagnationCounter == StagnationCount(old(previousBestFitness), globalBest.value.bestFitness.value, old(stagnationCounter))
      ensures previousBestFitness == globalBest.value.bestFitness
    {
      var best := globalBest.value.bestFitness.value;
      NonIncreasingAppend(convergenceHistory[base..], best);
      assert convergenceHistory[base..] + [best] == (convergenceHistory + [best])[base..];
      convergenceHistory := convergenceHistory + [best];
      if previousBestFitness.Some? && Abs(previousBestFitness.value - best) < StagnationTolerance {
        stagnationCounter := stagnationCounter + 1;
      } else {
        stagnationCounter := 0;
      }
      previousBestFitness := Some(best);
    }

    /** Particle `p` after `mutateWorstParticles` re-drew it with the draws from
        `start` on: `nextInt(length)` picks the dimension and `nextDouble() * n` its
        new position. */
    ghost function Mutated(p: Particle, start: nat): Particle
      requires 0 < |p.position|
    {
      p.(position := p.position[BoundedDraw(random.stream(start), |p.position|) :=
                                  UniformPosition(DrawAt(start, 1), |vms|)])
    }

    /** Swarm `s` after the first `k` particles of `worst` were re-drawn in that order,
        two draws each from `start` on. */
    ghost function MutatedPrefix(s: seq<Particle>, worst: seq<nat>, k: nat, start: nat): (r: seq<Particle>)
      requires 0 < |topo| && k <= |worst| && forall j :: 0 <= j < |worst| ==> worst[j] < |s|
      requires forall i :: 0 <= i < |s| ==> |s[i].position| == |topo|
      ensures |r| == |s| && forall i :: 0 <= i < |s| ==> |r[i].position| == |topo|
    {
      if k == 0 then s
      else
        var prev := MutatedPrefix(s, worst, k - 1, start);
        prev[worst[k - 1] := Mutated(prev[worst[k - 1]], start + 2 * (k - 1))]
    }

    /** A re-drawn particle stays sound and keeps its best fitness. */
    lemma MutatedSound(p: Particle, start: nat)
      requires Sound(p) && 0 < |topo| && |vms| > 0
      ensures Sound(Mutated(p, start)) && Mutated(p, start).bestFitness == p.bestFitness
    {
      UniformPositionInRange(DrawAt(start, 1), |vms|);
    }

    /** Re-drawing keeps a sound swarm sound and every best fitness as it was. */
    lemma {:induction false} MutatedPrefixSound(s: seq<Particle>, worst: seq<nat>, k: nat, start: nat)
      requires 0 < |topo| && |vms| > 0 && k <= |worst| && forall j :: 0 <= j < |worst| ==> worst[j] < |s|
      requires AllSound(s)
      ensures AllSound(MutatedPrefix(s, worst, k, start)) && BestsKept(s, MutatedPrefix(s, worst, k, start))
    {
      if k > 0 {
        MutatedPrefixSound(s, worst, k - 1, start);
        var prev := MutatedPrefix(s, worst, k - 1, start);
        MutatedSound(prev[worst[k - 1]], start + 2 * (k - 1));
      }
    }

    /** A particle whose index was not chosen is left as it was. */
    lemma {:induction false} MutatedPrefixKeeps(s: seq<Particle>, worst: seq<nat>, k: nat, start: nat, i: nat)
      requires 0 < |topo| && k <= |worst| && forall j :: 0 <= j < |worst| ==> worst[j] < |s|
      requires forall i :: 0 <= i < |s| ==> |s[i].position| == |topo|
      requires i < |s| && i !in worst[..k]
      ensures MutatedPrefix(s, worst, k, start)[i] == s[i]
    {
      if k > 0 {
        assert worst[..k] == worst[..k - 1] + [worst[k - 1]];
        MutatedPrefixKeeps(s, worst, k - 1, start, i);
      }
    }

    /** With different indices, the `j`-th chosen particle is re-drawn once, with its
        own two draws. */
    lemma {:induction false} MutatedPrefixParticle(s: seq<Particle>, worst: seq<nat>, k: nat, start: nat, j: nat)
      requires 0 < |topo| && k <= |worst| && Distinct(worst) && forall j :: 0 <= j < |worst| ==> worst[j] < |s|
      requires forall i :: 0 <= i < |s| ==> |s[i].position| == |topo|
      requires j < k
      ensures MutatedPrefix(s, worst, k, start)[worst[j]] == Mutated(s[worst[j]], start + 2 * j)
    {
      if j < k - 1 {
        assert worst[j] != worst[k - 1];
        MutatedPrefixParticle(s, worst, k - 1, start, j);
      } else {
        var front := worst[..k - 1];
        assert worst[j] !in front by {
          forall l | 0 <= l < |front| ensures front[l] != worst[j] {
            assert front[l] == worst[l];
          }
        }
        MutatedPrefixKeeps(s, worst, k - 1, start, worst[j]);
      }
    }

    /** `mutateWorstParticles`: the particles sorted by fitness, largest first, and
        the first `swarmSize / 5` of them each get one dimension re-drawn, in that
        order; `worst` are their indices. The new swarm is `MutatedPrefix` of the old
        one, whose particles `MutatedSwarm` describes. */
    method MutateWorstParticles() returns (worst: seq<nat>)
      requires SwarmValid() && |swarm| == swarmSize && 0 < |topo| && |vms| > 0
      requires forall i :: 0 <= i < |swarm| ==> swarm[i].fitness.Some?
      modifies this`swarm, random`cursor
      ensures AllSound(swarm) && BestsKept(old(swarm), swarm) && random.cursor == old(random.cursor) + 2 * |worst|
      ensures |worst| == swarmSize / 5 && Distinct(worst)
      ensures forall k :: 0 <= k < |worst| ==> worst[k] < |old(swarm)|
      ensures forall k, j :: 0 <= k < |worst| && 0 <= j < |swarm| && j !in worst ==>
                old(swarm[j].fitness.value) <= old(swarm[worst[k]].fitness.value)
      ensures swarm == MutatedPrefix(old(swarm), worst, |worst|, old(random.cursor))
    {
      worst := ChooseWorst();
      swarm := MutateChosen(swarm, worst);
      MutatedSwarm(old(swarm), worst, old(random.cursor));
    }

    /** The sort of `mutateWorstParticles`: the indices of the `swarmSize / 5`
        particles of largest fitness. */
    method ChooseWorst() returns (worst: seq<nat>)
      requires |swarm| == swarmSize && forall i :: 0 <= i < |swarm| ==> swarm[i].fitness.Some?
      ensures |worst| == swarmSize / 5 && Distinct(worst)
      ensures forall k :: 0 <= k < |worst| ==> worst[k] < |swarm|
      ensures forall k, j :: 0 <= k < |worst| && 0 <= j < |swarm| && j !in worst ==>
                swarm[j].fitness.value <= swarm[worst[k]].fitness.value
    {
      var fitness := FitnessValues();
      worst := WorstParticles(fitness, swarmSize / 5);
      WorstParticlesAreWorst(fitness, swarmSize / 5);
    }

    /** The swarm after all chosen particles were re-drawn: sound, with every best
        fitness kept, each chosen particle re-drawn with its own two draws and every
        other particle as it was. */
    lemma MutatedSwarm(s: seq<Particle>, worst: seq<nat>, start: nat)
      requires 0 < |topo| && |vms| > 0 && AllSound(s) && Distinct(worst)
      requires forall j :: 0 <= j < |worst| ==> worst[j] < |s|
      ensures var r := MutatedPrefix(s, worst, |worst|, start);
              && AllSound(r) && BestsKept(s, r)
              && (forall k :: 0 <= k < |worst| ==> r[worst[k]] == Mutated(s[worst[k]], start + 2 * k))
              && (forall i :: 0 <= i < |s| && i !in worst ==> r[i] == s[i])
    {
      MutatedPrefixSound(s, worst, |worst|, start);
      var r := MutatedPrefix(s, worst, |worst|, start);
      forall k | 0 <= k < |worst| ensures r[worst[k]] == Mutated(s[worst[k]], start + 2 * k) {
        MutatedPrefixParticle(s, worst, |worst|, start, k);
      }
      assert worst[..|worst|] == worst;
      forall i | 0 <= i < |s| && i !in worst ensures r[i] == s[i] {
        MutatedPrefixKeeps(s, worst, |worst|, start, i);
      }
    }

    /** The loop of `mutateWorstParticles`' `forEach`: the chosen particles of `s`
        re-drawn in order. */
    method MutateChosen(s: seq<Particle>, worst: seq<nat>) returns (r: seq<Particle>)
      requires AllSound(s) && 0 < |topo| && |vms| > 0 && forall k :: 0 <= k < |worst| ==> worst[k] < |s|
      modifies random`cursor
      ensures r == MutatedPrefix(s, worst, |worst|, old(random.cursor))
      ensures random.cursor == old(random.cursor) + 2 * |worst|
    {
      r := s;
      var k := 0;
      while k < |worst|
        invariant k <= |worst| && random.cursor == old(random.cursor) + 2 * k
        invariant r == MutatedPrefix(s, worst, k, old(random.cursor))
      {
        r := MutateNext(s, worst, k, old(random.cursor), r);
        k := k + 1;
      }
    }

    /** One turn of `MutateChosen`: the `k`-th chosen particle re-drawn. */
    method MutateNext(s: seq<Particle>, worst: seq<nat>, k: nat, ghost start: nat, r: seq<Particle>)
      returns (r': seq<Particle>)
      requires AllSound(s) && 0 < |topo| && |vms| > 0 && forall j :: 0 <= j < |worst| ==> worst[j] < |s|
      requires k < |worst| && random.cursor == start + 2 * k && r == MutatedPrefix(s, worst, k, start)
      modifies random`cursor
      ensures r' == MutatedPrefix(s, worst, k + 1, start) && random.cursor == start + 2 * (k + 1)
    {
      MutatedPrefixSound(s, worst, k, start);
      var q := MutateParticle(r[worst[k]]);
      r' := r[worst[k] := q];
    }

    /** The fitness of every particle, in swarm order. */
    method FitnessValues() returns (fitness: seq<real>)
      requires forall i :: 0 <= i < |swarm| ==> swarm[i].fitness.Some?
      ensures |fitness| == |swarm| && forall i :: 0 <= i < |swarm| ==> fitness[i] == swarm[i].fitness.value
    {
      fitness := [];
      var i := 0;
      while i < |swarm|
        invariant i <= |swarm| && |fitness| == i
        invariant forall j :: 0 <= j < i ==> fitness[j] == swarm[j].fitness.value
      {
        fitness := fitness + [swarm[i].fitness.value];
        i := i + 1;
      }
    }

    /** One mutated particle: `nextInt(length)` picks the dimension and
        `nextDouble() * n` its new position. */
    method MutateParticle(p: Particle) returns (q: Particle)
      requires Sound(p) && 0 < |topo| && |vms| > 0
      modifies random`cursor
      ensures Sound(q) && q == Mutated(p, old(random.cursor)) && random.cursor == old(random.cursor) + 2
    {
      var d := random.NextInt(|p.position|);
      var draw := random.NextDouble();
      UniformPositionInRange(draw, |vms|);
      q := p.(position := p.position[d := UniformPosition(draw, |vms|)]);
    }

    /** The `slot`-th `nextDouble()` after the generator stood at `start`. */
    function DrawAt(start: nat, slot: nat): real
    {
      UnitDraw(random.stream(start + slot))
    }

    /** Particle `after` is `before` flown towards `global` with inertia `inertia` and
        the draws from `start` on: per dimension `r1` then `r2`, the velocity rule, the
        clamp and the reflection. Its best position and fitnesses are kept. */
    ghost predicate Flew(after: Particle, before: Particle, global: seq<real>, inertia: real, start: nat)
    {
      && |after.position| == |after.velocity| == |before.position| == |before.velocity| == |before.bestPosition| == |global|
      && after.bestPosition == before.bestPosition && after.fitness == before.fitness
      && after.bestFitness == before.bestFitness
      && forall d :: 0 <= d < |global| ==>
           Motion(after.position[d], after.velocity[d]) ==
             flight(before.position[d], before.velocity[d], before.bestPosition[d], global[d], inertia,
                    DrawAt(start, 2 * d), DrawAt(start, 2 * d + 1), |vms| as real)
    }

    /** The second loop of an iteration: every particle flown towards the global best,
        particle after particle, dimension after dimension, each particle taking two
        draws per dimension. */
    method MoveSwarm()
      requires Flies() && SwarmValid()
      modifies this`swarm, random`cursor
      ensures SwarmValid() && BestsKept(old(swarm), swarm)
      ensures random.cursor == old(random.cursor) + 2 * |topo| * |swarm|
      ensures forall i :: 0 <= i < |swarm| ==>
                Flew(swarm[i], old(swarm[i]), globalBest.value.bestPosition, inertiaWeight,
                     old(random.cursor) + 2 * |topo| * i)
    {
      swarm := MoveAll(swarm, globalBest.value.bestPosition);
    }

    /** The loop over the particles of `s`. */
    method MoveAll(s: seq<Particle>, global: seq<real>) returns (r: seq<Particle>)
      requires Flies() && AllSound(s) && |global| == |topo|
      modifies random`cursor
      ensures AllSound(r) && BestsKept(s, r) && random.cursor == old(random.cursor) + 2 * |topo| * |s|
      ensures forall i :: 0 <= i < |s| ==> Flew(r[i], s[i], global, inertiaWeight, old(random.cursor) + 2 * |topo| * i)
    {
      r := [];
      var k := 0;
      while k < |s|
        invariant k <= |s| && |r| == k && AllSound(r)
        invariant random.cursor == old(random.cursor) + 2 * |topo| * k
        invariant FlewAll(r, s, global, inertiaWeight, old(random.cursor), k)
      {
        r := MoveNext(s, global, k, old(random.cursor), r);
        k := k + 1;
      }
    }

    /** The first `k` particles of `r` are those of `s` flown towards `global`, particle
        `i` with the draws from `start + 2 * |topo| * i` on. */
    ghost predicate FlewAll(r: seq<Particle>, s: seq<Particle>, global: seq<real>, inertia: real, start: nat, k: nat)
      requires k <= |r| && k <= |s|
    {
      forall i :: 0 <= i < k ==> Flew(r[i], s[i], global, inertia, start + 2 * |topo| * i)
    }

    /** One turn of `MoveAll`: particle `k` flown and appended. */
    method MoveNext(s: seq<Particle>, global: seq<real>, k: nat, ghost start: nat, r: seq<Particle>)
      returns (r': seq<Particle>)
      requires Flies() && AllSound(s) && |global| == |topo| && k < |s| && |r| == k && AllSound(r)
      requires random.cursor == start + 2 * |topo| * k
      requires FlewAll(r, s, global, inertiaWeight, start, k)
      modifies random`cursor
      ensures |r'| == k + 1 && AllSound(r') && random.cursor == start + 2 * |topo| * (k + 1)
      ensures FlewAll(r', s, global, inertiaWeight, start, k + 1)
    {
      assert 2 * |topo| * (k + 1) == 2 * |topo| * k + 2 * |topo|;
      var q := MoveParticle(s[k], global);
      r' := r + [q];
      forall i | 0 <= i < k + 1
        ensures Sound(r'[i]) && Flew(r'[i], s[i], global, inertiaWeight, start + 2 * |topo| * i)
      {
        if i < k {
          assert r'[i] == r[i];
        }
      }
    }

    /** One particle of the second loop. */
    method MoveParticle(p: Particle, global: seq<real>) returns (q: Particle)
      requires Flies() && Sound(p) && |global| == |topo|
      modifies random`cursor
      ensures Sound(q) && random.cursor == old(random.cursor) + 2 * |topo|
      ensures Flew(q, p, global, inertiaWeight, old(random.cursor))
    {
      var position := p.position;
      var velocity := p.velocity;
      var d := 0;
      while d < |topo|
        invariant d <= |topo| && random.cursor == old(random.cursor) + 2 * d
        invariant Inside(position, velocity) && FlownUpTo(position, velocity, p, global, inertiaWeight, old(random.cursor), d)
      {
        position, velocity := MoveNextDimension(p, global, d, old(random.cursor), position, velocity);
        d := d + 1;
      }
      q := p.(position := position, velocity := velocity);
    }

    /** Positions in `[0, n]` and velocities in `[-n, n]`, one per task. */
    ghost predicate Inside(position: seq<real>, velocity: seq<real>)
    {
      && |position| == |velocity| == |topo|
      && forall e :: 0 <= e < |topo| ==>
           0.0 <= position[e] <= |vms| as real && -(|vms| as real) <= velocity[e] <= |vms| as real
    }

    /** The first `d` dimensions of `p` are flown with the draws from `start` on, the
        others are still `p`'s. */
    ghost predicate FlownUpTo(position: seq<real>, velocity: seq<real>, p: Particle, global: seq<real>,
                              inertia: real, start: nat, d: nat)
      requires Shaped(p) && |global| == |topo| && d <= |topo| && |position| == |velocity| == |topo|
    {
      && (forall e :: 0 <= e < d ==>
            Motion(position[e], velocity[e]) ==
              flight(p.position[e], p.velocity[e], p.bestPosition[e], global[e], inertia,
                     DrawAt(start, 2 * e), DrawAt(start, 2 * e + 1), |vms| as real))
      && (forall e :: d <= e < |topo| ==> position[e] == p.position[e] && velocity[e] == p.velocity[e])
    }

    /** One turn of `MoveParticle`: dimension `d` flown. */
    method MoveNextDimension(p: Particle, global: seq<real>, d: nat, ghost start: nat,
                             position: seq<real>, velocity: seq<real>)
      returns (position': seq<real>, velocity': seq<real>)
      requires Flies() && Shaped(p) && |global| == |topo| && d < |topo| && random.cursor == start + 2 * d
      requires Inside(position, velocity) && FlownUpTo(position, velocity, p, global, inertiaWeight, start, d)
      modifies random`cursor
      ensures random.cursor == start + 2 * (d + 1)
      ensures Inside(position', velocity') && FlownUpTo(position', velocity', p, global, inertiaWeight, start, d + 1)
    {
      assert position[d] == p.position[d] && velocity[d] == p.velocity[d];
      var x, v := MoveDimension(position[d], velocity[d], p.bestPosition[d], global[d]);
      position' := position[d := x];
      velocity' := velocity[d := v];
      forall e | 0 <= e < d
        ensures Motion(position'[e], velocity'[e]) == Motion(position[e], velocity[e])
      {
      }
    }

    /** One dimension: two draws, the velocity rule, the clamp to `[-n, n]`, the step,
        and the reflection at 0 and at `n`, in the order the code writes them. */
    method MoveDimension(position: real, velocity: real, best: real, global: real) returns (x: real, v: real)
      requires Flies() && 0.0 <= position <= |vms| as real
      modifies random`cursor
      ensures random.cursor == old(random.cursor) + 2
      ensures Motion(x, v) == flight(position, velocity, best, global, inertiaWeight,
                                     DrawAt(old(random.cursor), 0), DrawAt(old(random.cursor), 1), |vms| as real)
      ensures 0.0 <= x <= |vms| as real && -(|vms| as real) <= v <= |vms| as real
    {
      var r1 := random.NextDouble();
      var r2 := random.NextDouble();
      ghost var motion := Fly(position, velocity, best, global, inertiaWeight, c1, c2, r1, r2, |vms| as real);
      FlyStaysInside(position, velocity, best, global, inertiaWeight, c1, c2, r1, r2, |vms| as real);
      v := NewVelocity(inertiaWeight, velocity, position, best, global, c1, c2, r1, r2);
      var vmax := |vms| as real;
      if v > vmax {
        v := vmax;
      }
      if v < -vmax {
        v := -vmax;
      }
      x := position + v;
      if x < 0.0 {
        x := -x;
        v := -v;
      }
      if x >= vmax {
        x := 2.0 * vmax - x;
        v := -v;
      }
      assert Motion(x, v) == motion;
    }
  }
}
