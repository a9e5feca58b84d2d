/** How algorithms/PSOScheduler.java reads a particle: `convertToMapping` turns the
    position of dimension `i` into the index of a VM for the `i`-th task of the
    topological order, and `updateTimings` replays that mapping in topological order
    to obtain start and finish times. Tasks are named by their ids and VMs by their
    positions in the VM list. */
module PsoReplay {
  import opened Folds
  import opened Sorting
  import opened CloudTask
  import opened Dags
  import opened Costs

  /** What the replay needs: a well-formed graph, at least one VM, all of them with
      positive speed, and a topological order of the graph. */
  ghost predicate PsoSetting(g: Dag, vms: seq<Vm>, topo: seq<nat>)
  {
    WellFormed(g) && ValidVms(vms) && |vms| > 0 && IsTopologicalOrder(g, topo)
  }

  // ---------------------------------------------------------------- decoding

  /** `(int) Math.floor(position)` kept inside the VM list by
      `Math.max(0, Math.min(vid, size - 1))`. */
  function Decode(position: real, vmCount: nat): (v: nat)
    requires vmCount > 0
    ensures v < vmCount
  {
    var vid := position.Floor;
    var upper := if vid < vmCount - 1 then vid else vmCount - 1;
    if 0 < upper then upper else 0
  }

  /** Inside `[0, vmCount)` decoding is the floor; a position past either end decodes
      to the nearest end of the list. */
  lemma DecodeClamps(position: real, vmCount: nat)
    requires vmCount > 0
    ensures 0.0 <= position < vmCount as real ==>
              Decode(position, vmCount) as real <= position < Decode(position, vmCount) as real + 1.0
    ensures position < 0.0 ==> Decode(position, vmCount) == 0
    ensures position >= vmCount as real ==> Decode(position, vmCount) == vmCount - 1
  {
  }

  /** A VM index plus an offset below 1 decodes back to that index: the positions the
      two greedy initialisations write (`index + nextDouble() * 0.05`) select the VM
      the greedy chose. */
  lemma DecodeChosenIndex(index: nat, offset: real, vmCount: nat)
    requires index < vmCount && 0.0 <= offset < 1.0
    ensures Decode(index as real + offset, vmCount) == index
  {
    assert (index as real + offset).Floor == index;
  }

  /** The VM index of every dimension. */
  function DecodeAll(position: seq<real>, vmCount: nat): (r: seq<nat>)
    requires vmCount > 0
    ensures |r| == |position|
    ensures forall i :: 0 <= i < |position| ==> r[i] == Decode(position[i], vmCount) && r[i] < vmCount
  {
    seq(|position|, i requires 0 <= i < |position| => Decode(position[i], vmCount))
  }

  /** The map `convertToMapping` fills: `map.put(order[i], vms.get(vmIdx[i]))` for
      `i` from 0 up. */
  function MappingOf(order: seq<nat>, vmIdx: seq<nat>): (m: map<nat, nat>)
    requires |order| == |vmIdx|
    decreases |order|
  {
    if order == [] then map[]
    else MappingOf(order[..|order| - 1], vmIdx[..|vmIdx| - 1])[order[|order| - 1] := vmIdx[|vmIdx| - 1]]
  }

  /** One more turn of `convertToMapping`'s loop. */
  lemma MappingOfNext(order: seq<nat>, vmIdx: seq<nat>, k: nat)
    requires |order| == |vmIdx| && k < |order|
    ensures MappingOf(order[..k + 1], vmIdx[..k + 1]) == MappingOf(order[..k], vmIdx[..k])[order[k] := vmIdx[k]]
  {
    assert order[..k + 1][..k] == order[..k] && vmIdx[..k + 1][..k] == vmIdx[..k];
  }

  /** The map has an entry for exactly the tasks of the order; when the order repeats
      no task, the entry of `order[i]` is `vmIdx[i]`. */
  lemma {:induction false} MappingOfEntries(order: seq<nat>, vmIdx: seq<nat>)
    requires |order| == |vmIdx|
    ensures forall t :: t in MappingOf(order, vmIdx) <==> t in order
    ensures Distinct(order) ==> forall i :: 0 <= i < |order| ==> MappingOf(order, vmIdx)[order[i]] == vmIdx[i]
    decreases |order|
  {
    if order != [] {
      var n := |order| - 1;
      var front := order[..n];
      MappingOfEntries(front, vmIdx[..n]);
      assert order == front + [order[n]];
      if Distinct(order) {
        assert Distinct(front) by {
          forall i, j | 0 <= i < j < |front| ensures front[i] != front[j] {
            assert front[i] == order[i] && front[j] == order[j];
          }
        }
        forall i | 0 <= i < |order| ensures MappingOf(order, vmIdx)[order[i]] == vmIdx[i] {
          if i < n {
            assert order[i] != order[n] && front[i] == order[i];
          }
        }
      }
    }
  }

  /** Every task of the graph is mapped, to a VM of the list. */
  ghost predicate Assigns(g: Dag, vmCount: nat, assign: map<nat, nat>)
  {
    forall t :: 0 <= t < |g.tasks| ==> t in assign && assign[t] < vmCount
  }

  /** Decoding a position of one dimension per task of a topological order maps every
      task to the VM its dimension decodes to. */
  lemma DecodedMappingAssigns(g: Dag, vms: seq<Vm>, topo: seq<nat>, position: seq<real>)
    requires PsoSetting(g, vms, topo) && |position| == |topo|
    ensures Assigns(g, |vms|, MappingOf(topo, DecodeAll(position, |vms|)))
    ensures forall i :: 0 <= i < |topo| ==>
              MappingOf(topo, DecodeAll(position, |vms|))[topo[i]] == Decode(position[i], |vms|)
  {
    var idx := DecodeAll(position, |vms|);
    MappingOfEntries(topo, idx);
    forall t | 0 <= t < |g.tasks| ensures t in MappingOf(topo, idx) && MappingOf(topo, idx)[t] < |vms| {
      assert t in topo;
      var i :| 0 <= i < |topo| && topo[i] == t;
    }
  }

  // ------------------------------------------------------------------ replay

  /** The three maps `updateTimings` rewrites: start and finish time by task, and the
      time each VM is next free, by VM index. */
  datatype Timing = Timing(start: map<nat, real>, finish: map<nat, real>, clock: seq<real>)

  /** `vmAvailableTime.put(vm, 0.0)` for every VM. */
  function Zeros(n: nat): (r: seq<real>)
    ensures |r| == n && forall i :: 0 <= i < n ==> r[i] == 0.0
  {
    seq(n, i => 0.0)
  }

  /** What predecessor `pre` contributes to the ready time on `vm`: its finish time,
      plus `outputSize / 1e6` when it runs on another VM. */
  function ArrivalTerm(g: Dag, assign: map<nat, nat>, finish: map<nat, real>, pre: nat, vm: nat): real
    requires pre < |g.tasks| && pre in assign
  {
    Get(finish, pre) + CommunicationCost(g.tasks[pre], assign[pre], vm)
  }

  function ArrivalTerms(g: Dag, assign: map<nat, nat>, finish: map<nat, real>, preds: seq<nat>, vm: nat): (r: seq<real>)
    requires forall k :: 0 <= k < |preds| ==> preds[k] < |g.tasks| && preds[k] in assign
    ensures |r| == |preds|
    ensures forall k :: 0 <= k < |preds| ==> r[k] == ArrivalTerm(g, assign, finish, preds[k], vm)
  {
    seq(|preds|, k requires 0 <= k < |preds| => ArrivalTerm(g, assign, finish, preds[k], vm))
  }

  /** `ready`: the VM's clock, raised to every predecessor's arrival, taken over the
      incoming edges in edge order. */
  function ReadyTime(g: Dag, assign: map<nat, nat>, tm: Timing, t: nat): real
    requires Consistent(g) && t < |g.tasks| && Assigns(g, |tm.clock|, assign)
  {
    PredecessorsInGraph(g, t);
    MaxFrom(tm.clock[assign[t]], ArrivalTerms(g, assign, tm.finish, Predecessors(g.edges, t), assign[t]))
  }

  /** One turn of `updateTimings`' loop: `t` starts when it is ready, finishes its
      execution time later, and its VM is busy until then. */
  function TimeTask(g: Dag, vms: seq<Vm>, assign: map<nat, nat>, tm: Timing, t: nat): (r: Timing)
    requires Consistent(g) && ValidVms(vms) && |tm.clock| == |vms| && Assigns(g, |vms|, assign)
    requires t < |g.tasks|
    ensures |r.clock| == |vms|
  {
    var vm := assign[t];
    var s := ReadyTime(g, assign, tm, t);
    var f := s + ExecutionTime(g.tasks[t], vms[vm]);
    Timing(tm.start[t := s], tm.finish[t := f], tm.clock[vm := f])
  }

  /** `updateTimings` over the tasks of `order`, from cleared maps and idle VMs. */
  function Replay(g: Dag, vms: seq<Vm>, assign: map<nat, nat>, order: seq<nat>): (r: Timing)
    requires Consistent(g) && ValidVms(vms) && Assigns(g, |vms|, assign) && InGraph(g, order)
    ensures |r.clock| == |vms|
    decreases |order|
  {
    if order == [] then Timing(map[], map[], Zeros(|vms|))
    else TimeTask(g, vms, assign, Replay(g, vms, assign, order[..|order| - 1]), order[|order| - 1])
  }

  /** The replay of a longer prefix is one more turn on the shorter one. */
  lemma ReplayNext(g: Dag, vms: seq<Vm>, assign: map<nat, nat>, order: seq<nat>, k: nat)
    requires Consistent(g) && ValidVms(vms) && Assigns(g, |vms|, assign) && InGraph(g, order)
    requires k < |order|
    ensures Replay(g, vms, assign, order[..k + 1])
            == TimeTask(g, vms, assign, Replay(g, vms, assign, order[..k]), order[k])
  {
    assert order[..k + 1][..k] == order[..k];
  }

  /** One turn, from the point of view of its task `t`: `t` starts no earlier than its
      VM's clock, and its VM's clock becomes its finish time, its execution time after
      its start; no clock goes back. */
  lemma TimeTaskFacts(g: Dag, vms: seq<Vm>, assign: map<nat, nat>, tm: Timing, t: nat)
    requires Consistent(g) && ValidVms(vms) && |tm.clock| == |vms| && Assigns(g, |vms|, assign)
    requires t < |g.tasks|
    ensures var r := TimeTask(g, vms, assign, tm, t);
            && t in r.start && t in r.finish
            && tm.clock[assign[t]] <= r.start[t]
            && r.finish[t] == r.clock[assign[t]] == r.start[t] + ExecutionTime(g.tasks[t], vms[assign[t]])
            && (forall v :: 0 <= v < |vms| ==> tm.clock[v] <= r.clock[v])
  {
    PredecessorsInGraph(g, t);
    MaxFromBounds(tm.clock[assign[t]], ArrivalTerms(g, assign, tm.finish, Predecessors(g.edges, t), assign[t]));
    assert 0.0 < ExecutionTime(g.tasks[t], vms[assign[t]]);
  }

  /** One turn again: its task starts no earlier than every predecessor's arrival. */
  lemma TimeTaskAfterArrivals(g: Dag, vms: seq<Vm>, assign: map<nat, nat>, tm: Timing, t: nat)
    requires Consistent(g) && ValidVms(vms) && |tm.clock| == |vms| && Assigns(g, |vms|, assign)
    requires t < |g.tasks|
    ensures var r := TimeTask(g, vms, assign, tm, t);
            forall k :: 0 <= k < |Predecessors(g.edges, t)| ==>
              var p := Predecessors(g.edges, t)[k];
              p < |g.tasks| && p in assign && ArrivalTerm(g, assign, tm.finish, p, assign[t]) <= r.start[t]
  {
    PredecessorsInGraph(g, t);
    MaxFromBounds(tm.clock[assign[t]], ArrivalTerms(g, assign, tm.finish, Predecessors(g.edges, t), assign[t]));
  }

  /** The replay times exactly the tasks of the order; every VM clock stays at or above
      0; and every timed task finishes its execution time after it starts, at a start
      not before 0. */
  lemma {:induction false} ReplayTimesEachTask(g: Dag, vms: seq<Vm>, assign: map<nat, nat>, order: seq<nat>)
    requires Consistent(g) && ValidVms(vms) && Assigns(g, |vms|, assign) && InGraph(g, order)
    ensures var tm := Replay(g, vms, assign, order);
            && (forall t :: t in tm.start <==> t in order)
            && (forall t :: t in tm.finish <==> t in order)
            && (forall v :: 0 <= v < |vms| ==> 0.0 <= tm.clock[v])
            && (forall t :: t in order ==>
                  0.0 <= tm.start[t] && tm.finish[t] == tm.start[t] + ExecutionTime(g.tasks[t], vms[assign[t]]))
    decreases |order|
  {
    if order != [] {
      var n := |order| - 1;
      var front := order[..n];
      ReplayTimesEachTask(g, vms, assign, front);
      var prev := Replay(g, vms, assign, front);
      var t := order[n];
      forall u ensures u in order <==> u in front || u == t {
        InFrontOrLast(order, u);
      }
      TimeTaskFacts(g, vms, assign, prev, t);
      forall u | u != t
        ensures var r := TimeTask(g, vms, assign, prev, t);
                && (u in r.start <==> u in prev.start) && (u in prev.start ==> r.start[u] == prev.start[u])
                && (u in r.finish <==> u in prev.finish) && (u in prev.finish ==> r.finish[u] == prev.finish[u])
      {
        TimeTaskKeepsOthers(g, vms, assign, prev, t, u);
      }
    }
  }

  lemma InFrontOrLast(s: seq<nat>, x: nat)
    requires s != []
    ensures x in s <==> x in s[..|s| - 1] || x == s[|s| - 1]
  {
    assert s == s[..|s| - 1] + [s[|s| - 1]];
  }

  /** Once timed, a task keeps its times: the replay holds the times its own turn gave
      it, later turns timing other tasks. */
  lemma {:induction false} ReplayKeepsTimes(g: Dag, vms: seq<Vm>, assign: map<nat, nat>, order: seq<nat>, i: nat)
    requires Consistent(g) && ValidVms(vms) && Assigns(g, |vms|, assign) && InGraph(g, order)
    requires Distinct(order) && i < |order|
    ensures var tm := Replay(g, vms, assign, order);
            var turn := TimeTask(g, vms, assign, Replay(g, vms, assign, order[..i]), order[i]);
            && order[i] in tm.start && order[i] in turn.start && tm.start[order[i]] == turn.start[order[i]]
            && order[i] in tm.finish && order[i] in turn.finish && tm.finish[order[i]] == turn.finish[order[i]]
    decreases |order|
  {
    var n := |order| - 1;
    var front := order[..n];
    var prev := Replay(g, vms, assign, front);
    assert Replay(g, vms, assign, order) == TimeTask(g, vms, assign, prev, order[n]);
    if i < n {
      assert Distinct(front) by {
        forall a, b | 0 <= a < b < |front| ensures front[a] != front[b] {
          assert front[a] == order[a] && front[b] == order[b];
        }
      }
      ReplayKeepsTimes(g, vms, assign, front, i);
      assert front[..i] == order[..i];
      TimeTaskKeepsOthers(g, vms, assign, prev, order[n], order[i]);
    }
  }

  /** A turn times its own task only. */
  lemma TimeTaskKeepsOthers(g: Dag, vms: seq<Vm>, assign: map<nat, nat>, tm: Timing, t: nat, u: nat)
    requires Consistent(g) && ValidVms(vms) && |tm.clock| == |vms| && Assigns(g, |vms|, assign)
    requires t < |g.tasks| && u != t
    ensures var r := TimeTask(g, vms, assign, tm, t);
            && (u in r.start <==> u in tm.start) && (u in tm.start ==> r.start[u] == tm.start[u])
            && (u in r.finish <==> u in tm.finish) && (u in tm.finish ==> r.finish[u] == tm.finish[u])
  {
  }

  /** A VM's clock never goes back as the replay proceeds. */
  lemma {:induction false} ClockNeverDecreases(g: Dag, vms: seq<Vm>, assign: map<nat, nat>, order: seq<nat>,
                                              k: nat, v: nat)
    requires Consistent(g) && ValidVms(vms) && Assigns(g, |vms|, assign) && InGraph(g, order)
    requires k <= |order| && v < |vms|
    ensures Replay(g, vms, assign, order[..k]).clock[v] <= Replay(g, vms, assign, order).clock[v]
    decreases |order|
  {
    if k == |order| {
      assert order[..k] == order;
    } else {
      var front := order[..|order| - 1];
      assert front[..k] == order[..k];
      ClockNeverDecreases(g, vms, assign, front, k, v);
      TimeTaskFacts(g, vms, assign, Replay(g, vms, assign, front), order[|order| - 1]);
    }
  }

  /** Both tasks are mapped, to the same VM. */
  predicate SameVm(assign: map<nat, nat>, a: nat, b: nat)
  {
    a in assign && b in assign && assign[a] == assign[b]
  }

  /** The replay of a whole topological order: every edge `u -> v` has `u`'s output
      arrive before `v` starts (`finish(u) + comm <= start(v)`, the transfer being free
      on one VM), and two tasks on the same VM run one after the other, in the order. */
  lemma ReplayRespectsPrecedence(g: Dag, vms: seq<Vm>, assign: map<nat, nat>, topo: seq<nat>)
    requires PsoSetting(g, vms, topo) && Assigns(g, |vms|, assign)
    ensures var tm := Replay(g, vms, assign, topo);
            forall u, v :: (u, v) in g.edges ==>
              && u in tm.finish && v in tm.start
              && tm.finish[u] + CommunicationCost(g.tasks[u], assign[u], assign[v]) <= tm.start[v]
    ensures var tm := Replay(g, vms, assign, topo);
            forall i, j :: 0 <= i < j < |topo| && SameVm(assign, topo[i], topo[j]) ==>
              topo[i] in tm.finish && topo[j] in tm.start && tm.finish[topo[i]] <= tm.start[topo[j]]
  {
    var tm := Replay(g, vms, assign, topo);
    ReplayTimesEachTask(g, vms, assign, topo);
    forall u, v | (u, v) in g.edges
      ensures u in tm.finish && v in tm.start
      ensures tm.finish[u] + CommunicationCost(g.tasks[u], assign[u], assign[v]) <= tm.start[v]
    {
      EdgeGoesForward(g, topo, u, v);
      EdgeArrivesInTime(g, vms, assign, topo, IndexIn(topo, u), IndexIn(topo, v));
    }
    forall i, j | 0 <= i < j < |topo| && SameVm(assign, topo[i], topo[j])
      ensures topo[i] in tm.finish && topo[j] in tm.start && tm.finish[topo[i]] <= tm.start[topo[j]]
    {
      SameVmInSequence(g, vms, assign, topo, i, j);
    }
  }

  /** The edge case of `ReplayRespectsPrecedence`, by the positions of its ends. */
  lemma EdgeArrivesInTime(g: Dag, vms: seq<Vm>, assign: map<nat, nat>, topo: seq<nat>, i: nat, j: nat)
    requires Consistent(g) && ValidVms(vms) && Assigns(g, |vms|, assign) && InGraph(g, topo) && Distinct(topo)
    requires i < j < |topo| && (topo[i], topo[j]) in g.edges
    ensures var tm := Replay(g, vms, assign, topo);
            var u := topo[i];
            var v := topo[j];
            && u in tm.finish && v in tm.start
            && tm.finish[u] + CommunicationCost(g.tasks[u], assign[u], assign[v]) <= tm.start[v]
  {
    var u, v := topo[i], topo[j];
    var prefix := topo[..j];
    var prev := Replay(g, vms, assign, prefix);
    assert Distinct(prefix) by {
      forall a, b | 0 <= a < b < |prefix| ensures prefix[a] != prefix[b] {
        assert prefix[a] == topo[a] && prefix[b] == topo[b];
      }
    }
    ReplayKeepsTimes(g, vms, assign, prefix, i);
    ReplayKeepsTimes(g, vms, assign, topo, i);
    ReplayKeepsTimes(g, vms, assign, topo, j);
    assert prefix[..i] == topo[..i];
    var preds := Predecessors(g.edges, v);
    assert u in preds;
    var k :| 0 <= k < |preds| && preds[k] == u;
    TimeTaskAfterArrivals(g, vms, assign, prev, v);
  }

  /** The same-VM case of `ReplayRespectsPrecedence`. */
  lemma SameVmInSequence(g: Dag, vms: seq<Vm>, assign: map<nat, nat>, topo: seq<nat>, i: nat, j: nat)
    requires Consistent(g) && ValidVms(vms) && Assigns(g, |vms|, assign) && InGraph(g, topo) && Distinct(topo)
    requires i < j < |topo| && assign[topo[i]] == assign[topo[j]]
    ensures var tm := Replay(g, vms, assign, topo);
            topo[i] in tm.finish && topo[j] in tm.start && tm.finish[topo[i]] <= tm.start[topo[j]]
  {
    var vm := assign[topo[i]];
    var after := Replay(g, vms, assign, topo[..i + 1]);
    var prefix := topo[..j];
    var prev := Replay(g, vms, assign, prefix);
    ReplayNext(g, vms, assign, topo, i);
    ReplayKeepsTimes(g, vms, assign, topo, i);
    ReplayKeepsTimes(g, vms, assign, topo, j);
    assert prefix[..i + 1] == topo[..i + 1];
    ClockNeverDecreases(g, vms, assign, prefix, i + 1, vm);
    TimeTaskFacts(g, vms, assign, Replay(g, vms, assign, topo[..i]), topo[i]);
    TimeTaskFacts(g, vms, assign, prev, topo[j]);
  }
}
