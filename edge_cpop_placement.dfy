/** What the placement step of algorithm/CPOPScheduler.java reads and leaves behind:
    when the output of a dependency reaches a device, when a task could start and
    finish on each device, the state of a task before and after it is placed, the
    run order on each device, and the energy the devices report afterwards. */
module EdgeCpopPlacement {
  import opened Folds
  import opened Sorting
  import opened EdgeTasks
  import opened EdgeDevices
  import opened EdgeEnvironments
  import opened EdgeCpopRanks
  import opened EdgeResults

  /** Every node of `deps` sits on a device of the environment, as a placed
      dependency does; `getCommunicationTime` would index the delay matrix with -1
      for one that is not placed. */
  ghost predicate OnDevices(env: EdgeEnvironment, deps: seq<TaskNode>)
    reads deps`assignedDeviceId
  {
    forall d :: d in deps ==> 0 <= d.assignedDeviceId < |env.devices|
  }

  /** When the output of dependency `d` is available on device `deviceId`: at its
      finish on the same device, and after the transfer from its device otherwise. */
  function Arrival(env: EdgeEnvironment, d: TaskNode, deviceId: int): real
    requires env.Shape() && 0 <= deviceId < |env.devices| && 0 <= d.assignedDeviceId < |env.devices|
    reads d`assignedDeviceId, d`finishTime, env.communicationMatrix
  {
    if d.assignedDeviceId != deviceId then
      d.finishTime + env.CommunicationTime(d.assignedDeviceId, deviceId, d.dataSize)
    else d.finishTime
  }

  /** `calculateDataReadyTime` over the first dependencies: the running maximum of the
      arrivals, seeded with 0. */
  function DataReadyTime(env: EdgeEnvironment, deps: seq<TaskNode>, deviceId: int): real
    requires env.Shape() && 0 <= deviceId < |env.devices| && OnDevices(env, deps)
    reads deps`assignedDeviceId, deps`finishTime, env.communicationMatrix
    decreases |deps|
  {
    if deps == [] then 0.0
    else Max(DataReadyTime(env, deps[..|deps| - 1], deviceId), Arrival(env, deps[|deps| - 1], deviceId))
  }

  /** The data-ready time is the latest arrival: never negative, no earlier than any
      dependency's arrival, and 0 or one of those arrivals. */
  lemma {:induction false} DataReadyTimeIsLatestArrival(env: EdgeEnvironment, deps: seq<TaskNode>, deviceId: int)
    requires env.Shape() && 0 <= deviceId < |env.devices| && OnDevices(env, deps)
    ensures 0.0 <= DataReadyTime(env, deps, deviceId)
    ensures forall d :: d in deps ==> Arrival(env, d, deviceId) <= DataReadyTime(env, deps, deviceId)
    ensures DataReadyTime(env, deps, deviceId) == 0.0 ||
            exists d :: d in deps && DataReadyTime(env, deps, deviceId) == Arrival(env, d, deviceId)
    decreases |deps|
  {
    if deps != [] {
      var front := deps[..|deps| - 1];
      DataReadyTimeIsLatestArrival(env, front, deviceId);
      forall d | d in deps ensures Arrival(env, d, deviceId) <= DataReadyTime(env, deps, deviceId) {
        if d != deps[|deps| - 1] {
          var i :| 0 <= i < |deps| && deps[i] == d;
          assert front[i] == d;
        }
      }
      if DataReadyTime(env, deps, deviceId) != Arrival(env, deps[|deps| - 1], deviceId) &&
         DataReadyTime(env, deps, deviceId) != 0.0 {
        var d :| d in front && DataReadyTime(env, front, deviceId) == Arrival(env, d, deviceId);
        assert d in deps;
      }
    }
  }

  /** When `task` could start on device `v`: once the device is free and its data has
      arrived. */
  function ReadyOn(env: EdgeEnvironment, task: TaskNode, v: nat): real
    requires env.Shape() && v < |env.devices| && OnDevices(env, task.dependencies)
    reads env.devices`availableTime, task`dependencies, task.dependencies`assignedDeviceId
    reads task.dependencies`finishTime, env.communicationMatrix
  {
    Max(env.devices[v].availableTime, DataReadyTime(env, task.dependencies, v))
  }

  /** When `task` would finish on device `v`. */
  function FinishOn(env: EdgeEnvironment, task: TaskNode, v: nat): real
    requires env.Shape() && v < |env.devices| && OnDevices(env, task.dependencies)
    reads env.devices`availableTime, task`dependencies, task.dependencies`assignedDeviceId
    reads task.dependencies`finishTime, env.communicationMatrix
  {
    ReadyOn(env, task, v) + env.devices[v].ExecutionTime(task)
  }

  /** Device `v` is the first on which `task` would finish earliest. */
  ghost predicate FirstEarliest(env: EdgeEnvironment, task: TaskNode, v: nat)
    requires env.Shape() && v < |env.devices| && OnDevices(env, task.dependencies)
    reads env.devices`availableTime, task`dependencies, task.dependencies`assignedDeviceId
    reads task.dependencies`finishTime, env.communicationMatrix
  {
    (forall j :: 0 <= j < |env.devices| ==> FinishOn(env, task, v) <= FinishOn(env, task, j)) &&
    (forall j :: 0 <= j < v ==> FinishOn(env, task, v) < FinishOn(env, task, j))
  }

  /** A task as the reset at the start of `schedule` leaves it. */
  ghost predicate Unplaced(t: TaskNode)
    reads t`scheduled, t`assignedDeviceId, t`startTime, t`finishTime
  {
    !t.scheduled && t.assignedDeviceId == -1 && t.startTime == 0.0 && t.finishTime == 0.0
  }

  /** A task as `scheduleTask` leaves it: scheduled on a device of the environment, from
      a time no earlier than 0, for its execution time there. */
  ghost predicate Placed(env: EdgeEnvironment, t: TaskNode)
    requires env.Shape()
    reads t`scheduled, t`assignedDeviceId, t`startTime, t`finishTime
  {
    t.scheduled && 0 <= t.assignedDeviceId < |env.devices| && 0.0 <= t.startTime &&
    t.finishTime == t.startTime + env.devices[t.assignedDeviceId].ExecutionTime(t)
  }

  /** Precedence: the task is on a device and starts only once the output of every
      dependency has reached that device. */
  ghost predicate Waits(env: EdgeEnvironment, t: TaskNode)
    requires env.Shape()
    reads t`dependencies, t`assignedDeviceId, t`startTime, t.dependencies`assignedDeviceId
    reads t.dependencies`finishTime, env.communicationMatrix
  {
    0 <= t.assignedDeviceId < |env.devices| &&
    forall d :: d in t.dependencies ==>
      0 <= d.assignedDeviceId < |env.devices| && Arrival(env, d, t.assignedDeviceId) <= t.startTime
  }

  /** The tasks on a device in the order it runs them: each scheduled on this device,
      none twice, each ending no earlier than it starts and before any later one
      starts, and the device free from the end of the last one (from 0 with none). */
  ghost predicate Timeline(d: EdgeDevice)
    reads d`scheduledTasks, d`availableTime, d.scheduledTasks`scheduled
    reads d.scheduledTasks`assignedDeviceId, d.scheduledTasks`startTime, d.scheduledTasks`finishTime
  {
    var s := d.scheduledTasks;
    Distinct(s) &&
    (forall i :: 0 <= i < |s| ==>
       s[i].scheduled && s[i].assignedDeviceId == d.id && s[i].startTime <= s[i].finishTime) &&
    (forall i, j :: 0 <= i < j < |s| ==> s[i].finishTime <= s[j].startTime) &&
    d.availableTime == if s == [] then 0.0 else s[|s| - 1].finishTime
  }

  /** Where and when a placed task runs, as the placement loop records it. */
  datatype Slot = Slot(device: nat, start: real, finish: real)

  /** A slot fit for `t`: on a device of the environment, from a time no earlier than
      0, for the task's execution time there. */
  ghost predicate Fits(env: EdgeEnvironment, t: TaskNode, p: Slot)
    requires env.Shape()
  {
    p.device < |env.devices| && 0.0 <= p.start &&
    p.finish == p.start + env.devices[p.device].ExecutionTime(t)
  }

  /** `Arrival` for a dependency recorded in slot `p`. */
  ghost function ArrivalFrom(env: EdgeEnvironment, d: TaskNode, p: Slot, v: nat): real
    requires env.Shape() && p.device < |env.devices| && v < |env.devices|
    reads env.communicationMatrix
  {
    if p.device != v then p.finish + env.CommunicationTime(p.device, v, d.dataSize) else p.finish
  }

  /** Precedence over the recorded slots: every dependency of `t` is recorded, and its
      data reaches `t`'s device by the time `t` starts. */
  ghost predicate WaitsIn(env: EdgeEnvironment, placed: map<TaskNode, Slot>, t: TaskNode)
    requires env.Shape() && t in placed && placed[t].device < |env.devices|
    reads t`dependencies, env.communicationMatrix
  {
    forall d :: d in t.dependencies ==>
      d in placed && placed[d].device < |env.devices| &&
      ArrivalFrom(env, d, placed[d], placed[t].device) <= placed[t].start
  }

  /** The run order of device `v` over the recorded slots: exactly the tasks recorded
      on `v`, none twice, none overlapping a later one, and the device free from the
      end of the last. */
  ghost predicate RunOrder(placed: map<TaskNode, Slot>, v: nat, s: seq<TaskNode>, available: real)
  {
    Distinct(s) &&
    (forall t :: t in placed && placed[t].device == v ==> t in s) &&
    (forall i :: 0 <= i < |s| ==>
       s[i] in placed && placed[s[i]].device == v && placed[s[i]].start <= placed[s[i]].finish) &&
    (forall i, j :: 0 <= i < j < |s| ==> placed[s[i]].finish <= placed[s[j]].start) &&
    available == if s == [] then 0.0 else placed[s[|s| - 1]].finish
  }

  /** The task's fields hold its recorded slot. */
  ghost predicate Holds(placed: map<TaskNode, Slot>, t: TaskNode)
    requires t in placed
    reads t`scheduled, t`assignedDeviceId, t`startTime, t`finishTime
  {
    t.scheduled && t.assignedDeviceId == placed[t].device &&
    t.startTime == placed[t].start && t.finishTime == placed[t].finish
  }

  /** A placed task as the placement loop keeps it: its slot fits it, its fields hold
      the slot, and it waits for its dependencies' recorded slots. */
  ghost predicate Recorded(env: EdgeEnvironment, placed: map<TaskNode, Slot>, t: TaskNode)
    requires env.Shape() && t in placed
    reads t`scheduled, t`assignedDeviceId, t`startTime, t`finishTime, t`dependencies
    reads env.communicationMatrix
  {
    Fits(env, t, placed[t]) && Holds(placed, t) && WaitsIn(env, placed, t)
  }

  /** Recording another task keeps a recorded task as it was. */
  lemma RecordedFrame(env: EdgeEnvironment, placed: map<TaskNode, Slot>, u: TaskNode, t: TaskNode, p: Slot)
    requires env.Shape() && u in placed && t !in placed && Recorded(env, placed, u)
    ensures Recorded(env, placed[t := p], u)
  {
    assert WaitsIn(env, placed, u);
  }

  /** Recording a new task on device `v` from no earlier than the device is free
      extends `v`'s run order by that task. */
  lemma RunOrderAppend(placed: map<TaskNode, Slot>, v: nat, s: seq<TaskNode>, available: real, t: TaskNode, p: Slot)
    requires RunOrder(placed, v, s, available) && t !in placed
    requires p.device == v && available <= p.start <= p.finish
    ensures RunOrder(placed[t := p], v, s + [t], p.finish)
  {
    var placed' := placed[t := p];
    var s' := s + [t];
    DistinctSnoc(s, t);
    forall i, j | 0 <= i < j < |s'| ensures placed'[s'[i]].finish <= placed'[s'[j]].start {
      assert s'[i] == s[i] && s[i] != t;
      if j == |s| && i < |s| - 1 {
        assert placed[s[i]].finish <= placed[s[|s| - 1]].start;
      }
    }
  }

  /** Recording a new task on another device leaves `v`'s run order as it was. */
  lemma RunOrderFrame(placed: map<TaskNode, Slot>, v: nat, s: seq<TaskNode>, available: real, t: TaskNode, p: Slot)
    requires RunOrder(placed, v, s, available) && t !in placed && p.device != v
    ensures RunOrder(placed[t := p], v, s, available)
  {
  }

  /** A task that waits for the data of its recorded dependencies waits for it in the
      recorded slots once its own slot is recorded. */
  lemma WaitsRecorded(env: EdgeEnvironment, placed: map<TaskNode, Slot>, t: TaskNode, p: Slot)
    requires env.Shape() && Waits(env, t) && t !in placed
    requires p.device == t.assignedDeviceId && p.start == t.startTime
    requires forall d :: d in t.dependencies ==> d in placed && Holds(placed, d)
    ensures WaitsIn(env, placed[t := p], t)
  {
    forall d | d in t.dependencies
      ensures ArrivalFrom(env, d, placed[d], p.device) == Arrival(env, d, t.assignedDeviceId)
    {
      assert Holds(placed, d);
    }
  }

  /** Every device's tasks, in device order. */
  ghost function RunOrders(env: EdgeEnvironment): (r: seq<seq<TaskNode>>)
    requires env.Shape()
    reads env.devices
    ensures |r| == |env.devices| && forall w :: 0 <= w < |r| ==> r[w] == env.devices[w].scheduledTasks
  {
    seq(|env.devices|, w requires 0 <= w < |env.devices| reads env.devices =>
          env.devices[w].scheduledTasks)
  }

  /** Every device's free time, in device order. */
  ghost function FreeTimes(env: EdgeEnvironment): (r: seq<real>)
    requires env.Shape()
    reads env.devices
    ensures |r| == |env.devices| && forall w :: 0 <= w < |r| ==> r[w] == env.devices[w].availableTime
  {
    seq(|env.devices|, w requires 0 <= w < |env.devices| reads env.devices =>
          env.devices[w].availableTime)
  }

  /** One placement as the loop records it. `before` and `free` are every device's run
      order and free time before the placement. The task gets a slot on device
      `slot.device` from no earlier than that device was free; that device's run order
      gains the task and every other device is as it was. Then every recorded task,
      the new one included, is still recorded, and every run order still holds. */
  lemma RecordPlacement(env: EdgeEnvironment, placed: map<TaskNode, Slot>, task: TaskNode, slot: Slot,
                        before: seq<seq<TaskNode>>, free: seq<real>)
    requires env.Shape() && task !in placed && slot.device < |env.devices|
    requires |before| == |env.devices| && |free| == |env.devices|
    requires forall u :: u in placed ==> Recorded(env, placed, u)
    requires forall w :: 0 <= w < |env.devices| ==> RunOrder(placed, w, before[w], free[w])
    requires Placed(env, task) && Waits(env, task) && task.assignedDeviceId == slot.device
    requires task.computationCost >= 0.0
    requires task.startTime == slot.start && task.finishTime == slot.finish
    requires forall d :: d in task.dependencies ==> d in placed
    requires free[slot.device] <= slot.start
    requires env.devices[slot.device].scheduledTasks == before[slot.device] + [task]
    requires env.devices[slot.device].availableTime == slot.finish
    requires forall w :: 0 <= w < |env.devices| && w != slot.device ==>
               env.devices[w].scheduledTasks == before[w] && env.devices[w].availableTime == free[w]
    ensures Recorded(env, placed[task := slot], task)
    ensures forall u :: u in placed ==> Recorded(env, placed[task := slot], u)
    ensures forall w :: 0 <= w < |env.devices| ==>
              RunOrder(placed[task := slot], w, env.devices[w].scheduledTasks, env.devices[w].availableTime)
  {
    var placed' := placed[task := slot];
    forall d | d in task.dependencies ensures Holds(placed, d) {
      assert Recorded(env, placed, d);
    }
    WaitsRecorded(env, placed, task, slot);
    forall u | u in placed' ensures Recorded(env, placed', u) {
      if u != task {
        RecordedFrame(env, placed, u, task, slot);
      }
    }
    forall w | 0 <= w < |env.devices|
      ensures RunOrder(placed', w, env.devices[w].scheduledTasks, env.devices[w].availableTime)
    {
      var s, available := before[w], free[w];
      if w == slot.device {
        RunOrderAppend(placed, w, s, available, task, slot);
      } else {
        RunOrderFrame(placed, w, s, available, task, slot);
      }
    }
  }

  /** The next task of a topological order finds every dependency recorded, on a
      device, with its fields holding its slot. */
  lemma DependenciesRecorded(env: EdgeEnvironment, sorted: seq<TaskNode>, k: nat, placed: map<TaskNode, Slot>)
    requires env.Shape() && k < |sorted| && TopologicalOrder(sorted)
    requires forall j :: 0 <= j < |sorted| ==> (sorted[j] in placed <==> j < k)
    requires forall t :: t in placed ==> Recorded(env, placed, t)
    ensures forall d :: d in sorted[k].dependencies ==> d in placed && Holds(placed, d)
    ensures OnDevices(env, sorted[k].dependencies)
  {
    forall d | d in sorted[k].dependencies ensures d in placed && Holds(placed, d) && 0 <= d.assignedDeviceId < |env.devices| {
      var j :| 0 <= j < k && sorted[j] == d;
      assert Recorded(env, placed, d);
    }
  }

  /** What the placement loop has done after some tasks: the slot of every placed
      task, and when each device is next free. */
  datatype Plan = Plan(slots: map<TaskNode, Slot>, free: seq<real>)

  /** `calculateDataReadyTime` over recorded slots: the running maximum, seeded with
      0, of the arrivals on device `v` of the recorded dependencies among `deps`. */
  ghost function ReadyFrom(env: EdgeEnvironment, slots: map<TaskNode, Slot>, deps: seq<TaskNode>, v: nat): real
    requires env.Shape() && v < |env.devices|
    reads env.communicationMatrix
    decreases |deps|
  {
    if deps == [] then 0.0
    else
      var d := deps[|deps| - 1];
      var arrival := if d in slots && slots[d].device < |env.devices| then ArrivalFrom(env, d, slots[d], v) else 0.0;
      Max(ReadyFrom(env, slots, deps[..|deps| - 1], v), arrival)
  }

  /** When the plan could start `t` on device `v`: once the device is free and the
      data of `t`'s dependencies has arrived there. */
  ghost function PlanStart(env: EdgeEnvironment, p: Plan, t: TaskNode, v: nat): real
    requires env.Shape() && |p.free| == |env.devices| && v < |env.devices|
    reads env.communicationMatrix, t`dependencies
  {
    Max(p.free[v], ReadyFrom(env, p.slots, t.dependencies, v))
  }

  /** When the plan would finish `t` on device `v`. */
  ghost function PlanFinish(env: EdgeEnvironment, p: Plan, t: TaskNode, v: nat): real
    requires env.Shape() && |p.free| == |env.devices| && v < |env.devices|
    reads env.communicationMatrix, t`dependencies
  {
    PlanStart(env, p, t, v) + env.devices[v].ExecutionTime(t)
  }

  /** The device the `<` scan of `scheduleTask` ends on among the first `k`: the
      first on which `t` would finish earliest. */
  ghost function BestDevice(env: EdgeEnvironment, p: Plan, t: TaskNode, k: nat): (r: nat)
    requires env.Shape() && |p.free| == |env.devices| && 0 < k <= |env.devices|
    reads env.communicationMatrix, t`dependencies
    ensures r < k
    decreases k
  {
    if k == 1 then 0
    else
      var prev := BestDevice(env, p, t, k - 1);
      if PlanFinish(env, p, t, k - 1) < PlanFinish(env, p, t, prev) then k - 1 else prev
  }

  /** The scan ends on the first device where `t` would finish earliest. */
  lemma {:induction false} BestDeviceIsFirstEarliest(env: EdgeEnvironment, p: Plan, t: TaskNode, k: nat)
    requires env.Shape() && |p.free| == |env.devices| && 0 < k <= |env.devices|
    ensures var r := BestDevice(env, p, t, k);
            (forall j :: 0 <= j < k ==> PlanFinish(env, p, t, r) <= PlanFinish(env, p, t, j)) &&
            (forall j :: 0 <= j < r ==> PlanFinish(env, p, t, r) < PlanFinish(env, p, t, j))
    decreases k
  {
    if k > 1 {
      BestDeviceIsFirstEarliest(env, p, t, k - 1);
    }
  }

  /** The plan before any task is placed: no slot, every device free from 0. */
  function EmptyPlan(n: nat): (p: Plan)
    ensures p.slots == map[] && |p.free| == n && forall v :: 0 <= v < n ==> p.free[v] == 0.0
  {
    Plan(map[], seq(n, _ => 0.0))
  }

  /** One turn of the placement loop of `schedule` on a plan: with a device, `t` goes
      to the first device on which it would finish earliest, from when it could start
      there, and that device is then free from its finish. With no device nothing is
      placed. */
  ghost function GreedyStep(env: EdgeEnvironment, p: Plan, t: TaskNode): (p': Plan)
    requires env.Shape() && |p.free| == |env.devices|
    reads env.communicationMatrix, t`dependencies
    ensures |p'.free| == |env.devices|
  {
    if |env.devices| == 0 then p
    else
      var v := BestDevice(env, p, t, |env.devices|);
      var finish := PlanFinish(env, p, t, v);
      Plan(p.slots[t := Slot(v, PlanStart(env, p, t, v), finish)], p.free[v := finish])
  }

  /** The placement loop of `schedule` over the first `k` tasks of `sorted`, one
      greedy turn per task. */
  ghost function GreedyPlan(env: EdgeEnvironment, sorted: seq<TaskNode>, k: nat): (p: Plan)
    requires env.Shape() && k <= |sorted|
    reads env.communicationMatrix, sorted`dependencies
    ensures |p.free| == |env.devices|
    decreases k
  {
    if k == 0 then EmptyPlan(|env.devices|)
    else GreedyStep(env, GreedyPlan(env, sorted, k - 1), sorted[k - 1])
  }

  /** The slots of the whole placement loop. */
  ghost function GreedySlots(env: EdgeEnvironment, sorted: seq<TaskNode>): map<TaskNode, Slot>
    requires env.Shape()
    reads env.communicationMatrix, sorted`dependencies
  {
    GreedyPlan(env, sorted, |sorted|).slots
  }

  /** The reference loop reads only the delay matrix and the tasks' dependencies: a
      step that keeps those keeps its slots. */
  twostate lemma GreedySlotsUnchanged(new env: EdgeEnvironment, sorted: seq<TaskNode>)
    requires old(allocated(env)) && env.Shape()
    requires unchanged(env.communicationMatrix) && forall t :: t in sorted ==> t.dependencies == old(t.dependencies)
    ensures GreedySlots(env, sorted) == old(GreedySlots(env, sorted))
  {
  }

  /** Likewise for a single turn of the reference loop. */
  twostate lemma GreedyStepUnchanged(new env: EdgeEnvironment, new p: Plan, t: TaskNode)
    requires old(allocated(env)) && old(allocated(p)) && env.Shape() && |p.free| == |env.devices|
    requires unchanged(env.communicationMatrix) && t.dependencies == old(t.dependencies)
    ensures GreedyStep(env, p, t) == old(GreedyStep(env, p, t))
  {
  }

  /** One turn of the reference loop: with a device, `t` gets a slot on the first
      device where it would finish earliest given the slots before it, from when it
      could start there; only that device's free time moves, to the task's finish,
      and no other slot changes. */
  lemma GreedyStepPlaces(env: EdgeEnvironment, p: Plan, t: TaskNode)
    requires env.Shape() && |env.devices| > 0 && |p.free| == |env.devices|
    ensures var p' := GreedyStep(env, p, t);
            t in p'.slots && p'.slots[t].device < |env.devices| &&
            var v := p'.slots[t].device;
            p'.slots[t].start == PlanStart(env, p, t, v) &&
            p'.slots[t].finish == PlanFinish(env, p, t, v) &&
            (forall j :: 0 <= j < |env.devices| ==> PlanFinish(env, p, t, v) <= PlanFinish(env, p, t, j)) &&
            (forall j :: 0 <= j < v ==> PlanFinish(env, p, t, v) < PlanFinish(env, p, t, j)) &&
            p'.free == p.free[v := PlanFinish(env, p, t, v)] &&
            forall u :: u in p.slots && u != t ==> u in p'.slots && p'.slots[u] == p.slots[u]
  {
    BestDeviceIsFirstEarliest(env, p, t, |env.devices|);
  }

  /** Over dependencies whose fields hold their recorded slots, `calculateDataReadyTime`
      on the fields equals the running maximum over the slots. */
  lemma {:induction false} DataReadyFromSlots(env: EdgeEnvironment, slots: map<TaskNode, Slot>,
                                              deps: seq<TaskNode>, v: nat)
    requires env.Shape() && v < |env.devices| && OnDevices(env, deps)
    requires forall d :: d in deps ==> d in slots && Holds(slots, d)
    ensures DataReadyTime(env, deps, v) == ReadyFrom(env, slots, deps, v)
    decreases |deps|
  {
    if deps != [] {
      DataReadyFromSlots(env, slots, deps[..|deps| - 1], v);
      assert Holds(slots, deps[|deps| - 1]);
    }
  }

  /** When the devices' free times and the dependencies' fields agree with a plan,
      the task could start on each device when the plan says, and the device
      `scheduleTask` picks as the first earliest finisher is the plan's. */
  lemma ChoiceFollowsPlan(env: EdgeEnvironment, p: Plan, task: TaskNode)
    requires env.Shape() && |env.devices| > 0 && |p.free| == |env.devices|
    requires OnDevices(env, task.dependencies)
    requires forall w :: 0 <= w < |env.devices| ==> env.devices[w].availableTime == p.free[w]
    requires forall d :: d in task.dependencies ==> d in p.slots && Holds(p.slots, d)
    ensures forall w :: 0 <= w < |env.devices| ==> ReadyOn(env, task, w) == PlanStart(env, p, task, w)
    ensures forall v :: 0 <= v < |env.devices| && FirstEarliest(env, task, v) ==>
              v == BestDevice(env, p, task, |env.devices|)
  {
    forall w | 0 <= w < |env.devices|
      ensures ReadyOn(env, task, w) == PlanStart(env, p, task, w)
      ensures FinishOn(env, task, w) == PlanFinish(env, p, task, w)
    {
      DataReadyFromSlots(env, p.slots, task.dependencies, w);
    }
    var b := BestDevice(env, p, task, |env.devices|);
    BestDeviceIsFirstEarliest(env, p, task, |env.devices|);
    forall v | 0 <= v < |env.devices| && FirstEarliest(env, task, v) ensures v == b {
      assert FinishOn(env, task, v) <= FinishOn(env, task, b);
    }
  }

  /** Recorded slots that the fields hold give a placed task that waits for its data. */
  lemma SlotsGivePlacement(env: EdgeEnvironment, placed: map<TaskNode, Slot>, t: TaskNode)
    requires env.Shape() && t in placed && Fits(env, t, placed[t]) && Holds(placed, t)
    requires WaitsIn(env, placed, t)
    requires forall d :: d in t.dependencies ==> Holds(placed, d)
    ensures Placed(env, t) && Waits(env, t)
  {
    forall d | d in t.dependencies
      ensures 0 <= d.assignedDeviceId < |env.devices| && Arrival(env, d, t.assignedDeviceId) <= t.startTime
    {
      assert Holds(placed, d);
    }
  }

  /** A run order over slots that the fields hold is the device's timeline. */
  lemma RunOrderGivesTimeline(placed: map<TaskNode, Slot>, d: EdgeDevice)
    requires d.id >= 0 && RunOrder(placed, d.id, d.scheduledTasks, d.availableTime)
    requires forall x :: x in d.scheduledTasks ==> x in placed && Holds(placed, x)
    ensures Timeline(d)
  {
    var s := d.scheduledTasks;
    forall i | 0 <= i < |s|
      ensures s[i].scheduled && s[i].assignedDeviceId == d.id && s[i].startTime <= s[i].finishTime
    {
      assert Holds(placed, s[i]);
    }
    forall i, j | 0 <= i < j < |s| ensures s[i].finishTime <= s[j].startTime {
      assert Holds(placed, s[i]) && Holds(placed, s[j]);
    }
    if s != [] {
      assert Holds(placed, s[|s| - 1]);
    }
  }

  /** Once every task of `sorted` is recorded (or, with no device, none is), each task
      is placed and waits for its dependencies, each device runs its tasks one after
      another, and every task on a device comes from `sorted`. */
  lemma PlacementComplete(env: EdgeEnvironment, sorted: seq<TaskNode>, placed: map<TaskNode, Slot>)
    requires env.Valid()
    requires forall j :: 0 <= j < |sorted| ==> (sorted[j] in placed <==> |env.devices| > 0)
    requires forall t :: t in placed ==> t in sorted && Recorded(env, placed, t)
    requires forall j :: 0 <= j < |sorted| && sorted[j] !in placed ==> Unplaced(sorted[j])
    requires forall v :: 0 <= v < |env.devices| ==>
               RunOrder(placed, v, env.devices[v].scheduledTasks, env.devices[v].availableTime)
    ensures |env.devices| == 0 ==> forall t :: t in sorted ==> Unplaced(t)
    ensures |env.devices| > 0 ==> forall t :: t in sorted ==>
              Placed(env, t) && Waits(env, t) && t in env.devices[t.assignedDeviceId].scheduledTasks
    ensures forall v :: 0 <= v < |env.devices| ==> Timeline(env.devices[v])
    ensures forall v, t :: 0 <= v < |env.devices| && t in env.devices[v].scheduledTasks ==> t in sorted
  {
    var n := |env.devices|;
    forall v | 0 <= v < n ensures Timeline(env.devices[v]) {
      var d := env.devices[v];
      forall x | x in d.scheduledTasks ensures x in placed && Holds(placed, x) {
        var i :| 0 <= i < |d.scheduledTasks| && d.scheduledTasks[i] == x;
        assert Recorded(env, placed, x);
      }
      RunOrderGivesTimeline(placed, d);
    }
    forall t | t in sorted
      ensures n == 0 ==> Unplaced(t)
      ensures n > 0 ==> Placed(env, t) && Waits(env, t) &&
                        t in env.devices[t.assignedDeviceId].scheduledTasks
    {
      var j :| 0 <= j < |sorted| && sorted[j] == t;
      if n > 0 {
        assert Recorded(env, placed, t);
        assert RunOrder(placed, placed[t].device, env.devices[placed[t].device].scheduledTasks,
                        env.devices[placed[t].device].availableTime);
        forall d | d in t.dependencies ensures Holds(placed, d) {
          assert Recorded(env, placed, d);
        }
        SlotsGivePlacement(env, placed, t);
      }
    }
    forall v, t | 0 <= v < n && t in env.devices[v].scheduledTasks ensures t in sorted {
      assert RunOrder(placed, v, env.devices[v].scheduledTasks, env.devices[v].availableTime);
    }
  }

  /** Sorting distinct tasks on a key that is their priority rearranges them, keeping
      each task exactly once, and puts larger priorities first. */
  lemma SortByKeyOrdersPriorities(tasks: seq<TaskNode>, key: TaskNode -> real)
    requires Distinct(tasks) && forall t :: t in tasks ==> key(t) == t.priority
    ensures multiset(SortDesc(tasks, key)) == multiset(tasks) && Distinct(SortDesc(tasks, key))
    ensures forall i :: 0 <= i < |SortDesc(tasks, key)| ==> SortDesc(tasks, key)[i] in tasks
    ensures forall i, j :: 0 <= i < j < |SortDesc(tasks, key)| ==>
              SortDesc(tasks, key)[j].priority <= SortDesc(tasks, key)[i].priority
  {
    var r := SortDesc(tasks, key);
    SortDescSorted(tasks, key);
    SortDescKeepsElements(tasks, key);
    SortDescPermutes(tasks, key);
    forall i | 0 <= i < |r| ensures r[i] in tasks {
      assert r[i] in multiset(r);
    }
    forall i, j | 0 <= i < j < |r| ensures r[j].priority <= r[i].priority {
      assert r[i] in tasks && r[j] in tasks;
      assert key(r[j]) <= key(r[i]);
    }
  }

  /** Each task's priority, as the comparator reads it. */
  function Priorities(tasks: seq<TaskNode>): (m: map<TaskNode, real>)
    reads tasks`priority
    decreases |tasks|
  {
    if tasks == [] then map[]
    else
      var t := tasks[|tasks| - 1];
      Priorities(tasks[..|tasks| - 1])[t := t.priority]
  }

  /** The comparator reads each task's own priority. */
  lemma {:induction false} PrioritiesHold(tasks: seq<TaskNode>)
    ensures forall t :: t in tasks ==> t in Priorities(tasks) && Priorities(tasks)[t] == t.priority
    decreases |tasks|
  {
    if tasks != [] {
      PrioritiesHold(tasks[..|tasks| - 1]);
      forall t | t in tasks ensures t in Priorities(tasks) && Priorities(tasks)[t] == t.priority {
        if t != tasks[|tasks| - 1] {
          var i :| 0 <= i < |tasks| && tasks[i] == t;
          assert t in tasks[..|tasks| - 1];
        }
      }
    }
  }

  /** A key that looks the priority up. */
  function KeyOf(priorities: map<TaskNode, real>): TaskNode -> real
  {
    t => if t in priorities then priorities[t] else 0.0
  }

  /** Every dependency of a node comes earlier in the sequence. */
  ghost predicate TopologicalOrder(s: seq<TaskNode>)
    reads s`dependencies
  {
    forall k, d :: 0 <= k < |s| && d in s[k].dependencies ==> exists j :: 0 <= j < k && s[j] == d
  }

  /** `sorted` holds each task of `tasks` exactly once, larger priorities first, and
      when there is a device every dependency before its dependants. */
  ghost predicate RankOrdered(tasks: seq<TaskNode>, sorted: seq<TaskNode>, withDevice: bool)
    reads sorted`priority, sorted`dependencies
  {
    multiset(sorted) == multiset(tasks) && Distinct(sorted) &&
    (forall i :: 0 <= i < |sorted| ==> sorted[i] in tasks) &&
    (forall t :: t in tasks ==> t in sorted) &&
    (forall i, j :: 0 <= i < j < |sorted| ==> sorted[j].priority <= sorted[i].priority) &&
    (withDevice ==> TopologicalOrder(sorted))
  }

  /** Sorting by upward rank, largest first, puts every dependency before its
      dependants when there is a device, costs are positive and data sizes are not
      negative. */
  lemma RankOrderIsTopological(env: EdgeEnvironment, tasks: seq<TaskNode>, height: map<TaskNode, nat>,
                               sorted: seq<TaskNode>)
    requires env.Valid() && |env.devices| > 0 && Linked(tasks) && Ranked(tasks, height)
    requires forall t :: t in tasks ==> t.computationCost > 0.0 && t.dataSize >= 0.0
    requires forall t :: t in tasks ==> t.priority == UpwardRank(env, tasks, height, t)
    requires forall i, j :: 0 <= i < j < |sorted| ==> sorted[j].priority <= sorted[i].priority
    requires multiset(sorted) == multiset(tasks)
    ensures TopologicalOrder(sorted)
  {
    forall k, d | 0 <= k < |sorted| && d in sorted[k].dependencies
      ensures exists j :: 0 <= j < k && sorted[j] == d
    {
      var t := sorted[k];
      assert t in multiset(sorted);
      assert t in tasks;
      assert d in tasks && t in d.successors;
      RankDominates(env, tasks, height, d, t);
      assert d in multiset(tasks);
      var j :| 0 <= j < |sorted| && sorted[j] == d;
      assert sorted[k].priority < sorted[j].priority;
    }
  }

  /** The id, device, start and finish of each task, for the result functions. */
  function Outcomes(tasks: seq<TaskNode>): (os: seq<Outcome>)
    reads tasks`assignedDeviceId, tasks`startTime, tasks`finishTime
    ensures |os| == |tasks|
    ensures forall i :: 0 <= i < |tasks| ==>
              os[i] == Outcome(tasks[i].id, tasks[i].assignedDeviceId, tasks[i].startTime, tasks[i].finishTime)
    decreases |tasks|
  {
    if tasks == [] then []
    else
      var t := tasks[|tasks| - 1];
      Outcomes(tasks[..|tasks| - 1]) + [Outcome(t.id, t.assignedDeviceId, t.startTime, t.finishTime)]
  }

  /** The energy a device reports for the first tasks of a list, summed in order. */
  function DeviceEnergy(d: EdgeDevice, s: seq<TaskNode>): real
    requires d.mips > 0.0 && d.cores > 0
    decreases |s|
  {
    if s == [] then 0.0 else DeviceEnergy(d, s[..|s| - 1]) + d.EnergyConsumption(s[|s| - 1])
  }

  /** The energy of every task on the first devices, device by device. */
  function EnergyOver(devices: seq<EdgeDevice>): real
    requires forall i :: 0 <= i < |devices| ==> devices[i].mips > 0.0 && devices[i].cores > 0
    reads devices`scheduledTasks
    decreases |devices|
  {
    if devices == [] then 0.0
    else
      var d := devices[|devices| - 1];
      EnergyOver(devices[..|devices| - 1]) + DeviceEnergy(d, d.scheduledTasks)
  }

  /** A device whose power lies between a non-negative idle and a peak reports no
      negative energy for tasks of non-negative cost. */
  lemma {:induction false} DeviceEnergyNonNegative(d: EdgeDevice, s: seq<TaskNode>)
    requires d.mips > 0.0 && d.cores > 0 && 0.0 <= d.powerIdle <= d.powerMax
    requires forall t :: t in s ==> t.computationCost >= 0.0
    ensures DeviceEnergy(d, s) >= 0.0
    decreases |s|
  {
    if s != [] {
      DeviceEnergyNonNegative(d, s[..|s| - 1]);
    }
  }

  /** The total energy of devices with positive speed and cores and a power range
      from a non-negative idle, running tasks of non-negative cost, is not negative. */
  lemma {:induction false} EnergyOverNonNegative(devices: seq<EdgeDevice>)
    requires forall i :: 0 <= i < |devices| ==>
               devices[i].mips > 0.0 && devices[i].cores > 0 && 0.0 <= devices[i].powerIdle <= devices[i].powerMax
    requires forall i, t :: 0 <= i < |devices| && t in devices[i].scheduledTasks ==> t.computationCost >= 0.0
    ensures EnergyOver(devices) >= 0.0
    decreases |devices|
  {
    if devices != [] {
      var d := devices[|devices| - 1];
      EnergyOverNonNegative(devices[..|devices| - 1]);
      DeviceEnergyNonNegative(d, d.scheduledTasks);
    }
  }
}
