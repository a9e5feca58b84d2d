/** model/EdgeDevice.java: an edge device of the hand-rolled generation. Its id, speed,
    core count, idle and peak power and bandwidth are fixed by the constructor; only
    its clock (`availableTime`) and the list of tasks placed on it change. */
module EdgeDevices {
  import opened EdgeTasks

  /** `Math.min` on doubles. */
  function Min(a: real, b: real): (r: real)
    ensures r <= a && r <= b && (r == a || r == b)
  {
    if a <= b then a else b
  }

  class EdgeDevice {
    const id: int
    const mips: real
    const cores: int
    const powerIdle: real
    const powerMax: real
    const bandwidth: real
    var availableTime: real
    var scheduledTasks: seq<TaskNode>

    constructor (id: int, mips: real, cores: int, powerIdle: real, powerMax: real, bandwidth: real)
      ensures this.id == id && this.mips == mips && this.cores == cores
      ensures this.powerIdle == powerIdle && this.powerMax == powerMax
      ensures this.bandwidth == bandwidth
      ensures availableTime == 0.0 && scheduledTasks == []
    {
      this.id := id;
      this.mips := mips;
      this.cores := cores;
      this.powerIdle := powerIdle;
      this.powerMax := powerMax;
      this.bandwidth := bandwidth;
      availableTime := 0.0;
      scheduledTasks := [];
    }

    /** `calculateExecutionTime`: the task's cost at this device's speed; it takes
        `mips` times the result to run the task, and a task of positive cost takes
        positive time. */
    function ExecutionTime(task: TaskNode): (r: real)
      requires mips > 0.0
      ensures r * mips == task.computationCost
      ensures task.computationCost >= 0.0 ==> r >= 0.0
      ensures task.computationCost > 0.0 ==> r > 0.0
    {
      task.computationCost / mips
    }

    /** The share of the device's capacity (`mips * cores`) the task needs, capped at
        1; it lies in `[0, 1]` for a task of non-negative cost. */
    function Utilization(task: TaskNode): (r: real)
      requires mips > 0.0 && cores > 0
      ensures r <= 1.0
      ensures task.computationCost >= 0.0 ==> 0.0 <= r
    {
      Min(1.0, task.computationCost / (mips * cores as real))
    }

    /** The power drawn while running the task: idle power plus the utilised share of
        the span up to peak power. */
    function Power(task: TaskNode): (r: real)
      requires mips > 0.0 && cores > 0
      ensures powerIdle <= powerMax && task.computationCost >= 0.0 ==> powerIdle <= r <= powerMax
    {
      var u, span := Utilization(task), powerMax - powerIdle;
      assert powerIdle <= powerMax && task.computationCost >= 0.0 ==> 0.0 <= u * span <= span by {
        if powerIdle <= powerMax && task.computationCost >= 0.0 {
          ScaleBetween(0.0, u, 1.0, span);
        }
      }
      powerIdle + span * u
    }

    /** `calculateEnergyConsumption`: power times execution time. For a task of
        non-negative cost and a peak power at least the idle power, the energy lies
        between what the execution time takes at idle and at peak power, and is
        therefore never negative when idle power is not. */
    function EnergyConsumption(task: TaskNode): (r: real)
      requires mips > 0.0 && cores > 0
      ensures powerIdle <= powerMax && task.computationCost >= 0.0 ==>
                powerIdle * ExecutionTime(task) <= r <= powerMax * ExecutionTime(task) &&
                (powerIdle >= 0.0 ==> r >= 0.0)
    {
      var p, e := Power(task), ExecutionTime(task);
      assert powerIdle <= powerMax && task.computationCost >= 0.0 ==>
               powerIdle * e <= p * e <= powerMax * e && (powerIdle >= 0.0 ==> p * e >= 0.0) by {
        if powerIdle <= powerMax && task.computationCost >= 0.0 {
          ScaleBetween(powerIdle, p, powerMax, e);
        }
      }
      p * e
    }

    /** `scheduleTask`: the task runs on this device from `startTime` for its
        execution time; it is appended to the device's list, and the device is busy
        until the task finishes. */
    method ScheduleTask(task: TaskNode, startTime: real)
      requires mips > 0.0
      modifies task`assignedDeviceId, task`startTime, task`finishTime
      modifies this`scheduledTasks, this`availableTime
      ensures task.assignedDeviceId == id && task.startTime == startTime
      ensures task.finishTime == startTime + ExecutionTime(task)
      ensures scheduledTasks == old(scheduledTasks) + [task]
      ensures availableTime == task.finishTime
    {
      task.SetAssignedDeviceId(id);
      task.SetStartTime(startTime);
      task.SetFinishTime(startTime + ExecutionTime(task));
      scheduledTasks := scheduledTasks + [task];
      availableTime := task.finishTime;
    }

    method SetAvailableTime(time: real)
      modifies this`availableTime
      ensures availableTime == time
    {
      availableTime := time;
    }

    /** `getScheduledTasks().clear()`. */
    method ClearScheduledTasks()
      modifies this`scheduledTasks
      ensures scheduledTasks == []
    {
      scheduledTasks := [];
    }
  }

  lemma ScaleBetween(lo: real, x: real, hi: real, e: real)
    requires lo <= x <= hi && 0.0 <= e
    ensures lo * e <= x * e <= hi * e
    ensures lo >= 0.0 ==> x * e >= 0.0
  {
    assert (x - lo) * e >= 0.0;
    assert (hi - x) * e >= 0.0;
  }

  /** A task finishes its execution time after it starts on the device. */
  lemma ScheduledRunsForExecutionTime(d: EdgeDevice, task: TaskNode, start: real)
    requires d.mips > 0.0 && task.computationCost >= 0.0
    requires task.startTime == start && task.finishTime == start + d.ExecutionTime(task)
    ensures task.finishTime - task.startTime == d.ExecutionTime(task) >= 0.0
    ensures task.finishTime * d.mips - task.startTime * d.mips == task.computationCost
  {
    var e := d.ExecutionTime(task);
    assert task.finishTime * d.mips == start * d.mips + e * d.mips;
  }
}
