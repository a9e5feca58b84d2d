/** What `calculateResults` and `calculateQoS` of algorithm/CPOPScheduler.java make of
    the tasks once they are placed, as functions of each task's id, device, start and
    finish: the makespan, the share of tasks that meet their deadline
    `(id + 1) * 15`, the per-device busy time, and the QoS score that blends the
    deadline share (weight 0.7) with a load-balancing factor (weight 0.3). */
module EdgeResults {
  import opened Folds

  /** The part of a task's state the results read. */
  datatype Outcome = Outcome(id: int, device: int, start: real, finish: real)

  function FinishTimes(os: seq<Outcome>): (r: seq<real>)
    ensures |r| == |os| && forall i :: 0 <= i < |os| ==> r[i] == os[i].finish
  {
    seq(|os|, i requires 0 <= i < |os| => os[i].finish)
  }

  /** `mapToDouble(getFinishTime).max().orElse(0.0)`. */
  function Makespan(os: seq<Outcome>): real
  {
    if |os| == 0 then 0.0 else MaxFrom(os[0].finish, FinishTimes(os[1..]))
  }

  /** The makespan is the latest finish time: no task finishes later, and some task
      finishes exactly then; with no tasks it is 0. */
  lemma MakespanIsLatestFinish(os: seq<Outcome>)
    ensures |os| == 0 ==> Makespan(os) == 0.0
    ensures forall i :: 0 <= i < |os| ==> os[i].finish <= Makespan(os)
    ensures |os| > 0 ==> exists i :: 0 <= i < |os| && Makespan(os) == os[i].finish
  {
    if |os| > 0 {
      var rest := FinishTimes(os[1..]);
      MaxFromBounds(os[0].finish, rest);
      forall i | 1 <= i < |os| ensures os[i].finish <= Makespan(os) {
        assert rest[i - 1] == os[i].finish;
      }
      if Makespan(os) != os[0].finish {
        var j :| 0 <= j < |rest| && Makespan(os) == rest[j];
        assert Makespan(os) == os[j + 1].finish;
      }
    }
  }

  /** `task.getFinishTime() <= (task.getId() + 1) * 15.0`. */
  predicate DeadlineMet(o: Outcome)
  {
    o.finish <= (o.id + 1) as real * 15.0
  }

  /** The number of tasks that meet their deadline. */
  function MetCount(os: seq<Outcome>): (r: nat)
    ensures r <= |os|
    decreases |os|
  {
    if os == [] then 0
    else MetCount(os[..|os| - 1]) + if DeadlineMet(os[|os| - 1]) then 1 else 0
  }

  /** All tasks meet their deadline exactly when the count is the number of tasks. */
  lemma {:induction false} AllMetIffFullCount(os: seq<Outcome>)
    ensures MetCount(os) == |os| <==> forall i :: 0 <= i < |os| ==> DeadlineMet(os[i])
    decreases |os|
  {
    if os != [] {
      var front := os[..|os| - 1];
      AllMetIffFullCount(front);
      if forall i :: 0 <= i < |os| ==> DeadlineMet(os[i]) {
        assert forall i :: 0 <= i < |front| ==> DeadlineMet(front[i]) by {
          forall i | 0 <= i < |front| ensures DeadlineMet(front[i]) {
            assert front[i] == os[i];
          }
        }
      } else if MetCount(os) == |os| {
        assert MetCount(front) == |front| && DeadlineMet(os[|os| - 1]);
        forall i | 0 <= i < |os| ensures DeadlineMet(os[i]) {
          if i < |front| {
            assert front[i] == os[i];
          }
        }
        assert false;
      }
    }
  }

  /** `average()` over the 0/1 deadline marks, or 0 with no tasks. */
  function DeadlineSatisfaction(os: seq<Outcome>): real
  {
    if |os| == 0 then 0.0 else MetCount(os) as real / |os| as real
  }

  /** The deadline share lies in `[0, 1]` and is 1 exactly when there are tasks and
      every one of them meets its deadline. */
  lemma DeadlineSatisfactionBounds(os: seq<Outcome>)
    ensures 0.0 <= DeadlineSatisfaction(os) <= 1.0
    ensures DeadlineSatisfaction(os) == 1.0 <==>
            |os| > 0 && forall i :: 0 <= i < |os| ==> DeadlineMet(os[i])
  {
    if |os| > 0 {
      var c, n := MetCount(os) as real, |os| as real;
      QuotientAtMostOne(c, n);
      AllMetIffFullCount(os);
    }
  }

  lemma QuotientAtMostOne(c: real, n: real)
    requires 0.0 <= c <= n && 0.0 < n
    ensures 0.0 <= c / n <= 1.0 && (c / n == 1.0 <==> c == n)
  {
    var q := c / n;
    assert q * n == c;
    assert q > 1.0 ==> q * n > 1.0 * n;
    assert q < 0.0 ==> q * n < 0.0 * n;
  }

  /** Every outcome's device is below `n`: the loads array has `n` cells. */
  ghost predicate DevicesBelow(os: seq<Outcome>, n: nat)
  {
    forall i :: 0 <= i < |os| ==> os[i].device < n
  }

  /** The per-device busy time `deviceLoads`: each task on a device (device >= 0) adds
      `finish - start` to that device's cell, in list order. */
  function DeviceLoads(os: seq<Outcome>, n: nat): (loads: seq<real>)
    requires DevicesBelow(os, n)
    ensures |loads| == n
    decreases |os|
  {
    if os == [] then seq(n, _ => 0.0)
    else
      var loads := DeviceLoads(os[..|os| - 1], n);
      var o := os[|os| - 1];
      if o.device >= 0 then loads[o.device := loads[o.device] + (o.finish - o.start)] else loads
  }

  /** The loads after one more task: its run time added to its device's cell. */
  lemma DeviceLoadsStep(os: seq<Outcome>, n: nat, i: nat)
    requires DevicesBelow(os, n) && i < |os|
    ensures DevicesBelow(os[..i], n) && DevicesBelow(os[..i + 1], n)
    ensures var loads := DeviceLoads(os[..i], n);
            DeviceLoads(os[..i + 1], n) ==
              if os[i].device >= 0 then loads[os[i].device := loads[os[i].device] + (os[i].finish - os[i].start)]
              else loads
  {
    assert os[..i + 1][..i] == os[..i];
  }

  /** A device's load is the sum of the run times of the tasks on it. */
  function RunTimeOn(os: seq<Outcome>, device: int): real
    decreases |os|
  {
    if os == [] then 0.0
    else
      var o := os[|os| - 1];
      RunTimeOn(os[..|os| - 1], device) + if o.device == device then o.finish - o.start else 0.0
  }

  /** Each cell of the loads array holds exactly that device's total run time. */
  lemma {:induction false} DeviceLoadsAreRunTimes(os: seq<Outcome>, n: nat, v: nat)
    requires DevicesBelow(os, n) && v < n
    ensures DeviceLoads(os, n)[v] == RunTimeOn(os, v)
    decreases |os|
  {
    if os != [] {
      DeviceLoadsAreRunTimes(os[..|os| - 1], n, v);
    }
  }

  /** `Arrays.stream(xs).average().orElse(0.0)`. */
  function Mean(xs: seq<real>): real
  {
    if |xs| == 0 then 0.0 else Sum(xs) / |xs| as real
  }

  function SquaredDeviations(xs: seq<real>, mean: real): (r: seq<real>)
    ensures |r| == |xs| && forall i :: 0 <= i < |xs| ==> r[i] == Square(xs[i] - mean)
  {
    seq(|xs|, i requires 0 <= i < |xs| => Square(xs[i] - mean))
  }

  /** The mean of `Math.pow(load - avgLoad, 2)`, or 0 with no devices. */
  function Variance(xs: seq<real>): real
  {
    Mean(SquaredDeviations(xs, Mean(xs)))
  }

  /** `1 / (1 + variance / (avg * avg))` when the average load is positive, 1 otherwise. */
  function LoadBalancing(loads: seq<real>): real
  {
    var avg := Mean(loads);
    if avg > 0.0 then
      SquareSign(avg, avg * avg);
      VarianceNonNegative(loads);
      1.0 / (1.0 + Variance(loads) / (avg * avg))
    else 1.0
  }

  /** `calculateQoS`. */
  function Qos(os: seq<Outcome>, n: nat): real
    requires DevicesBelow(os, n)
  {
    0.7 * DeadlineSatisfaction(os) + 0.3 * LoadBalancing(DeviceLoads(os, n))
  }

  /** The variance is never negative. */
  lemma VarianceNonNegative(xs: seq<real>)
    ensures 0.0 <= Variance(xs)
  {
    var ds := SquaredDeviations(xs, Mean(xs));
    forall i | 0 <= i < |ds| ensures 0.0 <= ds[i] {
      SquareSign(xs[i] - Mean(xs), ds[i]);
    }
    SumNonNegative(ds);
    if |ds| > 0 {
      assert 0.0 <= Sum(ds) / |ds| as real;
    }
  }

  /** The balancing factor lies in `(0, 1]`, and is 1 when no device is busy on
      average. */
  lemma LoadBalancingBounds(loads: seq<real>)
    ensures 0.0 < LoadBalancing(loads) <= 1.0
    ensures Mean(loads) <= 0.0 ==> LoadBalancing(loads) == 1.0
  {
    var avg := Mean(loads);
    if avg > 0.0 {
      VarianceNonNegative(loads);
      var sq := avg * avg;
      SquareSign(avg, sq);
      var ratio := Variance(loads) / sq;
      assert ratio * sq == Variance(loads);
      assert ratio < 0.0 ==> ratio * sq < 0.0 * sq;
      ReciprocalBounds(1.0 + ratio);
      assert LoadBalancing(loads) == 1.0 / (1.0 + ratio);
    }
  }

  lemma ReciprocalBounds(x: real)
    requires 1.0 <= x
    ensures 0.0 < 1.0 / x <= 1.0
  {
    var q := 1.0 / x;
    assert q * x == 1.0;
    assert q > 1.0 ==> q * x > 1.0 * x;
  }

  /** QoS lies in `[0, 1]`; it is 1 exactly when there are tasks, every one meets its
      deadline, and the loads are perfectly balanced or idle. */
  lemma QosBounds(os: seq<Outcome>, n: nat)
    requires DevicesBelow(os, n)
    ensures 0.0 <= Qos(os, n) <= 1.0
    ensures Qos(os, n) == 1.0 <==>
            (|os| > 0 && (forall i :: 0 <= i < |os| ==> DeadlineMet(os[i]))) &&
            LoadBalancing(DeviceLoads(os, n)) == 1.0
  {
    DeadlineSatisfactionBounds(os);
    LoadBalancingBounds(DeviceLoads(os, n));
  }
}
