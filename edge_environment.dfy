/** environment/EdgeEnvironment.java: the devices of the hand-rolled generation and the
    delays between them. The constructor seeds its own `Random`, draws every device
    (speed, cores, idle and peak power, bandwidth) and then one delay for every ordered
    pair of distinct devices; afterwards neither the list nor the matrix changes. */
module EdgeEnvironments {
  import opened JavaRandom
  import opened EdgeDevices

  /** Device `i` as `createEdgeDevices` builds it from the five draws at `base`:
      speed, cores, idle power, peak power and bandwidth, in that order. */
  ghost predicate DrawnDevice(d: EdgeDevice, i: nat, stream: nat -> nat, base: nat)
  {
    d.id == i &&
    d.mips == 1000.0 + UnitDraw(stream(base)) * 2000.0 &&
    d.cores == 2 + BoundedDraw(stream(base + 1), 3) &&
    d.powerIdle == 10.0 + UnitDraw(stream(base + 2)) * 10.0 &&
    d.powerMax == 50.0 + UnitDraw(stream(base + 3)) * 50.0 &&
    d.bandwidth == 50.0 + UnitDraw(stream(base + 4)) * 50.0
  }

  /** The ranges those draws fall in. */
  ghost predicate DeviceInRange(d: EdgeDevice)
  {
    1000.0 <= d.mips < 3000.0 && 2 <= d.cores <= 4 &&
    10.0 <= d.powerIdle < 20.0 && 50.0 <= d.powerMax < 100.0 &&
    50.0 <= d.bandwidth < 100.0
  }

  /** Every drawn device lies in those ranges; in particular its peak power exceeds
      its idle power. */
  lemma DrawnDeviceInRange(d: EdgeDevice, i: nat, stream: nat -> nat, base: nat)
    requires DrawnDevice(d, i, stream, base)
    ensures DeviceInRange(d) && d.powerIdle < d.powerMax
  {
  }

  /** A device as its constructor leaves it: free from time 0, with no tasks. */
  ghost predicate Idle(d: EdgeDevice)
    reads d
  {
    d.availableTime == 0.0 && d.scheduledTasks == []
  }

  /** A cell of the delay matrix as `initializeCommunicationMatrix` leaves it: 0 on
      the diagonal and in `[1, 10)` elsewhere. */
  ghost predicate DelayCell(i: nat, j: nat, delay: real)
  {
    if i == j then delay == 0.0 else 1.0 <= delay < 10.0
  }

  /** Where the delay of the ordered pair `(i, j)`, `i != j`, comes in the draws of
      `initializeCommunicationMatrix`: row by row, `n - 1` draws per row, the diagonal
      skipped. */
  function DelayDrawIndex(n: nat, i: nat, j: nat): (k: nat)
    requires i < n && j < n && i != j
    ensures k < n * (n - 1)
  {
    RowStartBound(n, i);
    i * (n - 1) + (if j < i then j else j - 1)
  }

  lemma RowStartBound(n: nat, i: nat)
    requires i < n
    ensures i * (n - 1) + (n - 1) <= n * (n - 1)
  {
    assert i * (n - 1) + (n - 1) == (i + 1) * (n - 1);
  }

  /** A cell of the delay matrix as `initializeCommunicationMatrix` fills it from the
      draws starting at `base`: 0 on the diagonal, `1 + 9 * nextDouble()` with the
      pair's own draw elsewhere. */
  ghost predicate DrawnDelay(n: nat, i: nat, j: nat, delay: real, stream: nat -> nat, base: nat)
    requires i < n && j < n
  {
    if i == j then delay == 0.0 else delay == 1.0 + UnitDraw(stream(base + DelayDrawIndex(n, i, j))) * 9.0
  }

  class EdgeEnvironment {
    const devices: seq<EdgeDevice>
    const communicationMatrix: array2<real>
    const random: Random

    /** Device `i` has id `i` and lies in the drawn ranges, and the matrix has one row
        and one column per device. */
    ghost predicate Shape()
    {
      communicationMatrix.Length0 == |devices| && communicationMatrix.Length1 == |devices| &&
      forall i :: 0 <= i < |devices| ==> devices[i].id == i && DeviceInRange(devices[i])
    }

    ghost predicate Delays()
      reads communicationMatrix
    {
      forall i, j :: 0 <= i < communicationMatrix.Length0 && 0 <= j < communicationMatrix.Length1 ==>
        DelayCell(i, j, communicationMatrix[i, j])
    }

    ghost predicate Valid()
      reads communicationMatrix
    {
      Shape() && Delays()
    }

    /** `EdgeEnvironment(numDevices, seed)`: `numDevices` fresh devices, device `i`
        made from draws `5i .. 5i+4` of the seeded stream, idle and with no tasks,
        followed by a fresh delay matrix whose cells off the diagonal take the next
        `numDevices * (numDevices - 1)` draws, row by row. */
    constructor (numDevices: nat, seed: nat -> nat)
      ensures Valid() && |devices| == numDevices
      ensures forall i :: 0 <= i < numDevices ==> DrawnDevice(devices[i], i, seed, 5 * i)
      ensures forall i :: 0 <= i < numDevices ==>
                fresh(devices[i]) && Idle(devices[i])
      ensures forall i, j :: 0 <= i < numDevices && 0 <= j < numDevices ==>
                DrawnDelay(numDevices, i, j, communicationMatrix[i, j], seed, 5 * numDevices)
      ensures fresh(random) && random.stream == seed && fresh(communicationMatrix)
      ensures random.cursor == 5 * numDevices + numDevices * (numDevices - 1)
    {
      var r := new Random(seed);
      ghost var start := r.cursor;
      var ds := CreateEdgeDevices(r, numDevices);
      forall i | 0 <= i < numDevices ensures DrawnDevice(ds[i], i, seed, 5 * i) && DeviceInRange(ds[i]) {
        assert start + 5 * i == 5 * i;
        DrawnDeviceInRange(ds[i], i, seed, 5 * i);
      }
      var m := new real[numDevices, numDevices];
      InitializeCommunicationMatrix(r, m);
      devices := ds;
      communicationMatrix := m;
      random := r;
    }

    /** `getCommunicationTime`: nothing between a device and itself; otherwise the
        pair's delay plus the transfer of `dataSize` over the slower of the two links,
        which takes at least the 1-unit minimum delay for non-negative data and less
        than the 10-unit maximum delay plus the transfer at the slowest bandwidth, 50. */
    function CommunicationTime(fromDevice: int, toDevice: int, dataSize: real): (r: real)
      requires Shape()
      requires fromDevice == toDevice || (0 <= fromDevice < |devices| && 0 <= toDevice < |devices|)
      reads communicationMatrix
      ensures fromDevice == toDevice ==> r == 0.0
      ensures fromDevice != toDevice && Delays() && dataSize >= 0.0 ==> 1.0 <= r < 10.0 + dataSize / 50.0
    {
      if fromDevice == toDevice then 0.0
      else
        var bandwidth := Min(devices[fromDevice].bandwidth, devices[toDevice].bandwidth);
        TransferBound(dataSize, bandwidth);
        assert Delays() ==> DelayCell(fromDevice, toDevice, communicationMatrix[fromDevice, toDevice]);
        communicationMatrix[fromDevice, toDevice] + dataSize / bandwidth
    }

    /** `getDevice`: the device with the given id. */
    function GetDevice(id: int): (d: EdgeDevice)
      requires Shape() && 0 <= id < |devices|
      ensures d.id == id && d in devices
    {
      devices[id]
    }
  }

  /** Moving non-negative data over a link of at least 50 takes no longer than over
      one of exactly 50, and no negative time. */
  lemma TransferBound(dataSize: real, bandwidth: real)
    requires 50.0 <= bandwidth
    ensures dataSize >= 0.0 ==> 0.0 <= dataSize / bandwidth <= dataSize / 50.0
  {
    if dataSize >= 0.0 {
      var q := dataSize / bandwidth;
      assert q * bandwidth == dataSize;
      assert q * 50.0 <= dataSize;
    }
  }

  /** `createEdgeDevices`: device `i` is made from the five draws following the `5i`
      drawn before it. */
  method CreateEdgeDevices(random: Random, numDevices: nat) returns (devices: seq<EdgeDevice>)
    modifies random`cursor
    ensures |devices| == numDevices && random.cursor == old(random.cursor) + 5 * numDevices
    ensures forall i :: 0 <= i < numDevices ==>
              DrawnDevice(devices[i], i, random.stream, old(random.cursor) + 5 * i)
    ensures forall i :: 0 <= i < numDevices ==>
              fresh(devices[i]) && Idle(devices[i])
  {
    devices := [];
    for i := 0 to numDevices
      invariant |devices| == i && random.cursor == old(random.cursor) + 5 * i
      invariant forall k :: 0 <= k < i ==>
                  DrawnDevice(devices[k], k, random.stream, old(random.cursor) + 5 * k)
      invariant forall k :: 0 <= k < i ==>
                  fresh(devices[k]) && Idle(devices[k])
    {
      var d := DrawDevice(random, i);
      devices := devices + [d];
    }
  }

  /** One turn of `createEdgeDevices`. */
  method DrawDevice(random: Random, i: nat) returns (d: EdgeDevice)
    modifies random`cursor
    ensures random.cursor == old(random.cursor) + 5
    ensures DrawnDevice(d, i, random.stream, old(random.cursor))
    ensures fresh(d) && Idle(d)
  {
    var speed := random.NextDouble();
    var extraCores := random.NextInt(3);
    var idle := random.NextDouble();
    var peak := random.NextDouble();
    var link := random.NextDouble();
    d := new EdgeDevice(i, 1000.0 + speed * 2000.0, 2 + extraCores, 10.0 + idle * 10.0,
                        50.0 + peak * 50.0, 50.0 + link * 50.0);
  }

  /** `initializeCommunicationMatrix`: every cell of the square matrix is set, the
      diagonal to 0 and every other cell, row by row, to a fresh delay
      `1 + 9 * nextDouble()`, which lies in `[1, 10)`; one draw per ordered pair of
      distinct devices is used. */
  method InitializeCommunicationMatrix(random: Random, m: array2<real>)
    requires m.Length0 == m.Length1
    modifies random`cursor, m
    ensures random.cursor == old(random.cursor) + m.Length0 * (m.Length0 - 1)
    ensures forall i, j :: 0 <= i < m.Length0 && 0 <= j < m.Length1 ==>
              DrawnDelay(m.Length0, i, j, m[i, j], random.stream, old(random.cursor))
    ensures forall i, j :: 0 <= i < m.Length0 && 0 <= j < m.Length1 ==> DelayCell(i, j, m[i, j])
  {
    var n := m.Length0;
    ghost var base := random.cursor;
    for i := 0 to n
      invariant random.cursor == base + i * (n - 1)
      invariant forall r, c :: 0 <= r < i && 0 <= c < n ==>
                  DrawnDelay(n, r, c, m[r, c], random.stream, base) && DelayCell(r, c, m[r, c])
    {
      for j := 0 to n
        invariant random.cursor == base + i * (n - 1) + (if j <= i then j else j - 1)
        invariant forall r, c :: 0 <= r < i && 0 <= c < n ==>
                    DrawnDelay(n, r, c, m[r, c], random.stream, base) && DelayCell(r, c, m[r, c])
        invariant forall c :: 0 <= c < j ==>
                    DrawnDelay(n, i, c, m[i, c], random.stream, base) && DelayCell(i, c, m[i, c])
      {
        if i == j {
          m[i, j] := 0.0;
        } else {
          var d := random.NextDouble();
          m[i, j] := 1.0 + d * 9.0;
        }
      }
      assert random.cursor == base + (i + 1) * (n - 1);
    }
  }

}
