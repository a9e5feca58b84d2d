/** model/TaskNode.java: a task of the hand-rolled generation. Identity, computation
    cost and data size are fixed by the constructor; the dependency and successor lists
    grow through `addDependency`, and the scheduling state (priority, scheduled flag,
    device, start and finish) changes through its setters. Nodes are compared by
    reference, as the class does not override `equals`. */
module EdgeTasks {
  import opened Sorting

  class TaskNode {
    const id: int
    const computationCost: real
    const dataSize: real
    var dependencies: seq<TaskNode>
    var successors: seq<TaskNode>
    var priority: real
    var scheduled: bool
    var assignedDeviceId: int
    var startTime: real
    var finishTime: real

    /** A new node: no edges, priority 0, not scheduled, on no device (-1), both
        times 0. */
    constructor (id: int, computationCost: real, dataSize: real)
      ensures this.id == id && this.computationCost == computationCost
      ensures this.dataSize == dataSize
      ensures dependencies == [] && successors == []
      ensures priority == 0.0 && !scheduled && assignedDeviceId == -1
      ensures startTime == 0.0 && finishTime == 0.0
    {
      this.id := id;
      this.computationCost := computationCost;
      this.dataSize := dataSize;
      dependencies := [];
      successors := [];
      priority := 0.0;
      scheduled := false;
      assignedDeviceId := -1;
      startTime := 0.0;
      finishTime := 0.0;
    }

    /** `addDependency`: records `dependency` and mirrors the edge in the dependency's
        successor list, unless it is recorded already, in which case nothing changes.
        Either way `dependency` is recorded afterwards, so a second call is a no-op.
        Over any closed set of nodes, the lists stay free of repeats and mirror each
        other, and this node is ready exactly when it was and the new dependency is
        scheduled. */
    method AddDependency(dependency: TaskNode, ghost nodes: seq<TaskNode>)
      modifies this`dependencies, dependency`successors
      ensures dependency in old(dependencies) ==>
                dependencies == old(dependencies) && dependency.successors == old(dependency.successors)
      ensures dependency !in old(dependencies) ==>
                dependencies == old(dependencies) + [dependency] &&
                dependency.successors == old(dependency.successors) + [this]
      ensures dependency in dependencies
      ensures IsReady() <==> old(IsReady()) && dependency.scheduled
      ensures old(Linked(nodes)) && this in nodes && dependency in nodes ==> Linked(nodes)
    {
      if dependency !in dependencies {
        ghost var linked := Linked(nodes) && this in nodes && dependency in nodes;
        ghost var before, after := dependencies, dependency.successors;
        if linked {
          assert this !in after;
          DistinctSnoc(before, dependency);
          DistinctSnoc(after, this);
        }
        dependencies := dependencies + [dependency];
        dependency.successors := dependency.successors + [this];
        assert forall d :: d in dependencies <==> d in before || d == dependency;
        if linked {
          forall t, d | t in nodes && d in nodes
            ensures d in t.dependencies <==> t in d.successors
          {
            assert t.dependencies == if t == this then before + [dependency] else old(t.dependencies);
            assert d.successors == if d == dependency then after + [this] else old(d.successors);
          }
          forall t | t in nodes
            ensures Distinct(t.dependencies) && Distinct(t.successors)
            ensures (forall d :: d in t.dependencies ==> d in nodes) && (forall s :: s in t.successors ==> s in nodes)
          {
            assert t.dependencies == if t == this then before + [dependency] else old(t.dependencies);
            assert t.successors == if t == dependency then after + [this] else old(t.successors);
          }
        }
      }
    }

    /** `isReady`: every dependency is scheduled (vacuously so with none). */
    predicate IsReady()
      reads this`dependencies, dependencies`scheduled
      ensures |dependencies| == 0 ==> IsReady()
      ensures IsReady() <==> !exists i :: 0 <= i < |dependencies| && !dependencies[i].scheduled
    {
      forall d :: d in dependencies ==> d.scheduled
    }

    method SetPriority(priority: real)
      modifies this`priority
      ensures this.priority == priority
    {
      this.priority := priority;
    }

    method SetScheduled(scheduled: bool)
      modifies this`scheduled
      ensures this.scheduled == scheduled
    {
      this.scheduled := scheduled;
    }

    method SetAssignedDeviceId(deviceId: int)
      modifies this`assignedDeviceId
      ensures assignedDeviceId == deviceId
    {
      assignedDeviceId := deviceId;
    }

    method SetStartTime(startTime: real)
      modifies this`startTime
      ensures this.startTime == startTime
    {
      this.startTime := startTime;
    }

    method SetFinishTime(finishTime: real)
      modifies this`finishTime
      ensures this.finishTime == finishTime
    {
      this.finishTime := finishTime;
    }
  }

  /** Every node that a node of `nodes` links to is itself in `nodes`. */
  ghost predicate Closed(nodes: seq<TaskNode>)
    reads nodes`dependencies, nodes`successors
  {
    forall t :: t in nodes ==>
      (forall d :: d in t.dependencies ==> d in nodes) &&
      (forall s :: s in t.successors ==> s in nodes)
  }

  /** The shape `addDependency` keeps: a closed set of nodes whose lists have no
      repeats, where `d` is a dependency of `t` exactly when `t` is a successor of `d`. */
  ghost predicate Linked(nodes: seq<TaskNode>)
    reads nodes`dependencies, nodes`successors
  {
    Closed(nodes) &&
    (forall t :: t in nodes ==> Distinct(t.dependencies) && Distinct(t.successors)) &&
    (forall t, d :: t in nodes && d in nodes ==> (d in t.dependencies <==> t in d.successors))
  }

  /** Appending an absent element keeps a list free of repeats. */
  lemma DistinctSnoc<T>(s: seq<T>, x: T)
    requires Distinct(s) && x !in s
    ensures Distinct(s + [x])
  {
    var r := s + [x];
    forall i, j | 0 <= i < j < |r| ensures r[i] != r[j] {
      if j == |s| {
        assert r[i] == s[i];
      } else {
        assert r[i] == s[i] && r[j] == s[j];
      }
    }
  }
}
