/** The critical path and the critical processor of algorithms/CPOPScheduler.java.
    The path starts at a task of greatest priority (`upwardRank + downwardRank`) and
    then, from each task, steps to the unvisited successor of strictly greatest
    priority, the first one in edge order winning ties, until no unvisited successor
    is left. The critical processor is the first VM of least total execution time
    over the path. */
module CpopPath {
  import opened Wrappers
  import opened Folds
  import opened Sorting
  import opened Dags
  import opened Costs
  import opened CpopRanks

  /** The priority `findCriticalPath` and `buildActualCriticalPath` compare. */
  function Priority(up: map<nat, real>, down: map<nat, real>): nat -> real
  {
    (t: nat) => Get(up, t) + Get(down, t)
  }

  /** The successor scan of `buildActualCriticalPath`: over the candidates in edge
      order, keep an unvisited one whose priority is strictly above the best so far;
      `None` stands for `nextTask == null` (the scan starts from negative infinity). */
  function BestUnvisited(cands: seq<nat>, visited: seq<nat>, prio: nat -> real): (r: Option<nat>)
    ensures r.Some? ==> r.value in cands && r.value !in visited
    decreases |cands|
  {
    if cands == [] then None
    else
      var prev := BestUnvisited(cands[..|cands| - 1], visited, prio);
      var c := cands[|cands| - 1];
      if c in visited then prev
      else if prev.None? || prio(prev.value) < prio(c) then Some(c)
      else prev
  }

  /** The scan finds nothing exactly when every candidate was visited; otherwise it
      finds an unvisited candidate of greatest priority, and every unvisited candidate
      before its first occurrence has a strictly smaller priority. */
  lemma {:induction false} BestUnvisitedProperties(cands: seq<nat>, visited: seq<nat>, prio: nat -> real)
    ensures BestUnvisited(cands, visited, prio).None? <==> forall c :: c in cands ==> c in visited
    ensures BestUnvisited(cands, visited, prio).Some? ==>
              var b := BestUnvisited(cands, visited, prio).value;
              && (forall c :: c in cands && c !in visited ==> prio(c) <= prio(b))
              && exists k :: 0 <= k < |cands| && cands[k] == b &&
                   forall j :: 0 <= j < k && cands[j] !in visited ==> prio(cands[j]) < prio(b)
    decreases |cands|
  {
    if cands != [] {
      var front := cands[..|cands| - 1];
      var c := cands[|cands| - 1];
      BestUnvisitedProperties(front, visited, prio);
      var prev := BestUnvisited(front, visited, prio);
      assert forall x :: x in cands <==> x in front || x == c by {
        assert cands == front + [c];
      }
      if c !in visited && (prev.None? || prio(prev.value) < prio(c)) {
        var k := |cands| - 1;
        forall j | 0 <= j < k && cands[j] !in visited ensures prio(cands[j]) < prio(c) {
          assert cands[j] == front[j];
        }
      } else if prev.Some? {
        var k :| 0 <= k < |front| && front[k] == prev.value &&
                 forall j :: 0 <= j < k && front[j] !in visited ==> prio(front[j]) < prio(prev.value);
        assert cands[k] == prev.value;
        forall j | 0 <= j < k && cands[j] !in visited ensures prio(cands[j]) < prio(prev.value) {
          assert cands[j] == front[j];
        }
      }
    }
  }

  /** The vertices not yet on the path: what the walk's recursion uses up. */
  ghost function Unvisited(g: Dag, path: seq<nat>): set<nat>
  {
    set t | 0 <= t < |g.tasks| && t !in path
  }

  /** `buildActualCriticalPath(cur, path, visited)`: the path it leaves. `visited`
      always holds exactly the tasks of `path`, so the walk tests membership in
      `path`. */
  function CriticalWalk(g: Dag, prio: nat -> real, cur: nat, path: seq<nat>): seq<nat>
    requires WellFormed(g) && cur < |g.tasks|
    decreases Unvisited(g, path)
  {
    if cur in path then path
    else
      var next := BestUnvisited(Successors(g.edges, cur), path + [cur], prio);
      if next.None? then path + [cur]
      else
        SuccessorInGraph(g, cur, next.value);
        assert Unvisited(g, path + [cur]) < Unvisited(g, path) by {
          assert cur in Unvisited(g, path) && cur !in Unvisited(g, path + [cur]);
        }
        CriticalWalk(g, prio, next.value, path + [cur])
  }

  /** Each step of `path` from position `from` on went to the successor the scan
      picks, and the scan from the last task finds nothing. */
  ghost predicate GreedyFrom(g: Dag, prio: nat -> real, path: seq<nat>, from: nat)
  {
    && (forall i :: from <= i < |path| - 1 ==>
          BestUnvisited(Successors(g.edges, path[i]), path[..i + 1], prio) == Some(path[i + 1]))
    && (from < |path| ==> BestUnvisited(Successors(g.edges, path[|path| - 1]), path, prio) == None)
  }

  /** The walk extends the path it is given, never repeats a task, starts its own part
      with `cur` (unless `cur` was visited already) and takes greedy steps. */
  lemma {:induction false} CriticalWalkProperties(g: Dag, prio: nat -> real, cur: nat, path: seq<nat>)
    requires WellFormed(g) && cur < |g.tasks| && InGraph(g, path) && Distinct(path)
    ensures var r := CriticalWalk(g, prio, cur, path);
            && |path| <= |r| && r[..|path|] == path
            && Distinct(r) && InGraph(g, r)
            && (cur !in path ==> |path| < |r| && r[|path|] == cur)
            && GreedyFrom(g, prio, r, |path|)
    decreases Unvisited(g, path)
  {
    if cur !in path {
      var p := path + [cur];
      assert Distinct(p) && InGraph(g, p);
      var next := BestUnvisited(Successors(g.edges, cur), p, prio);
      if next.Some? {
        SuccessorInGraph(g, cur, next.value);
        assert Unvisited(g, p) < Unvisited(g, path) by {
          assert cur in Unvisited(g, path) && cur !in Unvisited(g, p);
        }
        CriticalWalkProperties(g, prio, next.value, p);
        var r := CriticalWalk(g, prio, next.value, p);
        assert r[..|p|] == p;
        assert r[..|path|] == path by {
          assert r[..|path|] == r[..|p|][..|path|];
        }
        assert r[|path|] == cur by {
          assert r[..|p|][|path|] == r[|path|];
        }
        assert r[..|path| + 1] == p;
      }
    }
  }

  /** The first task of `vertexSet()` once sorted by descending priority: a task of
      greatest priority, the first such in id order. */
  function CriticalPathStart(g: Dag, prio: nat -> real): (r: nat)
    requires |g.tasks| > 0
    ensures r < |g.tasks|
  {
    var sorted := SortDesc(Ids(|g.tasks|), prio);
    SortDescPermutes(Ids(|g.tasks|), prio);
    assert sorted[0] in multiset(Ids(|g.tasks|));
    sorted[0]
  }

  /** The start has the greatest priority of all tasks. */
  lemma CriticalPathStartIsMaximal(g: Dag, prio: nat -> real)
    requires |g.tasks| > 0
    ensures forall t :: 0 <= t < |g.tasks| ==> prio(t) <= prio(CriticalPathStart(g, prio))
  {
    HeadIsMaximal(Ids(|g.tasks|), prio);
    forall t | 0 <= t < |g.tasks| ensures prio(t) <= prio(CriticalPathStart(g, prio)) {
      assert Ids(|g.tasks|)[t] == t;
    }
  }

  /** Ties go to the lowest id: every task before the start has a strictly smaller
      priority. */
  lemma CriticalPathStartIsFirst(g: Dag, prio: nat -> real)
    requires |g.tasks| > 0
    ensures forall t :: 0 <= t < CriticalPathStart(g, prio) ==> prio(t) < prio(CriticalPathStart(g, prio))
  {
    var ids := Ids(|g.tasks|);
    HeadIsFirstMaximal(ids, prio);
    var i :| 0 <= i < |ids| && ids[i] == SortDesc(ids, prio)[0] &&
             forall j :: 0 <= j < i ==> prio(ids[j]) < prio(ids[i]);
    forall t | 0 <= t < CriticalPathStart(g, prio) ensures prio(t) < prio(CriticalPathStart(g, prio)) {
      assert ids[t] == t;
    }
  }

  /** From an exit task the walk stops at once. */
  lemma WalkFromExitTask(g: Dag, prio: nat -> real, cur: nat)
    requires WellFormed(g) && cur < |g.tasks| && Successors(g.edges, cur) == []
    ensures CriticalWalk(g, prio, cur, []) == [cur]
  {
    assert BestUnvisited(Successors(g.edges, cur), [] + [cur], prio) == None;
  }

  /** `findCriticalPath`: empty for an empty graph, otherwise the walk from the start. */
  function CriticalPath(g: Dag, up: map<nat, real>, down: map<nat, real>): seq<nat>
    requires WellFormed(g)
  {
    if |g.tasks| == 0 then []
    else CriticalWalk(g, Priority(up, down), CriticalPathStart(g, Priority(up, down)), [])
  }

  /** The critical path is empty only for an empty graph; it starts at a task of
      greatest priority, repeats no task, joins consecutive tasks by an edge, and
      every step is the greedy one. */
  lemma CriticalPathProperties(g: Dag, up: map<nat, real>, down: map<nat, real>)
    requires WellFormed(g)
    ensures var r := CriticalPath(g, up, down);
            && (r == [] <==> |g.tasks| == 0)
            && (|g.tasks| > 0 ==> forall t :: 0 <= t < |g.tasks| ==>
                  Priority(up, down)(t) <= Priority(up, down)(r[0]))
            && Distinct(r) && InGraph(g, r)
            && (forall i :: 0 <= i < |r| - 1 ==> (r[i], r[i + 1]) in g.edges)
            && GreedyFrom(g, Priority(up, down), r, 0)
  {
    if |g.tasks| > 0 {
      var prio := Priority(up, down);
      var start := CriticalPathStart(g, prio);
      CriticalWalkProperties(g, prio, start, []);
      var r := CriticalPath(g, up, down);
      CriticalPathStartIsMaximal(g, prio);
      forall i | 0 <= i < |r| - 1 ensures (r[i], r[i + 1]) in g.edges {
        assert r[i + 1] in Successors(g.edges, r[i]);
      }
    }
  }

  /** A walk along edges visits its tasks in topological order, so no edge leads from
      a later task of the path back to an earlier one. */
  lemma {:induction false} WalkFollowsTopologicalOrder(g: Dag, topo: seq<nat>, path: seq<nat>)
    requires WellFormed(g) && IsTopologicalOrder(g, topo) && InGraph(g, path)
    requires forall i :: 0 <= i < |path| - 1 ==> (path[i], path[i + 1]) in g.edges
    ensures forall i, j :: 0 <= i < j < |path| ==> IndexIn(topo, path[i]) < IndexIn(topo, path[j])
    decreases |path|
  {
    if |path| > 1 {
      var front := path[..|path| - 1];
      WalkFollowsTopologicalOrder(g, topo, front);
      var n := |path| - 1;
      EdgeGoesForward(g, topo, path[n - 1], path[n]);
      forall i, j | 0 <= i < j < |path| ensures IndexIn(topo, path[i]) < IndexIn(topo, path[j]) {
        assert path[i] == front[i];
        if j < n {
          assert path[j] == front[j];
        } else if i < n - 1 {
          assert front[i] == path[i] && front[n - 1] == path[n - 1];
        }
      }
    }
  }

  /** Consequently an edge between two tasks of the path goes forward along it. */
  lemma PathEdgesGoForward(g: Dag, topo: seq<nat>, path: seq<nat>, i: nat, j: nat)
    requires WellFormed(g) && IsTopologicalOrder(g, topo) && InGraph(g, path)
    requires forall k :: 0 <= k < |path| - 1 ==> (path[k], path[k + 1]) in g.edges
    requires i < |path| && j < |path| && (path[i], path[j]) in g.edges
    ensures i < j
  {
    WalkFollowsTopologicalOrder(g, topo, path);
    EdgeGoesForward(g, topo, path[i], path[j]);
  }

  // --------------------------------------------------------- critical processor

  /** The total execution time of the path on each VM, in list order. */
  function PathCosts(g: Dag, vms: seq<Vm>, path: seq<nat>): (r: seq<real>)
    requires ValidVms(vms) && InGraph(g, path)
    ensures |r| == |vms|
  {
    seq(|vms|, v requires 0 <= v < |vms| => PathCost(g, vms[v], path))
  }

  /** `totalExecutionTime` for one VM: the sum over the path, in path order. */
  function PathCost(g: Dag, vm: Vm, path: seq<nat>): real
    requires vm.mips > 0.0 && InGraph(g, path)
    decreases |path|
  {
    if path == [] then 0.0
    else PathCost(g, vm, path[..|path| - 1]) + ExecutionTime(g.tasks[path[|path| - 1]], vm)
  }

  /** `findCriticalProcessor`: the first VM for an empty path, otherwise the scan
      keeping the first VM of strictly smaller total. */
  function CriticalProcessor(g: Dag, vms: seq<Vm>, path: seq<nat>): (r: nat)
    requires ValidVms(vms) && |vms| > 0 && InGraph(g, path)
    ensures r < |vms|
  {
    if path == [] then 0 else ArgMinFirst(PathCosts(g, vms, path))
  }

  /** The critical processor runs the whole path no slower than any VM, and strictly
      faster than every VM listed before it. */
  lemma CriticalProcessorIsFirstFastest(g: Dag, vms: seq<Vm>, path: seq<nat>)
    requires ValidVms(vms) && |vms| > 0 && InGraph(g, path)
    ensures var c := CriticalProcessor(g, vms, path);
            && (forall v :: 0 <= v < |vms| ==> PathCost(g, vms[c], path) <= PathCost(g, vms[v], path))
            && (forall v :: 0 <= v < c ==> PathCost(g, vms[c], path) < PathCost(g, vms[v], path))
  {
    var c := CriticalProcessor(g, vms, path);
    var costs := PathCosts(g, vms, path);
    if path == [] {
      forall v | 0 <= v < |vms| ensures PathCost(g, vms[c], path) <= PathCost(g, vms[v], path) {
      }
    } else {
      assert costs[c] == PathCost(g, vms[c], path);
      forall v | 0 <= v < |vms| ensures PathCost(g, vms[c], path) <= PathCost(g, vms[v], path) {
        assert costs[v] == PathCost(g, vms[v], path);
      }
      forall v | 0 <= v < c ensures PathCost(g, vms[c], path) < PathCost(g, vms[v], path) {
        assert costs[v] == PathCost(g, vms[v], path);
      }
    }
  }
}
