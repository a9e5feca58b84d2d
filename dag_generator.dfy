/** model/DAGGenerator.java: builds a random task graph from a seeded random stream.
    Task `i` gets id `i` and draws its length, file size, output size and priority in
    that order; then edges are drawn as (source, target) pairs and kept only when the
    source index is below the target index and the edge is new, until `numEdges` edges
    are in or `10 * numEdges` pairs have been drawn. */
module DagGeneration {
  import opened JavaRandom
  import opened CloudTask
  import opened Dags

  /** The edge loop, as a function of the stream: the edges it ends with, and how many
      pairs it drew. */
  function AddEdges(stream: nat -> nat, pos: nat, numTasks: nat, numEdges: nat,
                    attempts: nat, edges: seq<Edge>): (r: (seq<Edge>, nat))
    requires numTasks > 0 || numEdges == 0
    decreases numEdges * 10 - attempts
  {
    if |edges| < numEdges && attempts < numEdges * 10 then
      var source := BoundedDraw(stream(pos), numTasks);
      var target := BoundedDraw(stream(pos + 1), numTasks);
      AddEdges(stream, pos + 2, numTasks, numEdges, attempts + 1, KeepEdge(edges, source, target))
    else
      (edges, attempts)
  }

  /** The drawn pair is kept when it leads forward and is not already an edge. */
  function KeepEdge(edges: seq<Edge>, source: nat, target: nat): seq<Edge>
  {
    if source != target && source < target && (source, target) !in edges
    then edges + [(source, target)] else edges
  }

  ghost predicate ForwardEdges(edges: seq<Edge>, numTasks: nat)
  {
    forall k :: 0 <= k < |edges| ==> edges[k].0 < edges[k].1 < numTasks
  }

  ghost predicate NoDuplicateEdges(edges: seq<Edge>)
  {
    forall k, l :: 0 <= k < l < |edges| ==> edges[k] != edges[l]
  }

  /** Every kept edge goes from a lower to a higher index, none is kept twice, the
      loop never overshoots `numEdges`, it draws at most `10 * numEdges` pairs, and it
      stops short of `numEdges` edges only when it has used up all its attempts. */
  lemma {:induction false} AddEdgesProperties(stream: nat -> nat, pos: nat, numTasks: nat,
                                              numEdges: nat, attempts: nat, edges: seq<Edge>)
    requires numTasks > 0 || numEdges == 0
    requires ForwardEdges(edges, numTasks) && NoDuplicateEdges(edges)
    requires |edges| <= numEdges && attempts <= numEdges * 10
    ensures var (r, used) := AddEdges(stream, pos, numTasks, numEdges, attempts, edges);
      && ForwardEdges(r, numTasks) && NoDuplicateEdges(r)
      && edges <= r && |r| <= numEdges
      && attempts <= used <= numEdges * 10
      && (used < numEdges * 10 ==> |r| == numEdges)
    decreases numEdges * 10 - attempts
  {
    if |edges| < numEdges && attempts < numEdges * 10 {
      var source := BoundedDraw(stream(pos), numTasks);
      var target := BoundedDraw(stream(pos + 1), numTasks);
      var next := if source != target && source < target && (source, target) !in edges
                  then edges + [(source, target)] else edges;
      AddEdgesProperties(stream, pos + 2, numTasks, numEdges, attempts + 1, next);
    }
  }

  /** One pass of the edge loop: the draws at `pos` and `pos + 1` decide the edge. */
  lemma AddEdgesStep(stream: nat -> nat, pos: nat, numTasks: nat, numEdges: nat,
                     attempts: nat, edges: seq<Edge>, next: seq<Edge>)
    requires numTasks > 0 && |edges| < numEdges && attempts < numEdges * 10
    requires next == KeepEdge(edges, BoundedDraw(stream(pos), numTasks), BoundedDraw(stream(pos + 1), numTasks))
    ensures AddEdges(stream, pos, numTasks, numEdges, attempts, edges)
         == AddEdges(stream, pos + 2, numTasks, numEdges, attempts + 1, next)
  {
  }

  lemma AddEdgesDone(stream: nat -> nat, pos: nat, numTasks: nat, numEdges: nat,
                     attempts: nat, edges: seq<Edge>)
    requires numTasks > 0 || numEdges == 0
    requires !(|edges| < numEdges && attempts < numEdges * 10)
    ensures AddEdges(stream, pos, numTasks, numEdges, attempts, edges) == (edges, attempts)
  {
  }

  /** The loop may deliver fewer edges than asked: a stream of zeros never yields a
      pair with source below target. */
  lemma MayAddFewer()
    ensures AddEdges((i: nat) => 0, 0, 2, 1, 0, []) == ([], 10)
  {
  }

  /** The attributes task `i` draws from the stream starting at `pos`: four draws per
      task, in the order of the constructor's arguments. */
  function TaskLength(stream: nat -> nat, pos: nat, i: nat): nat
  {
    100 + BoundedDraw(stream(pos + 4 * i), 1000)
  }

  function TaskFileSize(stream: nat -> nat, pos: nat, i: nat): nat
  {
    100 + BoundedDraw(stream(pos + 4 * i + 1), 1000)
  }

  function TaskOutputSize(stream: nat -> nat, pos: nat, i: nat): nat
  {
    50 + BoundedDraw(stream(pos + 4 * i + 2), 500)
  }

  function TaskPriority(stream: nat -> nat, pos: nat, i: nat): nat
  {
    BoundedDraw(stream(pos + 4 * i + 3), 10) + 1
  }

  /** The ranges the drawn attributes fall in. */
  lemma TaskAttributeRanges(stream: nat -> nat, pos: nat, i: nat)
    ensures 100 <= TaskLength(stream, pos, i) <= 1099
    ensures 100 <= TaskFileSize(stream, pos, i) <= 1099
    ensures 50 <= TaskOutputSize(stream, pos, i) <= 549
    ensures 1 <= TaskPriority(stream, pos, i) <= 10
  {
  }

  /** `task` is task `i` drawn from the stream starting at `pos`. */
  ghost predicate TaskDrawnAt(task: Task, i: nat, stream: nat -> nat, pos: nat)
  {
    && task.id == i
    && task.length == TaskLength(stream, pos, i)
    && task.fileSize == TaskFileSize(stream, pos, i)
    && task.outputSize == TaskOutputSize(stream, pos, i)
    && task.priority == TaskPriority(stream, pos, i)
  }

  /** Task `i` of `g` holds the attributes drawn for it. */
  ghost predicate TasksDrawn(g: Dag, stream: nat -> nat, pos: nat)
  {
    forall i :: 0 <= i < |g.tasks| ==> TaskDrawnAt(g.tasks[i], i, stream, pos)
  }

  lemma TasksDrawnSnoc(tasks: seq<Task>, task: Task, stream: nat -> nat, pos: nat)
    requires TasksDrawn(Dag(tasks, []), stream, pos)
    requires TaskDrawnAt(task, |tasks|, stream, pos)
    ensures TasksDrawn(Dag(tasks + [task], []), stream, pos)
  {
    var ts := tasks + [task];
    forall i | 0 <= i < |ts| ensures TaskDrawnAt(ts[i], i, stream, pos) {
      if i < |tasks| {
        assert ts[i] == tasks[i];
      }
    }
  }

  /** What a generator run produces depends on the stream and its starting point only:
      the task attributes and the edge list are both fixed by them. */
  ghost predicate GeneratedFrom(g: Dag, stream: nat -> nat, pos: nat, numTasks: nat, numEdges: nat)
    requires numTasks > 0 || numEdges == 0
  {
    && |g.tasks| == numTasks
    && TasksDrawn(g, stream, pos)
    && g.edges == AddEdges(stream, pos + 4 * numTasks, numTasks, numEdges, 0, []).0
  }

  /** Any graph the generator can produce is a well-formed DAG: the index order is
      topological, and every task has the drawn ranges. */
  lemma GeneratedIsDag(g: Dag, stream: nat -> nat, pos: nat, numTasks: nat, numEdges: nat)
    requires numTasks > 0 || numEdges == 0
    requires GeneratedFrom(g, stream, pos, numTasks, numEdges)
    ensures WellFormed(g)
    ensures IsTopologicalOrder(g, Ids(numTasks))
    ensures |g.edges| <= numEdges
  {
    AddEdgesProperties(stream, pos + 4 * numTasks, numTasks, numEdges, 0, []);
    forall i | 0 <= i < |g.tasks| ensures g.tasks[i].length > 0 && g.tasks[i].outputSize >= 0 {
      assert TaskDrawnAt(g.tasks[i], i, stream, pos);
      TaskAttributeRanges(stream, pos, i);
    }
    ForwardEdgesGiveTopologicalOrder(g);
  }

  class DagGenerator {
    const random: Random

    constructor (stream: nat -> nat)
      ensures random.stream == stream && random.cursor == 0
    {
      random := new Random(stream);
    }

    /** One pass of the vertex loop: task `i` built from the next four draws, for a
        stream that started at `pos`. */
    method DrawTask(i: nat, ghost pos: nat) returns (task: Task)
      requires random.cursor == pos + 4 * i
      modifies random`cursor
      ensures TaskDrawnAt(task, i, random.stream, pos)
      ensures random.cursor == old(random.cursor) + 4
    {
      var length := random.NextInt(1000);
      var fileSize := random.NextInt(1000);
      var outputSize := random.NextInt(500);
      var priority := random.NextInt(10);
      task := new Task(i, 100 + length, 100 + fileSize, 50 + outputSize, priority + 1);
    }

    /** The vertex loop of `generateDAG`. */
    method DrawTasks(numTasks: nat) returns (tasks: seq<Task>)
      modifies random`cursor
      ensures |tasks| == numTasks
      ensures TasksDrawn(Dag(tasks, []), random.stream, old(random.cursor))
      ensures random.cursor == old(random.cursor) + 4 * numTasks
    {
      ghost var start := random.cursor;
      tasks := [];
      var i := 0;
      while i < numTasks
        invariant 0 <= i <= numTasks
        invariant |tasks| == i && random.cursor == start + 4 * i
        invariant TasksDrawn(Dag(tasks, []), random.stream, start)
      {
        var task := DrawTask(i, start);
        TasksDrawnSnoc(tasks, task, random.stream, start);
        tasks := tasks + [task];
        i := i + 1;
      }
    }

    /** One pass of the edge loop: two draws, and the pair kept or dropped. */
    method DrawEdge(numTasks: nat, edges: seq<Edge>) returns (next: seq<Edge>)
      requires numTasks > 0
      modifies random`cursor
      ensures next == KeepEdge(edges, BoundedDraw(random.stream(old(random.cursor)), numTasks),
                               BoundedDraw(random.stream(old(random.cursor) + 1), numTasks))
      ensures random.cursor == old(random.cursor) + 2
    {
      next := edges;
      var sourceIdx := random.NextInt(numTasks);
      var targetIdx := random.NextInt(numTasks);
      if sourceIdx != targetIdx && sourceIdx < targetIdx {
        if (sourceIdx, targetIdx) !in edges {
          next := edges + [(sourceIdx, targetIdx)];
        }
      }
    }

    /** The edge loop of `generateDAG`: at most `10 * numEdges` drawn pairs. */
    method DrawEdges(numTasks: nat, numEdges: nat) returns (edges: seq<Edge>)
      requires numTasks > 0 || numEdges == 0
      modifies random`cursor
      ensures edges == AddEdges(random.stream, old(random.cursor), numTasks, numEdges, 0, []).0
      ensures random.cursor
           == old(random.cursor) + 2 * AddEdges(random.stream, old(random.cursor), numTasks, numEdges, 0, []).1
    {
      ghost var start := random.cursor;
      ghost var stream := random.stream;
      ghost var result := AddEdges(stream, start, numTasks, numEdges, 0, []);
      edges := [];
      var attempts := 0;
      var maxAttempts := numEdges * 10;
      while |edges| < numEdges && attempts < maxAttempts
        invariant attempts <= maxAttempts
        invariant random.cursor == start + 2 * attempts
        invariant AddEdges(stream, random.cursor, numTasks, numEdges, attempts, edges) == result
        decreases maxAttempts - attempts
      {
        ghost var pos, before := random.cursor, edges;
        edges := DrawEdge(numTasks, edges);
        AddEdgesStep(stream, pos, numTasks, numEdges, attempts, before, edges);
        attempts := attempts + 1;
      }
      AddEdgesDone(stream, random.cursor, numTasks, numEdges, attempts, edges);
    }

    /** `generateDAG(numTasks, numEdges)`. `nextInt` refuses a bound of 0, so edges can
        be asked for only when there is at least one task. */
    method GenerateDag(numTasks: nat, numEdges: nat) returns (g: Dag)
      requires numTasks > 0 || numEdges == 0
      modifies random`cursor
      ensures GeneratedFrom(g, random.stream, old(random.cursor), numTasks, numEdges)
      ensures random.cursor == old(random.cursor) + 4 * numTasks
        + 2 * AddEdges(random.stream, old(random.cursor) + 4 * numTasks,
                       numTasks, numEdges, 0, []).1
    {
      var tasks := DrawTasks(numTasks);
      var edges := DrawEdges(numTasks, numEdges);
      g := Dag(tasks, edges);
    }

    /** `getEntryTasks`: the tasks no edge enters. */
    method EntryTasks(dag: Dag) returns (entry: set<Task>)
      requires WellFormed(dag)
      ensures entry <= set t | t in dag.tasks
      ensures forall i :: 0 <= i < |dag.tasks| ==>
                (dag.tasks[i] in entry <==> forall u :: (u, i) !in dag.edges)
    {
      entry := {};
      var i := 0;
      while i < |dag.tasks|
        invariant 0 <= i <= |dag.tasks|
        invariant entry == set k | 0 <= k < i && Predecessors(dag.edges, k) == [] :: dag.tasks[k]
      {
        if Predecessors(dag.edges, i) == [] {
          entry := entry + {dag.tasks[i]};
        }
        i := i + 1;
      }
      forall i | 0 <= i < |dag.tasks|
        ensures dag.tasks[i] in entry <==> forall u :: (u, i) !in dag.edges
      {
        NoPredecessorsIff(dag.edges, i);
        if dag.tasks[i] in entry {
          var k :| 0 <= k < |dag.tasks| && Predecessors(dag.edges, k) == [] && dag.tasks[k] == dag.tasks[i];
          assert k == dag.tasks[k].id == i;
        }
      }
    }

    /** `getExitTasks`: the tasks no edge leaves. */
    method ExitTasks(dag: Dag) returns (exit: set<Task>)
      requires WellFormed(dag)
      ensures exit <= set t | t in dag.tasks
      ensures forall i :: 0 <= i < |dag.tasks| ==>
                (dag.tasks[i] in exit <==> forall v :: (i, v) !in dag.edges)
    {
      exit := {};
      var i := 0;
      while i < |dag.tasks|
        invariant 0 <= i <= |dag.tasks|
        invariant exit == set k | 0 <= k < i && Successors(dag.edges, k) == [] :: dag.tasks[k]
      {
        if Successors(dag.edges, i) == [] {
          exit := exit + {dag.tasks[i]};
        }
        i := i + 1;
      }
      forall i | 0 <= i < |dag.tasks|
        ensures dag.tasks[i] in exit <==> forall v :: (i, v) !in dag.edges
      {
        NoSuccessorsIff(dag.edges, i);
        if dag.tasks[i] in exit {
          var k :| 0 <= k < |dag.tasks| && Successors(dag.edges, k) == [] && dag.tasks[k] == dag.tasks[i];
          assert k == dag.tasks[k].id == i;
        }
      }
    }
  }
}
