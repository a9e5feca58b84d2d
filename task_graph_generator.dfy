/** util/TaskGraphGenerator.java: the seeded DAG generator of the hand-rolled
    generation. It draws `numTasks` nodes, then keeps drawing index pairs and links the
    ones that go from a lower to a higher index and are not linked yet, until
    `numEdges` links exist. The loop has no attempt bound: here it runs for at most
    `fuel` attempts and reports whether it reached `numEdges`; a loop that has reached
    it has linked `numEdges` distinct forward pairs, which exist only when
    `numEdges <= numTasks * (numTasks - 1) / 2`, so for larger requests the source
    loops forever. */
module TaskGraphGeneration {
  import opened JavaRandom
  import opened Sorting
  import opened EdgeTasks
  import opened EdgeCpopRanks

  /** Node `i` as the first loop draws it from the two draws at `base`: computation
      cost `100 + 900 u` and data size `1 + 9 u`. */
  ghost predicate DrawnNode(t: TaskNode, i: nat, stream: nat -> nat, base: nat)
  {
    t.id == i &&
    t.computationCost == 100.0 + UnitDraw(stream(base)) * 900.0 &&
    t.dataSize == 1.0 + UnitDraw(stream(base + 1)) * 9.0
  }

  /** A node with no links yet. */
  ghost predicate Isolated(t: TaskNode)
    reads t
  {
    t.dependencies == [] && t.successors == []
  }

  /** The index pairs `(a, b)` whose node `a` is a dependency of node `b`. */
  ghost function Edges(tasks: seq<TaskNode>): set<(nat, nat)>
    reads tasks`dependencies
  {
    set a: nat, b: nat | a < |tasks| && b < |tasks| && tasks[a] in tasks[b].dependencies :: (a, b)
  }

  /** Every link goes from a lower index to a higher one, so the graph is acyclic. */
  ghost predicate Forward(tasks: seq<TaskNode>)
    reads tasks`dependencies
  {
    forall p :: p in Edges(tasks) ==> p.0 < p.1
  }

  /** The pair `(from, to)` when it goes forward, nothing otherwise. */
  function ForwardPair(from: nat, to: nat): (r: set<(nat, nat)>)
    ensures r == {} || (from < to && r == {(from, to)})
  {
    if from < to then {(from, to)} else {}
  }

  /** The links the edge loop has made after `k` attempts, from the draws at `start`
      on. While fewer than `numEdges` links exist, attempt `i` draws `from` then `to`
      below `n` at `start + 2i` and adds the pair when it goes forward (a pair already
      linked adds nothing); attempts after that add nothing either, as the loop has
      stopped. */
  function EdgeLoop(stream: nat -> nat, start: nat, n: nat, numEdges: nat, k: nat): set<(nat, nat)>
    requires n > 0 || numEdges == 0
  {
    if k == 0 then {}
    else
      var before := EdgeLoop(stream, start, n, numEdges, k - 1);
      if |before| < numEdges then
        var (from, to) := PairDraw(stream, start + 2 * (k - 1), n);
        before + ForwardPair(from, to)
      else before
  }

  /** The pair `from`, `to` that `nextInt(n)` makes of the draws at `pos` and `pos + 1`. */
  function PairDraw(stream: nat -> nat, pos: nat, n: nat): (nat, nat)
    requires n > 0
  {
    (BoundedDraw(stream(pos), n), BoundedDraw(stream(pos + 1), n))
  }

  /** Attempt `k` of the edge loop: with fewer than `numEdges` links it adds the
      pair drawn at `pos`, which is `start + 2k`. */
  lemma EdgeLoopStep(stream: nat -> nat, start: nat, n: nat, numEdges: nat, k: nat, pos: nat,
                     from: nat, to: nat, links: set<(nat, nat)>)
    requires n > 0 && pos == start + 2 * k && (from, to) == PairDraw(stream, pos, n)
    requires links == EdgeLoop(stream, start, n, numEdges, k) && |links| < numEdges
    ensures EdgeLoop(stream, start, n, numEdges, k + 1) == links + ForwardPair(from, to)
  {
  }

  /** Once the edge loop has `numEdges` links, later attempts add nothing. */
  lemma {:induction false} EdgeLoopSaturated(stream: nat -> nat, start: nat, n: nat, numEdges: nat, k: nat, j: nat)
    requires n > 0 || numEdges == 0
    requires k <= j && |EdgeLoop(stream, start, n, numEdges, k)| >= numEdges
    ensures EdgeLoop(stream, start, n, numEdges, j) == EdgeLoop(stream, start, n, numEdges, k)
    decreases j - k
  {
    if k < j {
      EdgeLoopSaturated(stream, start, n, numEdges, k, j - 1);
    }
  }

  /** After any number of attempts the edge loop has at most `numEdges` links, all
      forward pairs of nodes below `n`, and still every link of the attempts before. */
  lemma {:induction false} EdgeLoopForward(stream: nat -> nat, start: nat, n: nat, numEdges: nat, k: nat)
    requires n > 0 || numEdges == 0
    ensures var r := EdgeLoop(stream, start, n, numEdges, k);
            |r| <= numEdges && forall p :: p in r ==> p.0 < p.1 < n
    ensures k > 0 ==> EdgeLoop(stream, start, n, numEdges, k - 1) <= EdgeLoop(stream, start, n, numEdges, k)
  {
    if k > 0 {
      EdgeLoopForward(stream, start, n, numEdges, k - 1);
      var before := EdgeLoop(stream, start, n, numEdges, k - 1);
      if |before| < numEdges {
        var (from, to) := PairDraw(stream, start + 2 * (k - 1), n);
        assert |before + ForwardPair(from, to)| <= |before| + 1 by {
          if from < to { assert before + ForwardPair(from, to) == before + {(from, to)}; }
          else { assert before + ForwardPair(from, to) == before; }
        }
      }
    }
  }

  /** Linked nodes with `count` links, all going forward. */
  ghost predicate LinkedForward(tasks: seq<TaskNode>, count: nat)
    reads tasks`dependencies, tasks`successors
  {
    Linked(tasks) && Forward(tasks) && |Edges(tasks)| == count
  }

  /** The number of pairs `a < b` below `n`. */
  function Triangle(n: nat): (r: nat)
    ensures 2 * r == n * (n - 1)
  {
    if n == 0 then 0 else Triangle(n - 1) + (n - 1)
  }

  class TaskGraphGenerator {
    const random: Random

    constructor (seed: nat -> nat)
      ensures fresh(random) && random.stream == seed && random.cursor == 0
    {
      random := new Random(seed);
    }

    /** `generateDAG`, cut off after `fuel` attempts of the edge loop. Node `i` has id
        `i` and is made from draws `2i` and `2i + 1`; the nodes are linked, every link
        goes forward, and there are never more links than requested. `finished` says
        the loop reached `numEdges`, which needs `numEdges` to be at most the number of
        forward pairs; otherwise every one of the `fuel` attempts was spent. */
    method GenerateDag(numTasks: nat, numEdges: nat, fuel: nat) returns (tasks: seq<TaskNode>, finished: bool)
      requires numTasks > 0 || numEdges == 0
      modifies random`cursor
      ensures |tasks| == numTasks
      ensures forall i :: 0 <= i < numTasks ==>
                fresh(tasks[i]) && DrawnNode(tasks[i], i, random.stream, old(random.cursor) + 2 * i)
      ensures Linked(tasks) && Forward(tasks)
      ensures Edges(tasks) == EdgeLoop(random.stream, old(random.cursor) + 2 * numTasks, numTasks, numEdges, fuel)
      ensures |Edges(tasks)| <= numEdges
      ensures finished <==> |Edges(tasks)| == numEdges
      ensures finished ==> numEdges <= Triangle(numTasks)
      ensures !finished ==> random.cursor == old(random.cursor) + 2 * numTasks + 2 * fuel
    {
      tasks := DrawNodes(numTasks);
      IsolatedNodes(tasks);
      ghost var start := random.cursor;
      var edgesAdded := AddEdges(tasks, numEdges, fuel);
      finished := edgesAdded == numEdges;
      if finished {
        EdgeLoopForward(random.stream, start, numTasks, numEdges, fuel);
        ForwardPairsBound(EdgeLoop(random.stream, start, numTasks, numEdges, fuel), numTasks);
      }
    }

    /** The node loop of `generateDAG`. */
    method DrawNodes(numTasks: nat) returns (tasks: seq<TaskNode>)
      modifies random`cursor
      ensures |tasks| == numTasks && random.cursor == old(random.cursor) + 2 * numTasks
      ensures forall i :: 0 <= i < numTasks ==>
                fresh(tasks[i]) && Isolated(tasks[i]) &&
                DrawnNode(tasks[i], i, random.stream, old(random.cursor) + 2 * i)
    {
      tasks := [];
      for i := 0 to numTasks
        invariant |tasks| == i && random.cursor == old(random.cursor) + 2 * i
        invariant forall k :: 0 <= k < i ==>
                    fresh(tasks[k]) && Isolated(tasks[k]) &&
                    DrawnNode(tasks[k], k, random.stream, old(random.cursor) + 2 * k)
      {
        var node := DrawNode(i);
        tasks := tasks + [node];
      }
    }

    /** The edge loop of `generateDAG`, cut off after `fuel` attempts: each attempt
        draws a pair and links it when it goes forward and is not linked yet. */
    method AddEdges(tasks: seq<TaskNode>, numEdges: nat, fuel: nat) returns (edgesAdded: nat)
      requires |tasks| > 0 || numEdges == 0
      requires forall k :: 0 <= k < |tasks| ==> tasks[k].id == k
      requires Linked(tasks) && Forward(tasks) && Edges(tasks) == {}
      modifies random`cursor, tasks`dependencies, tasks`successors
      ensures Linked(tasks) && Forward(tasks) && |Edges(tasks)| == edgesAdded <= numEdges
      ensures Edges(tasks) == EdgeLoop(random.stream, old(random.cursor), |tasks|, numEdges, fuel)
      ensures edgesAdded < numEdges ==> random.cursor == old(random.cursor) + 2 * fuel
    {
      edgesAdded := 0;
      var attempts := 0;
      while edgesAdded < numEdges && attempts < fuel
        invariant edgesAdded <= numEdges && attempts <= fuel
        invariant random.cursor == old(random.cursor) + 2 * attempts
        invariant LinkedForward(tasks, edgesAdded)
        invariant Edges(tasks) == EdgeLoop(random.stream, old(random.cursor), |tasks|, numEdges, attempts)
        decreases fuel - attempts
      {
        edgesAdded := Attempt(tasks, numEdges, edgesAdded, old(random.cursor), attempts);
        attempts := attempts + 1;
      }
      if attempts < fuel {
        EdgeLoopSaturated(random.stream, old(random.cursor), |tasks|, numEdges, attempts, fuel);
      }
    }

    /** Attempt `k` of the edge loop started at `start`: draw `from` and `to`, and
        link the pair when it goes forward and is not linked yet. The links are then
        those of `k + 1` attempts. */
    method Attempt(tasks: seq<TaskNode>, numEdges: nat, edgesAdded: nat, ghost start: nat, ghost k: nat)
      returns (edgesAdded': nat)
      requires |tasks| > 0 && forall i :: 0 <= i < |tasks| ==> tasks[i].id == i
      requires LinkedForward(tasks, edgesAdded) && edgesAdded < numEdges
      requires random.cursor == start + 2 * k && Edges(tasks) == EdgeLoop(random.stream, start, |tasks|, numEdges, k)
      modifies random`cursor, tasks`dependencies, tasks`successors
      ensures LinkedForward(tasks, edgesAdded') && edgesAdded' <= numEdges
      ensures Edges(tasks) == EdgeLoop(random.stream, start, |tasks|, numEdges, k + 1)
      ensures random.cursor == old(random.cursor) + 2
    {
      ghost var before := Edges(tasks);
      var from, to := DrawPair(|tasks|);
      assert Edges(tasks) == before;
      EdgeLoopStep(random.stream, start, |tasks|, numEdges, k, old(random.cursor), from, to, before);
      edgesAdded' := LinkIfNew(tasks, from, to, edgesAdded);
    }

    /** The two `nextInt(numTasks)` draws of one attempt. */
    method DrawPair(n: nat) returns (from: nat, to: nat)
      requires n > 0
      modifies random`cursor
      ensures (from, to) == PairDraw(random.stream, old(random.cursor), n)
      ensures random.cursor == old(random.cursor) + 2
    {
      from := random.NextInt(n);
      to := random.NextInt(n);
    }

    /** The test and link of one turn of the edge loop: the drawn pair is linked when
        it goes forward and is not linked yet, and counted when it is linked. */
    method LinkIfNew(tasks: seq<TaskNode>, from: nat, to: nat, edgesAdded: nat) returns (edgesAdded': nat)
      requires from < |tasks| && to < |tasks| && forall k :: 0 <= k < |tasks| ==> tasks[k].id == k
      requires LinkedForward(tasks, edgesAdded)
      modifies tasks`dependencies, tasks`successors
      ensures LinkedForward(tasks, edgesAdded') && edgesAdded' <= edgesAdded + 1
      ensures Edges(tasks) == old(Edges(tasks)) + ForwardPair(from, to)
    {
      edgesAdded' := edgesAdded;
      if from < to && tasks[from] !in tasks[to].dependencies {
        LinkForward(tasks, from, to);
        edgesAdded' := edgesAdded + 1;
      } else if from < to {
        assert (from, to) in Edges(tasks);
      }
    }

    /** One turn of the node loop. */
    method DrawNode(i: nat) returns (node: TaskNode)
      modifies random`cursor
      ensures random.cursor == old(random.cursor) + 2
      ensures DrawnNode(node, i, random.stream, old(random.cursor))
      ensures fresh(node) && Isolated(node)
    {
      var cost := random.NextDouble();
      var data := random.NextDouble();
      node := new TaskNode(i, 100.0 + cost * 900.0, 1.0 + data * 9.0);
    }
  }

  /** `tasks.get(to).addDependency(tasks.get(from))` for a forward pair not linked yet:
      it adds exactly that pair to the edges. */
  method LinkForward(tasks: seq<TaskNode>, from: nat, to: nat)
    requires from < to < |tasks| && forall k :: 0 <= k < |tasks| ==> tasks[k].id == k
    requires Linked(tasks) && Forward(tasks) && tasks[from] !in tasks[to].dependencies
    modifies tasks`dependencies, tasks`successors
    ensures Linked(tasks) && Forward(tasks)
    ensures Edges(tasks) == old(Edges(tasks)) + {(from, to)} && (from, to) !in old(Edges(tasks))
    ensures |Edges(tasks)| == |old(Edges(tasks))| + 1
  {
    ghost var before := Edges(tasks);
    ghost var lists: map<nat, seq<TaskNode>> := map k: nat | k < |tasks| :: tasks[k].dependencies;
    tasks[to].AddDependency(tasks[from], tasks);
    forall a: nat, b: nat | a < |tasks| && b < |tasks|
      ensures tasks[a] in tasks[b].dependencies <==> tasks[a] in lists[b] || (a == from && b == to)
    {
      if b != to {
        assert tasks[b] != tasks[to];
      } else {
        assert tasks[a] == tasks[from] <==> a == from;
      }
    }
    assert Edges(tasks) == before + {(from, to)};
  }

  /** Read on the nodes: a dependency always has a lower index than its dependant. */
  lemma ForwardLinks(tasks: seq<TaskNode>, a: nat, b: nat)
    requires Forward(tasks) && a < |tasks| && b < |tasks| && tasks[a] in tasks[b].dependencies
    ensures a < b
  {
    assert (a, b) in Edges(tasks);
  }

  /** Nodes without links are linked trivially, go forward and have no edges. */
  lemma IsolatedNodes(tasks: seq<TaskNode>)
    requires forall k :: 0 <= k < |tasks| ==> Isolated(tasks[k])
    ensures Linked(tasks) && Forward(tasks) && Edges(tasks) == {}
  {
    forall t | t in tasks ensures Isolated(t) {
      var k :| 0 <= k < |tasks| && tasks[k] == t;
    }
  }

  /** Pairs `a < b < n` are at most `Triangle(n)` many: those ending at `n - 1` start
      below it, and the rest end below `n - 1`. */
  lemma {:induction false} ForwardPairsBound(pairs: set<(nat, nat)>, n: nat)
    requires forall p :: p in pairs ==> p.0 < p.1 < n
    ensures |pairs| <= Triangle(n)
    decreases n
  {
    if n > 0 {
      var column := set p | p in pairs && p.1 == n - 1;
      var rest := pairs - column;
      ForwardPairsBound(rest, n - 1);
      ColumnBound(column, n - 1, n - 1);
      assert pairs == rest + column;
    }
  }

  /** Pairs ending at `target` that start below `k` are at most `k` many. */
  lemma {:induction false} ColumnBound(column: set<(nat, nat)>, target: nat, k: nat)
    requires forall p :: p in column ==> p.0 < k && p.1 == target
    ensures |column| <= k
    decreases k
  {
    if k > 0 {
      ColumnBound(column - {(k - 1, target)}, target, k - 1);
    }
  }

  /** Height `n - id` for every node whose id is its index. */
  ghost function Heights(tasks: seq<TaskNode>): (height: map<TaskNode, nat>)
    requires forall k :: 0 <= k < |tasks| ==> tasks[k].id == k
    ensures forall k :: 0 <= k < |tasks| ==> tasks[k] in height && height[tasks[k]] == |tasks| - k
  {
    map t | t in tasks :: IdBelow(tasks, t); (|tasks| - t.id) as nat
  }

  lemma IdBelow(tasks: seq<TaskNode>, t: TaskNode)
    requires forall k :: 0 <= k < |tasks| ==> tasks[k].id == k
    requires t in tasks
    ensures 0 <= t.id < |tasks| && tasks[t.id] == t
  {
    var k :| 0 <= k < |tasks| && tasks[k] == t;
  }

  /** A generated graph is what the CPOP scheduler of this generation takes: its nodes
      are distinct and every successor of a node is a node of the graph with a
      smaller height `n - id`, so the upward-rank recursion ends. */
  lemma GeneratedIsRanked(tasks: seq<TaskNode>)
    requires forall k :: 0 <= k < |tasks| ==> tasks[k].id == k
    requires Linked(tasks) && Forward(tasks)
    ensures Distinct(tasks)
    ensures Ranked(tasks, Heights(tasks))
  {
    var height := Heights(tasks);
    forall t | t in tasks
      ensures t in height &&
              forall s :: s in t.successors ==> s in tasks && s in height && height[s] < height[t]
    {
      IdBelow(tasks, t);
      forall s | s in t.successors ensures s in tasks && s in height && height[s] < height[t] {
        IdBelow(tasks, s);
        assert t in s.dependencies;
        ForwardLinks(tasks, t.id, s.id);
      }
    }
  }

  /** The drawn costs and sizes lie in `[100, 1000)` and `[1, 10)`. */
  lemma DrawnNodeInRange(t: TaskNode, i: nat, stream: nat -> nat, base: nat)
    requires DrawnNode(t, i, stream, base)
    ensures 100.0 <= t.computationCost < 1000.0 && 1.0 <= t.dataSize < 10.0
  {
  }
}
