/** The task graph of the JGraphT/CloudSim generation and the VMs it runs on.
    A JGraphT `DirectedAcyclicGraph<Task, DefaultEdge>` becomes the list of its vertices,
    vertex `i` being the task with id `i` (JGraphT keeps vertices in insertion order), and
    the list of its edges in insertion order, so that `outgoingEdgesOf` and
    `incomingEdgesOf` are the edge list filtered, in the order JGraphT hands them out.
    A CloudSim `Vm` is only its speed; VMs are told apart by their place in the VM list,
    as CloudSim tells them apart by identity. */
module Dags {
  import opened CloudTask

  datatype Vm = Vm(mips: real)

  type Edge = (nat, nat)

  datatype Dag = Dag(tasks: seq<Task>, edges: seq<Edge>)

  /** Every VM has a positive speed. */
  predicate ValidVms(vms: seq<Vm>)
  {
    forall i :: 0 <= i < |vms| ==> vms[i].mips > 0.0
  }

  /** Vertex `i` is the task with id `i`, lengths are positive and output sizes are
      not negative, and every edge joins two vertices. */
  ghost predicate Consistent(g: Dag)
  {
    && (forall i :: 0 <= i < |g.tasks| ==>
          g.tasks[i].id == i && g.tasks[i].length > 0 && g.tasks[i].outputSize >= 0)
    && (forall k :: 0 <= k < |g.edges| ==> g.edges[k].0 < |g.tasks| && g.edges[k].1 < |g.tasks|)
  }

  /** A consistent graph in which no edge is stored twice. */
  ghost predicate WellFormed(g: Dag)
  {
    Consistent(g) && forall k, l :: 0 <= k < l < |g.edges| ==> g.edges[k] != g.edges[l]
  }

  /** The targets of the edges leaving `t`, in edge order (`outgoingEdgesOf`). */
  function Successors(edges: seq<Edge>, t: nat): (r: seq<nat>)
    ensures forall v :: v in r <==> (t, v) in edges
    ensures |r| <= |edges|
    decreases |edges|
  {
    if edges == [] then []
    else
      var rest := Successors(edges[..|edges| - 1], t);
      var e := edges[|edges| - 1];
      assert edges == edges[..|edges| - 1] + [e];
      if e.0 == t then rest + [e.1] else rest
  }

  /** The sources of the edges entering `t`, in edge order (`incomingEdgesOf`). */
  function Predecessors(edges: seq<Edge>, t: nat): (r: seq<nat>)
    ensures forall u :: u in r <==> (u, t) in edges
    ensures |r| <= |edges|
    decreases |edges|
  {
    if edges == [] then []
    else
      var rest := Predecessors(edges[..|edges| - 1], t);
      var e := edges[|edges| - 1];
      assert edges == edges[..|edges| - 1] + [e];
      if e.1 == t then rest + [e.0] else rest
  }

  /** A vertex has no predecessor exactly when no edge enters it (`inDegreeOf == 0`). */
  lemma NoPredecessorsIff(edges: seq<Edge>, t: nat)
    ensures Predecessors(edges, t) == [] <==> forall u :: (u, t) !in edges
  {
    var r := Predecessors(edges, t);
    if r != [] {
      assert r[0] in r;
    }
  }

  /** A vertex has no successor exactly when no edge leaves it (`outDegreeOf == 0`). */
  lemma NoSuccessorsIff(edges: seq<Edge>, t: nat)
    ensures Successors(edges, t) == [] <==> forall v :: (t, v) !in edges
  {
    var r := Successors(edges, t);
    if r != [] {
      assert r[0] in r;
    }
  }

  /** What `TopologicalOrderIterator` yields: every vertex exactly once, and every edge
      leads from an earlier position to a later one. */
  ghost predicate IsTopologicalOrder(g: Dag, topo: seq<nat>)
  {
    && |topo| == |g.tasks|
    && (forall i :: 0 <= i < |topo| ==> topo[i] < |g.tasks|)
    && (forall i, j :: 0 <= i < j < |topo| ==> topo[i] != topo[j])
    && (forall v :: 0 <= v < |g.tasks| ==> v in topo)
    && (forall i, j :: 0 <= i < |topo| && 0 <= j < |topo| && (topo[i], topo[j]) in g.edges ==> i < j)
  }

  /** In a topological order the successors of a vertex sit after it. */
  lemma SuccessorIsLater(g: Dag, topo: seq<nat>, i: nat, s: nat)
    requires WellFormed(g) && IsTopologicalOrder(g, topo)
    requires i < |topo| && s in Successors(g.edges, topo[i])
    ensures exists j :: i < j < |topo| && topo[j] == s
  {
    assert (topo[i], s) in g.edges;
    var k :| 0 <= k < |g.edges| && g.edges[k] == (topo[i], s);
    assert s < |g.tasks|;
    assert s in topo;
    var j :| 0 <= j < |topo| && topo[j] == s;
    assert (topo[i], topo[j]) in g.edges;
  }

  /** In a topological order the predecessors of a vertex sit before it. */
  lemma PredecessorIsEarlier(g: Dag, topo: seq<nat>, i: nat, p: nat)
    requires WellFormed(g) && IsTopologicalOrder(g, topo)
    requires i < |topo| && p in Predecessors(g.edges, topo[i])
    ensures exists j :: 0 <= j < i && topo[j] == p
  {
    assert (p, topo[i]) in g.edges;
    var k :| 0 <= k < |g.edges| && g.edges[k] == (p, topo[i]);
    assert p < |g.tasks|;
    assert p in topo;
    var j :| 0 <= j < |topo| && topo[j] == p;
    assert (topo[j], topo[i]) in g.edges;
  }

  /** The position of `x` in `s`. */
  function IndexIn(s: seq<nat>, x: nat): (k: nat)
    requires x in s
    ensures k < |s| && s[k] == x
  {
    if s[0] == x then 0 else 1 + IndexIn(s[1..], x)
  }

  /** An edge leads to a later position of a topological order. */
  lemma EdgeGoesForward(g: Dag, topo: seq<nat>, u: nat, v: nat)
    requires WellFormed(g) && IsTopologicalOrder(g, topo) && (u, v) in g.edges
    ensures u in topo && v in topo && IndexIn(topo, u) < IndexIn(topo, v)
  {
    var k :| 0 <= k < |g.edges| && g.edges[k] == (u, v);
    assert u < |g.tasks| && v < |g.tasks|;
    assert u in topo && v in topo;
    assert (topo[IndexIn(topo, u)], topo[IndexIn(topo, v)]) in g.edges;
  }

  /** The vertices `0, 1, ..., n-1` in order: `vertexSet()` for a graph built in id order. */
  function Ids(n: nat): (r: seq<nat>)
    ensures |r| == n && forall i :: 0 <= i < n ==> r[i] == i
  {
    seq(n, i => i)
  }

  /** When every edge leads from a smaller index to a larger one, the identity order is
      topological, so the graph has no cycle. */
  lemma ForwardEdgesGiveTopologicalOrder(g: Dag)
    requires forall k :: 0 <= k < |g.edges| ==> g.edges[k].0 < g.edges[k].1 < |g.tasks|
    ensures IsTopologicalOrder(g, Ids(|g.tasks|))
  {
    var topo := Ids(|g.tasks|);
    forall v | 0 <= v < |g.tasks| ensures v in topo {
      assert topo[v] == v;
    }
    forall i, j | 0 <= i < |topo| && 0 <= j < |topo| && (topo[i], topo[j]) in g.edges
      ensures i < j
    {
      var k :| 0 <= k < |g.edges| && g.edges[k] == (topo[i], topo[j]);
    }
  }

  /** `getOrDefault(k, 0.0)` on a map keyed by task id. */
  function Get(m: map<nat, real>, k: nat): real
  {
    if k in m then m[k] else 0.0
  }

  /** Every entry of `order` names a vertex of `g`. */
  ghost predicate InGraph(g: Dag, order: seq<nat>)
  {
    forall i :: 0 <= i < |order| ==> order[i] < |g.tasks|
  }

  /** The predecessors of a vertex of a well-formed graph are vertices. */
  lemma PredecessorsInGraph(g: Dag, t: nat)
    requires Consistent(g)
    ensures forall k :: 0 <= k < |Predecessors(g.edges, t)| ==> Predecessors(g.edges, t)[k] < |g.tasks|
  {
    var pred := Predecessors(g.edges, t);
    forall k | 0 <= k < |pred| ensures pred[k] < |g.tasks| {
      assert pred[k] in pred;
      var e :| 0 <= e < |g.edges| && g.edges[e] == (pred[k], t);
    }
  }

  /** The successors of a vertex of a well-formed graph are vertices. */
  lemma SuccessorInGraph(g: Dag, t: nat, s: nat)
    requires WellFormed(g) && s in Successors(g.edges, t)
    ensures s < |g.tasks|
  {
    var k :| 0 <= k < |g.edges| && g.edges[k] == (t, s);
  }
}
