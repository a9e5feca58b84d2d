/** The two ranks algorithms/CPOPScheduler.java computes, as functions of the graph, the
    VM list and the topological order `TopologicalOrderIterator` yields. Rank maps are
    keyed by task id, which is how the `HashMap<Task, Double>` fields tell tasks apart
    (`Task.equals` compares ids). */
module CpopRanks {
  import opened Wrappers
  import opened Folds
  import opened Sorting
  import opened CloudTask
  import opened Dags
  import opened Costs

  /** What the rank loops need: a well-formed graph, at least one VM, all of them with
      positive speed, and a topological order of the graph. */
  ghost predicate RankSetting(g: Dag, vms: seq<Vm>, topo: seq<nat>)
  {
    WellFormed(g) && ValidVms(vms) && |vms| > 0 && IsTopologicalOrder(g, topo)
  }

  // ------------------------------------------------------- storing in an order

  /** The map that `for (t : order) rank.put(t, f(t, rank))` holds after its first `k`
      turns, starting from `init`. Both rank loops have this shape. */
  function StoreInOrder(order: seq<nat>, k: nat, f: (nat, map<nat, real>) -> real,
                        init: map<nat, real>): map<nat, real>
    requires k <= |order|
  {
    if k == 0 then init
    else
      var m := StoreInOrder(order, k - 1, f, init);
      m[order[k - 1] := f(order[k - 1], m)]
  }

  /** One more turn of the loop stores the next vertex's value. */
  lemma StoreInOrderNext(order: seq<nat>, k: nat, f: (nat, map<nat, real>) -> real,
                         init: map<nat, real>, v: real)
    requires k < |order| && v == f(order[k], StoreInOrder(order, k, f, init))
    ensures StoreInOrder(order, k + 1, f, init) == StoreInOrder(order, k, f, init)[order[k] := v]
  {
  }

  /** The value `f` gives a vertex of `order` does not change when that vertex or any
      later one is stored: `f` reads only vertices that come earlier. */
  ghost predicate ReadsEarlier(order: seq<nat>, f: (nat, map<nat, real>) -> real)
  {
    forall i, j, m: map<nat, real>, v: real {:trigger order[i], m[order[j] := v]} ::
      0 <= i <= j < |order| ==> f(order[i], m) == f(order[i], m[order[j] := v])
  }

  /** Once a vertex is stored it keeps the value `f` gives it over the map as it grows:
      later turns store other vertices, which its value does not read. */
  lemma {:induction false} StoreInOrderSettles(order: seq<nat>, f: (nat, map<nat, real>) -> real,
                                               init: map<nat, real>, k: nat, i: nat)
    requires Distinct(order) && ReadsEarlier(order, f) && i < k <= |order|
    ensures order[i] in StoreInOrder(order, k, f, init)
    ensures StoreInOrder(order, k, f, init)[order[i]] == f(order[i], StoreInOrder(order, k, f, init))
    decreases k - i
  {
    var m := StoreInOrder(order, k - 1, f, init);
    var v := f(order[k - 1], m);
    assert f(order[i], m) == f(order[i], m[order[k - 1] := v]);
    if i < k - 1 {
      StoreInOrderSettles(order, f, init, k - 1, i);
      assert order[i] != order[k - 1];
    }
  }

  /** `Collections.reverse`. */
  function Reversed(s: seq<nat>): (r: seq<nat>)
    ensures |r| == |s| && forall i :: 0 <= i < |s| ==> r[i] == s[|s| - 1 - i]
  {
    seq(|s|, i requires 0 <= i < |s| => s[|s| - 1 - i])
  }

  lemma TopologicalOrderDistinct(g: Dag, topo: seq<nat>)
    requires IsTopologicalOrder(g, topo)
    ensures Distinct(topo) && Distinct(Reversed(topo))
  {
    var r := Reversed(topo);
    forall i, j | 0 <= i < j < |r| ensures r[i] != r[j] {
      assert r[i] == topo[|topo| - 1 - i] && r[j] == topo[|topo| - 1 - j];
    }
  }

  // ---------------------------------------------------------------- upward rank

  /** `communicationCost + successorRank` for each successor, in edge order. */
  function SuccessorTerms(g: Dag, t: nat, succ: seq<nat>, rank: map<nat, real>): (r: seq<real>)
    requires t < |g.tasks|
    ensures |r| == |succ|
    ensures forall k :: 0 <= k < |succ| ==>
              r[k] == AverageCommunicationCost(g.tasks[t]) + Get(rank, succ[k])
  {
    seq(|succ|, k requires 0 <= k < |succ| =>
      AverageCommunicationCost(g.tasks[t]) + Get(rank, succ[k]))
  }

  /** The value `calculateUpwardRank` stores for `t`, given the ranks stored so far. */
  function UpwardRankOf(g: Dag, vms: seq<Vm>, t: nat, rank: map<nat, real>): real
    requires t < |g.tasks| && ValidVms(vms) && |vms| > 0
  {
    AverageComputationCost(g.tasks[t], vms)
      + MaxFrom(0.0, SuccessorTerms(g, t, Successors(g.edges, t), rank))
  }

  /** What the loop stores for a vertex; ids outside the graph are never stored. */
  function UpwardStep(g: Dag, vms: seq<Vm>): (nat, map<nat, real>) -> real
    requires ValidVms(vms) && |vms| > 0
  {
    (t: nat, rank: map<nat, real>) => if t < |g.tasks| then UpwardRankOf(g, vms, t, rank) else 0.0
  }

  /** The rank map `calculateUpwardRank` leaves: every vertex stored in reverse
      topological order, each from the ranks its successors already hold. */
  function UpwardRanks(g: Dag, vms: seq<Vm>, topo: seq<nat>, init: map<nat, real>): map<nat, real>
    requires ValidVms(vms) && |vms| > 0
  {
    StoreInOrder(Reversed(topo), |topo|, UpwardStep(g, vms), init)
  }

  /** The recurrence of the upward rank: every vertex is ranked, and its rank is its
      mean execution time plus the largest `outputSize/1e6 + rank(s)` over its
      successors `s`, or plus 0 when there is none. */
  ghost predicate UpwardRecurrence(g: Dag, vms: seq<Vm>, rank: map<nat, real>)
    requires ValidVms(vms) && |vms| > 0
  {
    && (forall t :: 0 <= t < |g.tasks| ==> t in rank)
    && (forall t :: 0 <= t < |g.tasks| ==> UpwardRankHolds(g, vms, rank, t))
  }

  /** `t` is ranked, by the upward equation over `rank`. */
  ghost predicate UpwardRankHolds(g: Dag, vms: seq<Vm>, rank: map<nat, real>, t: nat)
    requires ValidVms(vms) && |vms| > 0
  {
    t < |g.tasks| && t in rank && rank[t] == UpwardRankOf(g, vms, t, rank)
  }

  lemma SuccessorTermsFrame(g: Dag, t: nat, succ: seq<nat>, m1: map<nat, real>, m2: map<nat, real>)
    requires t < |g.tasks|
    requires forall s :: s in succ ==> Get(m1, s) == Get(m2, s)
    ensures SuccessorTerms(g, t, succ, m1) == SuccessorTerms(g, t, succ, m2)
  {
    assert forall k :: 0 <= k < |succ| ==> succ[k] in succ;
  }

  /** Storing a rank for `topo[k]` changes nothing that `topo[i]`, for `i >= k`, reads:
      its successors all sit after it. */
  lemma UpwardStoreFrame(g: Dag, vms: seq<Vm>, topo: seq<nat>, k: nat, i: nat,
                         m: map<nat, real>, v: real)
    requires RankSetting(g, vms, topo) && k <= i < |topo|
    ensures SuccessorTerms(g, topo[i], Successors(g.edges, topo[i]), m)
         == SuccessorTerms(g, topo[i], Successors(g.edges, topo[i]), m[topo[k] := v])
  {
    forall s | s in Successors(g.edges, topo[i]) ensures Get(m, s) == Get(m[topo[k] := v], s) {
      SuccessorIsLater(g, topo, i, s);
    }
    SuccessorTermsFrame(g, topo[i], Successors(g.edges, topo[i]), m, m[topo[k] := v]);
  }

  /** A vertex's upward rank reads only its successors, which the reversed order
      stores first. */
  lemma UpwardStepReadsEarlier(g: Dag, vms: seq<Vm>, topo: seq<nat>)
    requires RankSetting(g, vms, topo)
    ensures ReadsEarlier(Reversed(topo), UpwardStep(g, vms))
  {
    var order := Reversed(topo);
    var f := UpwardStep(g, vms);
    var n := |topo|;
    forall i, j, m: map<nat, real>, v: real {:trigger order[i], m[order[j] := v]}
      | 0 <= i <= j < |order|
      ensures f(order[i], m) == f(order[i], m[order[j] := v])
    {
      UpwardStoreFrame(g, vms, topo, n - 1 - j, n - 1 - i, m, v);
    }
  }

  /** The ranks `calculateUpwardRank` stores satisfy the recurrence, whatever the map
      held before. */
  lemma UpwardRanksSatisfyRecurrence(g: Dag, vms: seq<Vm>, topo: seq<nat>, init: map<nat, real>)
    requires RankSetting(g, vms, topo)
    ensures UpwardRecurrence(g, vms, UpwardRanks(g, vms, topo, init))
  {
    var order := Reversed(topo);
    var f := UpwardStep(g, vms);
    var m := UpwardRanks(g, vms, topo, init);
    UpwardStepReadsEarlier(g, vms, topo);
    TopologicalOrderDistinct(g, topo);
    forall t | 0 <= t < |g.tasks| ensures t in m && UpwardRankHolds(g, vms, m, t) {
      assert t in topo;
      var i :| 0 <= i < |topo| && topo[i] == t;
      var p := |topo| - 1 - i;
      assert order[p] == t;
      StoreInOrderSettles(order, f, init, |topo|, p);
    }
  }

  lemma {:induction false} UpwardRecurrenceUniqueFrom(g: Dag, vms: seq<Vm>, topo: seq<nat>, k: nat,
                                                      r1: map<nat, real>, r2: map<nat, real>)
    requires RankSetting(g, vms, topo) && k <= |topo|
    requires UpwardRecurrence(g, vms, r1) && UpwardRecurrence(g, vms, r2)
    ensures forall i :: k <= i < |topo| ==> r1[topo[i]] == r2[topo[i]]
    decreases |topo| - k
  {
    if k < |topo| {
      UpwardRecurrenceUniqueFrom(g, vms, topo, k + 1, r1, r2);
      assert UpwardRankHolds(g, vms, r1, topo[k]) && UpwardRankHolds(g, vms, r2, topo[k]);
      forall s | s in Successors(g.edges, topo[k]) ensures Get(r1, s) == Get(r2, s) {
        SuccessorIsLater(g, topo, k, s);
      }
      SuccessorTermsFrame(g, topo[k], Successors(g.edges, topo[k]), r1, r2);
    }
  }

  /** The recurrence has one solution on an acyclic graph, so it defines the rank. */
  lemma UpwardRecurrenceUnique(g: Dag, vms: seq<Vm>, topo: seq<nat>,
                               r1: map<nat, real>, r2: map<nat, real>)
    requires RankSetting(g, vms, topo)
    requires UpwardRecurrence(g, vms, r1) && UpwardRecurrence(g, vms, r2)
    ensures forall t :: 0 <= t < |g.tasks| ==> r1[t] == r2[t]
  {
    UpwardRecurrenceUniqueFrom(g, vms, topo, 0, r1, r2);
    forall t | 0 <= t < |g.tasks| ensures r1[t] == r2[t] {
      assert t in topo;
    }
  }

  /** What the recurrence says of one vertex: a sink's rank is its mean execution
      time; otherwise the rank dominates, and equals, mean execution time plus
      communication plus some successor's rank (or just the mean execution time);
      with positive lengths it strictly exceeds every successor's rank. */
  lemma UpwardRankProperties(g: Dag, vms: seq<Vm>, rank: map<nat, real>, t: nat)
    requires WellFormed(g) && ValidVms(vms) && |vms| > 0
    requires UpwardRecurrence(g, vms, rank) && t < |g.tasks|
    ensures Successors(g.edges, t) == [] ==> rank[t] == AverageComputationCost(g.tasks[t], vms)
    ensures rank[t] >= AverageComputationCost(g.tasks[t], vms)
    ensures forall s :: s in Successors(g.edges, t) ==>
              s in rank &&
              rank[t] >= AverageComputationCost(g.tasks[t], vms)
                         + AverageCommunicationCost(g.tasks[t]) + rank[s]
    ensures rank[t] == AverageComputationCost(g.tasks[t], vms)
            || exists s :: s in Successors(g.edges, t) && s in rank &&
                 rank[t] == AverageComputationCost(g.tasks[t], vms)
                            + AverageCommunicationCost(g.tasks[t]) + rank[s]
    ensures forall s :: s in Successors(g.edges, t) ==> s in rank && rank[s] < rank[t]
  {
    assert UpwardRankHolds(g, vms, rank, t);
    var succ := Successors(g.edges, t);
    var terms := SuccessorTerms(g, t, succ, rank);
    MaxFromBounds(0.0, terms);
    forall s | s in succ
      ensures s in rank
      ensures rank[t] >= AverageComputationCost(g.tasks[t], vms)
                         + AverageCommunicationCost(g.tasks[t]) + rank[s]
      ensures rank[s] < rank[t]
    {
      var k :| 0 <= k < |succ| && succ[k] == s;
      var e :| 0 <= e < |g.edges| && g.edges[e] == (t, s);
      assert terms[k] <= MaxFrom(0.0, terms);
      AverageComputationCostPositive(g.tasks[t], vms);
    }
    if MaxFrom(0.0, terms) != 0.0 {
      var k :| 0 <= k < |terms| && MaxFrom(0.0, terms) == terms[k];
      assert succ[k] in succ;
      var e :| 0 <= e < |g.edges| && g.edges[e] == (t, succ[k]);
    }
  }

  // -------------------------------------------------------------- downward rank

  /** The transfer time of `p`'s output; an id outside the graph, which no edge of a
      well-formed graph carries, transfers nothing. */
  function OutputTransfer(g: Dag, p: nat): real
  {
    if p < |g.tasks| then AverageCommunicationCost(g.tasks[p]) else 0.0
  }

  /** `predecessorRank + communicationCost` for each predecessor, in edge order. */
  function PredecessorTerms(g: Dag, pred: seq<nat>, rank: map<nat, real>): (r: seq<real>)
    ensures |r| == |pred|
    ensures forall k :: 0 <= k < |pred| ==> r[k] == Get(rank, pred[k]) + OutputTransfer(g, pred[k])
  {
    seq(|pred|, k requires 0 <= k < |pred| => Get(rank, pred[k]) + OutputTransfer(g, pred[k]))
  }

  /** The value `calculateDownwardRank` stores for `t`: it adds the task's OWN mean
      execution time to the largest predecessor term. */
  function DownwardRankOf(g: Dag, vms: seq<Vm>, t: nat, rank: map<nat, real>): real
    requires t < |g.tasks| && ValidVms(vms) && |vms| > 0
  {
    MaxFrom(0.0, PredecessorTerms(g, Predecessors(g.edges, t), rank))
      + AverageComputationCost(g.tasks[t], vms)
  }

  /** What the loop stores for a vertex; ids outside the graph are never stored. */
  function DownwardStep(g: Dag, vms: seq<Vm>): (nat, map<nat, real>) -> real
    requires ValidVms(vms) && |vms| > 0
  {
    (t: nat, rank: map<nat, real>) => if t < |g.tasks| then DownwardRankOf(g, vms, t, rank) else 0.0
  }

  /** The rank map `calculateDownwardRank` leaves: every vertex stored in topological
      order, each from the ranks its predecessors already hold. */
  function DownwardRanks(g: Dag, vms: seq<Vm>, topo: seq<nat>, init: map<nat, real>): map<nat, real>
    requires ValidVms(vms) && |vms| > 0
  {
    StoreInOrder(topo, |topo|, DownwardStep(g, vms), init)
  }

  /** The recurrence of the downward rank: every vertex is ranked, and its rank is the
      largest `rank(p) + outputSize(p)/1e6` over its predecessors `p` (or 0 when there
      is none) plus its own mean execution time. */
  ghost predicate DownwardRecurrence(g: Dag, vms: seq<Vm>, rank: map<nat, real>)
    requires ValidVms(vms) && |vms| > 0
  {
    && (forall t :: 0 <= t < |g.tasks| ==> t in rank)
    && (forall t :: 0 <= t < |g.tasks| ==> DownwardRankHolds(g, vms, rank, t))
  }

  /** `t` is ranked, by the downward equation over `rank`. */
  ghost predicate DownwardRankHolds(g: Dag, vms: seq<Vm>, rank: map<nat, real>, t: nat)
    requires ValidVms(vms) && |vms| > 0
  {
    t < |g.tasks| && t in rank && rank[t] == DownwardRankOf(g, vms, t, rank)
  }

  lemma PredecessorTermsFrame(g: Dag, pred: seq<nat>, m1: map<nat, real>, m2: map<nat, real>)
    requires forall p :: p in pred ==> Get(m1, p) == Get(m2, p)
    ensures PredecessorTerms(g, pred, m1) == PredecessorTerms(g, pred, m2)
  {
    assert forall k :: 0 <= k < |pred| ==> pred[k] in pred;
  }

  /** Storing a rank for `topo[k]` changes nothing that `topo[i]`, for `i <= k`, reads:
      its predecessors all sit before it. */
  lemma DownwardStoreFrame(g: Dag, vms: seq<Vm>, topo: seq<nat>, k: nat, i: nat,
                           m: map<nat, real>, v: real)
    requires RankSetting(g, vms, topo) && i <= k < |topo|
    ensures PredecessorTerms(g, Predecessors(g.edges, topo[i]), m)
         == PredecessorTerms(g, Predecessors(g.edges, topo[i]), m[topo[k] := v])
  {
    forall p | p in Predecessors(g.edges, topo[i]) ensures Get(m, p) == Get(m[topo[k] := v], p) {
      PredecessorIsEarlier(g, topo, i, p);
    }
    PredecessorTermsFrame(g, Predecessors(g.edges, topo[i]), m, m[topo[k] := v]);
  }

  /** A vertex's downward rank reads only its predecessors, which the topological
      order stores first. */
  lemma DownwardStepReadsEarlier(g: Dag, vms: seq<Vm>, topo: seq<nat>)
    requires RankSetting(g, vms, topo)
    ensures ReadsEarlier(topo, DownwardStep(g, vms))
  {
    var f := DownwardStep(g, vms);
    forall i, j, m: map<nat, real>, v: real {:trigger topo[i], m[topo[j] := v]}
      | 0 <= i <= j < |topo|
      ensures f(topo[i], m) == f(topo[i], m[topo[j] := v])
    {
      DownwardStoreFrame(g, vms, topo, j, i, m, v);
    }
  }

  /** The ranks `calculateDownwardRank` stores satisfy the recurrence. */
  lemma DownwardRanksSatisfyRecurrence(g: Dag, vms: seq<Vm>, topo: seq<nat>, init: map<nat, real>)
    requires RankSetting(g, vms, topo)
    ensures DownwardRecurrence(g, vms, DownwardRanks(g, vms, topo, init))
  {
    var f := DownwardStep(g, vms);
    var m := DownwardRanks(g, vms, topo, init);
    DownwardStepReadsEarlier(g, vms, topo);
    TopologicalOrderDistinct(g, topo);
    forall t | 0 <= t < |g.tasks| ensures t in m && DownwardRankHolds(g, vms, m, t) {
      assert t in topo;
      var i :| 0 <= i < |topo| && topo[i] == t;
      StoreInOrderSettles(topo, f, init, |topo|, i);
    }
  }

  lemma {:induction false} DownwardRecurrenceUniqueUpTo(g: Dag, vms: seq<Vm>, topo: seq<nat>, k: nat,
                                                        r1: map<nat, real>, r2: map<nat, real>)
    requires RankSetting(g, vms, topo) && k <= |topo|
    requires DownwardRecurrence(g, vms, r1) && DownwardRecurrence(g, vms, r2)
    ensures forall i :: 0 <= i < k ==> r1[topo[i]] == r2[topo[i]]
  {
    if k > 0 {
      DownwardRecurrenceUniqueUpTo(g, vms, topo, k - 1, r1, r2);
      assert DownwardRankHolds(g, vms, r1, topo[k - 1]) && DownwardRankHolds(g, vms, r2, topo[k - 1]);
      forall p | p in Predecessors(g.edges, topo[k - 1]) ensures Get(r1, p) == Get(r2, p) {
        PredecessorIsEarlier(g, topo, k - 1, p);
      }
      PredecessorTermsFrame(g, Predecessors(g.edges, topo[k - 1]), r1, r2);
    }
  }

  /** The downward recurrence has one solution on an acyclic graph. */
  lemma DownwardRecurrenceUnique(g: Dag, vms: seq<Vm>, topo: seq<nat>,
                                 r1: map<nat, real>, r2: map<nat, real>)
    requires RankSetting(g, vms, topo)
    requires DownwardRecurrence(g, vms, r1) && DownwardRecurrence(g, vms, r2)
    ensures forall t :: 0 <= t < |g.tasks| ==> r1[t] == r2[t]
  {
    DownwardRecurrenceUniqueUpTo(g, vms, topo, |topo|, r1, r2);
    forall t | 0 <= t < |g.tasks| ensures r1[t] == r2[t] {
      assert t in topo;
    }
  }

  /** What the recurrence says of one vertex: a source's downward rank is its own mean
      execution time, the rank always includes that cost, and it dominates every
      predecessor's rank plus the transfer plus the task's own cost. */
  lemma DownwardRankProperties(g: Dag, vms: seq<Vm>, rank: map<nat, real>, t: nat)
    requires WellFormed(g) && ValidVms(vms) && |vms| > 0
    requires DownwardRecurrence(g, vms, rank) && t < |g.tasks|
    ensures Predecessors(g.edges, t) == [] ==> rank[t] == AverageComputationCost(g.tasks[t], vms)
    ensures rank[t] >= AverageComputationCost(g.tasks[t], vms)
    ensures forall p :: p in Predecessors(g.edges, t) ==>
              p in rank && p < |g.tasks| &&
              rank[t] >= rank[p] + AverageCommunicationCost(g.tasks[p])
                         + AverageComputationCost(g.tasks[t], vms)
    ensures forall p :: p in Predecessors(g.edges, t) ==> p in rank && rank[p] < rank[t]
  {
    assert DownwardRankHolds(g, vms, rank, t);
    var pred := Predecessors(g.edges, t);
    PredecessorsInGraph(g, t);
    var terms := PredecessorTerms(g, pred, rank);
    MaxFromBounds(0.0, terms);
    forall p | p in pred
      ensures p in rank && p < |g.tasks|
      ensures rank[t] >= rank[p] + AverageCommunicationCost(g.tasks[p])
                         + AverageComputationCost(g.tasks[t], vms)
      ensures rank[p] < rank[t]
    {
      var k :| 0 <= k < |pred| && pred[k] == p;
      assert terms[k] <= MaxFrom(0.0, terms);
      AverageComputationCostPositive(g.tasks[t], vms);
    }
  }
}
