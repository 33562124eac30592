/**
 * The nearest-neighbour tour: start at node 0 and repeatedly move to the closest node not
 * yet visited, taking the first such node in ascending order when several are equally close.
 */
module GreedyTour {
  import opened TspInstance
  import opened Tours
  import opened Sequences

  /** The nodes of an `n`-node instance that `prefix` has not visited. */
  function Unvisited(prefix: seq<int>, n: int): set<int> {
    set k | 0 <= k < n && k !in prefix
  }

  /** Every distance the instance answers is an entry of `distances`, hence at most their maximum. */
  lemma DistanceAtMostMax(inst: TSPInstance, i: int, j: int)
    requires Covers(inst) && |inst.distances| > 0
    requires 0 <= i < inst.numNodes && 0 <= j < inst.numNodes && i != j
    ensures Distance(inst, i, j) <= SeqMax(inst.distances)
  {
    var a := if i > j then j else i;
    var b := if i > j then i else j;
    PairIndexRange(inst.numNodes, a, b);
  }

  /** With two nodes or more the triangle is non-empty, so `max(distances)` is defined. */
  lemma DistancesNonEmpty(inst: TSPInstance)
    requires Covers(inst) && inst.numNodes >= 2
    ensures |inst.distances| > 0
  {
    PairIndexRange(inst.numNodes, 0, 1);
  }

  /**
   * `x` is where the scan over `rem` from `cur` ends up: a node of `rem` at least as close as
   * every other, and strictly closer than every node that comes before it.
   */
  predicate FirstNearest(inst: TSPInstance, cur: int, rem: set<int>, x: int)
    requires Covers(inst) && 0 <= cur < inst.numNodes
    requires forall k :: k in rem ==> 0 <= k < inst.numNodes && k != cur
  {
    x in rem &&
    forall k :: k in rem ==>
      Distance(inst, cur, x) <= Distance(inst, cur, k) && (k < x ==> Distance(inst, cur, x) < Distance(inst, cur, k))
  }

  /**
   * `t` starts at node 0, visits nodes of the instance at most once each, and every later
   * node is the first nearest unvisited node to its predecessor.
   */
  predicate GreedyPrefix(inst: TSPInstance, t: seq<int>)
    decreases |t|
  {
    Covers(inst) && |t| >= 1 && InRange(t, inst.numNodes) && Distinct(t) &&
    if |t| == 1 then t[0] == 0
    else
      var front := t[..|t| - 1];
      GreedyPrefix(inst, front) &&
      FirstNearest(inst, front[|front| - 1], Unvisited(front, inst.numNodes), t[|t| - 1])
  }

  /** A complete greedy tour: a greedy prefix through all `n` nodes. */
  predicate IsGreedyTour(inst: TSPInstance, t: seq<int>) {
    GreedyPrefix(inst, t) && |t| == inst.numNodes
  }

  /** Spelled out step by step: node 0 first, then at each step the first nearest unvisited node. */
  lemma {:induction false} GreedyPrefixSteps(inst: TSPInstance, t: seq<int>)
    requires GreedyPrefix(inst, t)
    ensures t[0] == 0
    ensures forall s :: 1 <= s < |t| ==> FirstNearest(inst, t[s - 1], Unvisited(t[..s], inst.numNodes), t[s])
    decreases |t|
  {
    if |t| > 1 {
      var front := t[..|t| - 1];
      GreedyPrefixSteps(inst, front);
      forall s | 1 <= s < |t|
        ensures FirstNearest(inst, t[s - 1], Unvisited(t[..s], inst.numNodes), t[s])
      {
        if s < |front| {
          assert t[..s] == front[..s];
        }
      }
    }
  }

  /** Appending the first nearest unvisited node extends a greedy prefix, visits that node, and pays its edge. */
  lemma GreedyPrefixSnoc(inst: TSPInstance, t: seq<int>, x: int)
    requires GreedyPrefix(inst, t)
    requires forall k :: k in Unvisited(t, inst.numNodes) ==> k != t[|t| - 1]
    requires FirstNearest(inst, t[|t| - 1], Unvisited(t, inst.numNodes), x)
    ensures GreedyPrefix(inst, t + [x])
    ensures Unvisited(t + [x], inst.numNodes) == Unvisited(t, inst.numNodes) - {x}
    ensures PathCost(inst, t + [x]) == PathCost(inst, t) + Distance(inst, t[|t| - 1], x)
  {
    assert (t + [x])[..|t|] == t;
    PathCostSnoc(inst, t, x);
  }

  /** Two nodes can both be the first nearest only if they are the same node. */
  lemma FirstNearestUnique(inst: TSPInstance, cur: int, rem: set<int>, x: int, y: int)
    requires Covers(inst) && 0 <= cur < inst.numNodes
    requires forall k :: k in rem ==> 0 <= k < inst.numNodes && k != cur
    requires FirstNearest(inst, cur, rem, x) && FirstNearest(inst, cur, rem, y)
    ensures x == y
  {
  }

  /** The greedy construction leaves no choice: two greedy prefixes of one length are equal. */
  lemma {:induction false} GreedyPrefixUnique(inst: TSPInstance, t: seq<int>, u: seq<int>)
    requires GreedyPrefix(inst, t) && GreedyPrefix(inst, u) && |t| == |u|
    ensures t == u
    decreases |t|
  {
    if |t| > 1 {
      var n := |t| - 1;
      GreedyPrefixUnique(inst, t[..n], u[..n]);
      FirstNearestUnique(inst, t[n - 1], Unvisited(t[..n], inst.numNodes), t[n], u[n]);
      assert t == t[..n] + [t[n]] && u == u[..n] + [u[n]];
    }
  }

  /** Hence an instance has exactly one greedy tour. */
  lemma GreedyTourUnique(inst: TSPInstance, t: seq<int>, u: seq<int>)
    requires IsGreedyTour(inst, t) && IsGreedyTour(inst, u)
    ensures t == u
  {
    GreedyPrefixUnique(inst, t, u);
  }

  /**
   * One pass of the `for j in remaining` scan from `current`, visiting `remaining` in ascending
   * order and starting from `best_dist = INF`: it ends on the first nearest node.
   */
  method ScanNearest(inst: TSPInstance, current: int, remaining: set<int>, inf: real) returns (best: real, next: int)
    requires Covers(inst) && |inst.distances| > 0 && 0 <= current < inst.numNodes
    requires forall k :: k in remaining ==> 0 <= k < inst.numNodes && k != current
    requires remaining != {}
    requires inf == SeqMax(inst.distances) + 10.0
    ensures FirstNearest(inst, current, remaining, next)
    ensures best == Distance(inst, current, next)
  {
    var n := inst.numNodes;
    best := inf;
    next := 0;
    ghost var found := false;
    var j := 0;
    while j < n
      invariant 0 <= j <= n
      invariant !found ==> best == inf && forall k :: k in remaining ==> j <= k
      invariant found ==> next in remaining && next < j && best == Distance(inst, current, next)
      invariant found ==> forall k :: k in remaining && k < j ==>
        best <= Distance(inst, current, k) && (k < next ==> best < Distance(inst, current, k))
    {
      if j in remaining {
        var dist := Distance(inst, current, j);
        DistanceAtMostMax(inst, current, j);
        if dist < best {
          best := dist;
          next := j;
        }
        found := true;
      }
      j := j + 1;
    }
    assert found by {
      var w :| w in remaining;
    }
  }

  /**
   * What holds between iterations of the `while` loop: the tour so far is a greedy prefix,
   * `remaining` is exactly the unvisited nodes, `current` the last node visited, and `cost`
   * the length of the path so far.
   */
  predicate LoopState(inst: TSPInstance, visited: seq<int>, remaining: set<int>, current: int, cost: real) {
    GreedyPrefix(inst, visited) && remaining == Unvisited(visited, inst.numNodes) &&
    |remaining| == inst.numNodes - |visited| &&
    current == visited[|visited| - 1] && cost == PathCost(inst, visited)
  }

  /**
   * One iteration: writing the first nearest unvisited node at position `idx` of the tour
   * and paying its distance keeps the loop state one position further on.
   */
  lemma LoopStep(inst: TSPInstance, tour: seq<int>, idx: int, remaining: set<int>, current: int, cost: real, next: int, best: real)
    requires 1 <= idx < |tour|
    requires LoopState(inst, tour[..idx], remaining, current, cost)
    requires forall k :: k in remaining ==> k != current
    requires FirstNearest(inst, current, remaining, next) && best == Distance(inst, current, next)
    ensures LoopState(inst, tour[idx := next][..idx + 1], remaining - {next}, next, cost + best)
  {
    var v := tour[..idx];
    var w := tour[idx := next][..idx + 1];
    assert w == v + [next];
    GreedyPrefixSnoc(inst, v, next);
    assert |remaining - {next}| == |remaining| - 1 by {
      assert next in remaining;
    }
    assert w[|w| - 1] == next;
  }

  /** While nodes remain, the scan's preconditions hold: `current` is a node and every remaining node is another one. */
  lemma LoopStateScan(inst: TSPInstance, visited: seq<int>, remaining: set<int>, current: int, cost: real)
    requires LoopState(inst, visited, remaining, current, cost) && |remaining| > 0
    ensures Covers(inst) && 0 <= current < inst.numNodes && remaining != {}
    ensures forall k :: k in remaining ==> 0 <= k < inst.numNodes && k != current
  {
  }

  /** Before the first iteration: the tour starts with node 0, every other node remains, nothing is paid yet. */
  lemma LoopStart(inst: TSPInstance, tour: seq<int>)
    requires Covers(inst) && |tour| == inst.numNodes >= 1 && tour[0] == 0
    ensures LoopState(inst, tour[..1], Range(1, inst.numNodes), 0, 0.0)
  {
    assert tour[..1] == [0];
    assert Range(1, inst.numNodes) == Unvisited([0], inst.numNodes);
  }

  /** When no node remains, the greedy prefix is the whole tour, and closing it costs one more edge. */
  lemma LoopEnd(inst: TSPInstance, tour: seq<int>, idx: int, remaining: set<int>, current: int, cost: real)
    requires 0 <= idx <= |tour| == inst.numNodes
    requires LoopState(inst, tour[..idx], remaining, current, cost) && |remaining| == 0
    requires inst.numNodes >= 2
    ensures IsGreedyTour(inst, tour)
    ensures IsPermutation(tour, inst.numNodes) && tour[0] == 0 && 0 < tour[inst.numNodes - 1] < inst.numNodes
    ensures cost + Distance(inst, tour[0], tour[inst.numNodes - 1]) == ClosedTourCost(inst, tour)
  {
    assert tour[..idx] == tour;
    GreedyPrefixSteps(inst, tour);
  }

  /**
   * The body of the `while` loop: scan for the first nearest remaining node, pay its distance,
   * write it at position `idx` of the tour and strike it from `remaining`.
   */
  method Visit(inst: TSPInstance, tour: seq<int>, idx: int, remaining: set<int>, current: int, cost: real, inf: real)
    returns (tour': seq<int>, remaining': set<int>, current': int, cost': real)
    requires 1 <= idx <= |tour| == inst.numNodes && |inst.distances| > 0 && inf == SeqMax(inst.distances) + 10.0
    requires LoopState(inst, tour[..idx], remaining, current, cost) && |remaining| > 0
    ensures idx < |tour| && |tour'| == |tour| && LoopState(inst, tour'[..idx + 1], remaining', current', cost')
  {
    LoopStateScan(inst, tour[..idx], remaining, current, cost);
    var best, next := ScanNearest(inst, current, remaining, inf);
    LoopStep(inst, tour, idx, remaining, current, cost, next, best);
    cost' := cost + best;
    tour' := tour[idx := next];
    remaining' := remaining - {next};
    current' := next;
  }

  /** `greedy_tour(instance)`: the tour array and the cost of the closed tour through it. */
  method Greedy(inst: TSPInstance) returns (cost: real, tour: seq<int>)
    requires Covers(inst) && inst.numNodes >= 2
    ensures IsGreedyTour(inst, tour)
    ensures IsPermutation(tour, inst.numNodes) && tour[0] == 0
    ensures cost == ClosedTourCost(inst, tour)
  {
    var n := inst.numNodes;
    tour := seq(n, _ => 0);
    tour := tour[0 := 0];
    var remaining := Range(1, n);
    LoopStart(inst, tour);
    DistancesNonEmpty(inst);
    var inf := SeqMax(inst.distances) + 10.0;
    cost := 0.0;
    var current := 0;
    var idx := 1;
    while |remaining| > 0
      invariant 1 <= idx <= n && |tour| == n
      invariant LoopState(inst, tour[..idx], remaining, current, cost)
      decreases n - idx
    {
      tour, remaining, current, cost := Visit(inst, tour, idx, remaining, current, cost, inf);
      idx := idx + 1;
    }
    LoopEnd(inst, tour, idx, remaining, current, cost);
    cost := cost + Distance(inst, tour[0], tour[n - 1]);
  }
}
