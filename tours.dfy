/**
 * Tours over the nodes `0 .. n - 1` of an instance, as both the greedy builder and the
 * random-key decoder produce them, and the cost of the closed tour through them.
 */
module Tours {
  import opened TspInstance

  /** Every entry is a node of an `n`-node instance. */
  predicate InRange(t: seq<int>, n: int) {
    forall i :: 0 <= i < |t| ==> 0 <= t[i] < n
  }

  /** No node occurs twice: none repeats a node seen before it. */
  predicate Distinct(t: seq<int>) {
    forall i :: 0 <= i < |t| ==> t[i] !in t[..i]
  }

  /** `t` lists each of the nodes `0 .. n - 1` exactly once. */
  predicate IsPermutation(t: seq<int>, n: int) {
    |t| == n && InRange(t, n) && Distinct(t)
  }

  /** A path that visits nodes of the instance, none twice. */
  predicate IsPath(inst: TSPInstance, t: seq<int>) {
    Covers(inst) && InRange(t, inst.numNodes) && Distinct(t)
  }

  /** The sum of the distances between consecutive nodes of `t`. */
  function PathCost(inst: TSPInstance, t: seq<int>): real
    requires IsPath(inst, t)
    decreases |t|
  {
    if |t| <= 1 then 0.0
    else PathCost(inst, t[..|t| - 1]) + Distance(inst, t[|t| - 2], t[|t| - 1])
  }

  /** The cost of the closed tour: the path plus the edge from the last node back to the first. */
  function ClosedTourCost(inst: TSPInstance, t: seq<int>): real
    requires IsPath(inst, t) && |t| >= 2
  {
    PathCost(inst, t) + Distance(inst, t[0], t[|t| - 1])
  }

  /** Extending a path by one more node adds the distance of the new edge. */
  lemma PathCostSnoc(inst: TSPInstance, t: seq<int>, x: int)
    requires IsPath(inst, t) && |t| >= 1
    requires 0 <= x < inst.numNodes && x !in t
    ensures IsPath(inst, t + [x])
    ensures PathCost(inst, t + [x]) == PathCost(inst, t) + Distance(inst, t[|t| - 1], x)
  {
    assert (t + [x])[..|t|] == t;
  }

  /** `set(range(a, b))` */
  function Range(a: int, b: int): (r: set<int>)
    ensures forall k :: k in r <==> a <= k < b
    ensures |r| == if a <= b then b - a else 0
    decreases b - a
  {
    if a >= b then {} else Range(a + 1, b) + {a}
  }

  /** The nodes a sequence mentions. */
  function Elements(t: seq<int>): set<int> {
    set x | x in t
  }

  /** A sequence without repeats mentions as many nodes as it is long. */
  lemma {:induction false} DistinctElements(t: seq<int>)
    requires Distinct(t)
    ensures |Elements(t)| == |t|
    decreases |t|
  {
    if |t| > 0 {
      var front := t[..|t| - 1];
      assert Distinct(front) by {
        forall i | 0 <= i < |front| ensures front[i] !in front[..i] {
          assert front[..i] == t[..i];
        }
      }
      DistinctElements(front);
      assert t == front + [t[|t| - 1]];
      assert Elements(t) == Elements(front) + {t[|t| - 1]};
      assert t[|t| - 1] !in Elements(front) by {
        assert front == t[..|t| - 1];
      }
    }
  }

  /** Pigeonhole: a permutation of `0 .. n - 1` mentions every one of those nodes. */
  lemma PermutationOnto(t: seq<int>, n: int)
    requires IsPermutation(t, n)
    ensures forall k :: 0 <= k < n ==> k in t
  {
    DistinctElements(t);
    forall k | 0 <= k < n ensures k in t {
      if k !in t {
        assert Elements(t) <= Range(0, n) - {k};
        assert |Range(0, n) - {k}| == n - 1;
        SubsetSize(Elements(t), Range(0, n) - {k});
        assert false;
      }
    }
  }

  lemma SubsetSize(a: set<int>, b: set<int>)
    requires a <= b
    ensures |a| <= |b|
  {
    assert b == a + (b - a);
    assert a * (b - a) == {};
  }

  /** A prefix of a path is a path. */
  lemma PathPrefix(inst: TSPInstance, t: seq<int>, m: int)
    requires IsPath(inst, t) && 0 <= m <= |t|
    ensures IsPath(inst, t[..m])
  {
    forall i | 0 <= i < m ensures t[..m][i] !in t[..m][..i] {
      assert t[..m][..i] == t[..i];
    }
  }

  /** The first `m + 1` nodes cost the first `m` plus the edge from node `m - 1` to node `m`. */
  lemma PathCostPrefixStep(inst: TSPInstance, t: seq<int>, m: int)
    requires IsPath(inst, t) && 1 <= m < |t|
    ensures IsPath(inst, t[..m]) && IsPath(inst, t[..m + 1])
    ensures PathCost(inst, t[..m + 1]) == PathCost(inst, t[..m]) + Distance(inst, t[m - 1], t[m])
  {
    PathPrefix(inst, t, m);
    PathPrefix(inst, t, m + 1);
    assert t[..m + 1][..m] == t[..m];
  }
}
