/**
 * The random-key decoder of the TSP example: sort the `(key, index)` pairs of a chromosome,
 * read the indices in that order as a tour, and return the cost of the closed tour.
 */
module TspDecoder {
  import opened TspInstance
  import opened Tours

  /** Python's tuple order on `(key, index)`: by key, then by index. */
  predicate PairLeq(a: (real, int), b: (real, int)) {
    a.0 < b.0 || (a.0 == b.0 && a.1 <= b.1)
  }

  predicate PairLess(a: (real, int), b: (real, int)) {
    a.0 < b.0 || (a.0 == b.0 && a.1 < b.1)
  }

  predicate SortedPairs(s: seq<(real, int)>) {
    forall i, j :: 0 <= i < j < |s| ==> PairLeq(s[i], s[j])
  }

  predicate StrictlySortedPairs(s: seq<(real, int)>) {
    forall i, j :: 0 <= i < j < |s| ==> PairLess(s[i], s[j])
  }

  /** `(key, index) for index, key in enumerate(chromosome)` */
  function Enumerate(chromosome: seq<real>): (r: seq<(real, int)>)
    ensures |r| == |chromosome|
    ensures forall i :: 0 <= i < |r| ==> r[i] == (chromosome[i], i)
  {
    seq(|chromosome|, i requires 0 <= i < |chromosome| => (chromosome[i], i))
  }

  /** Place `x` in front of the first element of `s` it does not exceed. */
  function Insert(x: (real, int), s: seq<(real, int)>): (r: seq<(real, int)>)
    ensures multiset(r) == multiset(s) + multiset{x}
    decreases |s|
  {
    if s == [] || PairLeq(x, s[0]) then [x] + s
    else
      assert s == [s[0]] + s[1..];
      [s[0]] + Insert(x, s[1..])
  }

  /** `sorted(pairs)`: the same pairs, rearranged. */
  function Sort(s: seq<(real, int)>): (r: seq<(real, int)>)
    ensures multiset(r) == multiset(s)
    decreases |s|
  {
    if s == [] then []
    else
      assert s == [s[0]] + s[1..];
      Insert(s[0], Sort(s[1..]))
  }

  /** What `Insert` puts after the head of `s` is either from the rest of `s` or `x`. */
  lemma InsertTail(x: (real, int), s: seq<(real, int)>, y: (real, int))
    requires s != [] && y in Insert(x, s[1..])
    ensures y == x || exists k :: 1 <= k < |s| && s[k] == y
  {
    assert y in multiset(Insert(x, s[1..]));
    if y != x {
      assert y in s[1..];
      var k :| 0 <= k < |s| - 1 && s[1..][k] == y;
      assert s[k + 1] == y;
    }
  }

  /** Inserting into a sorted list keeps it sorted. */
  lemma {:induction false} InsertSorted(x: (real, int), s: seq<(real, int)>)
    requires SortedPairs(s)
    ensures SortedPairs(Insert(x, s))
    decreases |s|
  {
    if s != [] && !PairLeq(x, s[0]) {
      var rest := Insert(x, s[1..]);
      InsertSorted(x, s[1..]);
      var r := [s[0]] + rest;
      forall j | 0 <= j < |rest| ensures PairLeq(s[0], rest[j]) {
        InsertTail(x, s, rest[j]);
      }
      forall i, j | 0 <= i < j < |r| ensures PairLeq(r[i], r[j]) {
        if i == 0 {
          assert r[j] == rest[j - 1];
        } else {
          assert r[i] == rest[i - 1] && r[j] == rest[j - 1];
        }
      }
    }
  }

  /** Inserting a new pair into a strictly sorted list keeps it strictly sorted. */
  lemma {:induction false} InsertStrictlySorted(x: (real, int), s: seq<(real, int)>)
    requires StrictlySortedPairs(s) && x !in s
    ensures StrictlySortedPairs(Insert(x, s))
    decreases |s|
  {
    if s != [] && !PairLeq(x, s[0]) {
      var rest := Insert(x, s[1..]);
      InsertStrictlySorted(x, s[1..]);
      var r := [s[0]] + rest;
      forall j | 0 <= j < |rest| ensures PairLess(s[0], rest[j]) {
        InsertTail(x, s, rest[j]);
      }
      forall i, j | 0 <= i < j < |r| ensures PairLess(r[i], r[j]) {
        if i == 0 {
          assert r[j] == rest[j - 1];
        } else {
          assert r[i] == rest[i - 1] && r[j] == rest[j - 1];
        }
      }
    } else if s != [] {
      assert x != s[0];
    }
  }

  /** `sorted` returns its pairs in tuple order. */
  lemma {:induction false} SortSorted(s: seq<(real, int)>)
    ensures SortedPairs(Sort(s))
    decreases |s|
  {
    if s != [] {
      SortSorted(s[1..]);
      InsertSorted(s[0], Sort(s[1..]));
    }
  }

  /** Pairs that are all different come out strictly increasing. */
  lemma {:induction false} SortStrictlySorted(s: seq<(real, int)>)
    requires forall i :: 0 <= i < |s| ==> s[i] !in s[..i]
    ensures StrictlySortedPairs(Sort(s))
    decreases |s|
  {
    if s != [] {
      var tail := s[1..];
      forall i | 0 <= i < |tail| ensures tail[i] !in tail[..i] {
        assert s[i + 1] !in s[..i + 1];
        assert s[..i + 1] == [s[0]] + tail[..i];
      }
      SortStrictlySorted(tail);
      forall k | 0 <= k < |tail| ensures tail[k] != s[0] {
        assert s[k + 1] !in s[..k + 1];
        assert s[0] in s[..k + 1];
      }
      assert s[0] !in multiset(tail);
      InsertStrictlySorted(s[0], Sort(tail));
    }
  }

  /** Sorting keeps exactly the pairs it was given. */
  lemma SortSameElements(s: seq<(real, int)>)
    ensures |Sort(s)| == |s|
    ensures forall x :: x in Sort(s) <==> x in s
  {
    assert |Sort(s)| == |multiset(Sort(s))|;
    forall x ensures x in Sort(s) <==> x in s {
      assert x in Sort(s) <==> x in multiset(Sort(s));
    }
  }

  /** The tour `decode` builds: the index components of the sorted pairs, in order. */
  function Order(chromosome: seq<real>): (t: seq<int>)
    ensures |t| == |chromosome|
  {
    var sorted := Sort(Enumerate(chromosome));
    assert |sorted| == |multiset(sorted)| == |chromosome|;
    seq(|sorted|, i requires 0 <= i < |sorted| => sorted[i].1)
  }

  /** Every sorted pair is some `(chromosome[k], k)`, and they come out strictly increasing. */
  lemma SortedEntries(chromosome: seq<real>)
    ensures |Sort(Enumerate(chromosome))| == |chromosome|
    ensures forall i :: 0 <= i < |chromosome| ==>
      var p := Sort(Enumerate(chromosome))[i]; 0 <= p.1 < |chromosome| && p.0 == chromosome[p.1]
    ensures StrictlySortedPairs(Sort(Enumerate(chromosome)))
  {
    var e := Enumerate(chromosome);
    var s := Sort(e);
    SortSameElements(e);
    SortStrictlySorted(e);
    forall i | 0 <= i < |chromosome| ensures 0 <= s[i].1 < |chromosome| && s[i].0 == chromosome[s[i].1] {
      assert s[i] in e;
      var k :| 0 <= k < |e| && e[k] == s[i];
    }
  }

  /** The decoded tour visits each of the chromosome's indices exactly once. */
  lemma OrderIsPermutation(chromosome: seq<real>)
    ensures IsPermutation(Order(chromosome), |chromosome|)
  {
    SortedEntries(chromosome);
    var s := Sort(Enumerate(chromosome));
    var t := Order(chromosome);
    forall i | 0 <= i < |t| ensures t[i] !in t[..i] {
      forall k | 0 <= k < i ensures t[k] != t[i] {
        assert PairLess(s[k], s[i]);
      }
    }
  }

  /** The decoded tour visits the indices in increasing order of key, equal keys by increasing index. */
  lemma OrderSorted(chromosome: seq<real>)
    ensures forall i, j :: 0 <= i < j < |chromosome| ==>
      var t := Order(chromosome);
      0 <= t[i] < |chromosome| && 0 <= t[j] < |chromosome| &&
      (chromosome[t[i]] < chromosome[t[j]] || (chromosome[t[i]] == chromosome[t[j]] && t[i] < t[j]))
  {
    SortedEntries(chromosome);
    OrderIndices(chromosome);
    var s := Sort(Enumerate(chromosome));
    forall i, j | 0 <= i < j < |chromosome|
      ensures 0 <= s[i].1 < |chromosome| && 0 <= s[j].1 < |chromosome|
      ensures chromosome[s[i].1] < chromosome[s[j].1] || (chromosome[s[i].1] == chromosome[s[j].1] && s[i].1 < s[j].1)
    {
      assert PairLess(s[i], s[j]);
    }
  }

  /** Two strictly sorted lists of the same pairs are the same list. */
  lemma {:induction false} StrictlySortedUnique(a: seq<(real, int)>, b: seq<(real, int)>)
    requires StrictlySortedPairs(a) && StrictlySortedPairs(b)
    requires forall x :: x in a <==> x in b
    ensures a == b
    decreases |a|
  {
    if |b| != 0 {
      assert b[0] in a;
    }
    if |a| != 0 {
      assert a[0] in b;
      var ka :| 0 <= ka < |b| && b[ka] == a[0];
      var kb :| 0 <= kb < |a| && a[kb] == b[0];
      assert PairLeq(b[0], a[0]);
      assert PairLeq(a[0], b[0]);
      assert a[0] == b[0];
      assert StrictlySortedPairs(a[1..]) && StrictlySortedPairs(b[1..]);
      forall x ensures x in a[1..] <==> x in b[1..] {
        if x in a[1..] {
          var k :| 1 <= k < |a| && a[k] == x;
          assert x in b;
          assert x != b[0];
        }
        if x in b[1..] {
          var k :| 1 <= k < |b| && b[k] == x;
          assert x in a;
          assert x != a[0];
        }
      }
      StrictlySortedUnique(a[1..], b[1..]);
      assert a == [a[0]] + a[1..] && b == [b[0]] + b[1..];
    }
  }

  /** The tour is read off the sorted pairs, index by index. */
  lemma OrderIndices(chromosome: seq<real>)
    ensures |Sort(Enumerate(chromosome))| == |chromosome|
    ensures forall i :: 0 <= i < |chromosome| ==> Order(chromosome)[i] == Sort(Enumerate(chromosome))[i].1
  {
    SortSameElements(Enumerate(chromosome));
  }

  /**
   * `decode(chromosome, rewrite)`: the cost of the closed tour the chromosome induces. The
   * chromosome is only read; `rewrite` is ignored.
   */
  method Decode(inst: TSPInstance, chromosome: seq<real>, rewrite: bool) returns (cost: real)
    requires Covers(inst) && 2 <= |chromosome| <= inst.numNodes
    ensures IsPath(inst, Order(chromosome))
    ensures cost == ClosedTourCost(inst, Order(chromosome))
  {
    var permutation := Sort(Enumerate(chromosome));
    ghost var t := Order(chromosome);
    OrderIsPermutation(chromosome);
    OrderIndices(chromosome);
    var last := |permutation| - 1;
    cost := Distance(inst, permutation[0].1, permutation[last].1);
    ghost var closing := cost;
    PathPrefix(inst, t, 1);
    var i := 0;
    while i < last
      invariant 0 <= i <= last
      invariant IsPath(inst, t[..i + 1])
      invariant cost == closing + PathCost(inst, t[..i + 1])
    {
      PathCostPrefixStep(inst, t, i + 1);
      cost := cost + Distance(inst, permutation[i].1, permutation[i + 1].1);
      i := i + 1;
    }
    assert t[..last + 1] == t;
  }

  /**
   * The chromosome `main_complete.py` injects as a warm start: node `tour[i]` gets the `i`-th
   * key.
   */
  method WarmStart(tour: seq<int>, keys: seq<real>) returns (chromosome: seq<real>)
    requires IsPermutation(tour, |tour|) && |keys| == |tour|
    ensures |chromosome| == |tour|
    ensures forall i :: 0 <= i < |tour| ==> chromosome[tour[i]] == keys[i]
  {
    var n := |tour|;
    chromosome := seq(n, _ => 0.0);
    var i := 0;
    while i < n
      invariant 0 <= i <= n && |chromosome| == n
      invariant forall k :: 0 <= k < i ==> chromosome[tour[k]] == keys[k]
    {
      assert tour[i] !in tour[..i];
      chromosome := chromosome[tour[i] := keys[i]];
      i := i + 1;
    }
  }

  /**
   * With strictly increasing keys, decoding the warm-start chromosome gives back the tour it
   * was built from.
   */
  lemma WarmStartDecodes(tour: seq<int>, keys: seq<real>, chromosome: seq<real>)
    requires IsPermutation(tour, |tour|) && |keys| == |tour| == |chromosome|
    requires forall i, j :: 0 <= i < j < |keys| ==> keys[i] < keys[j]
    requires forall i :: 0 <= i < |tour| ==> chromosome[tour[i]] == keys[i]
    ensures Order(chromosome) == tour
  {
    var n := |tour|;
    var e := Enumerate(chromosome);
    var s := Sort(e);
    var w := seq(n, i requires 0 <= i < n => (keys[i], tour[i]));
    SortedEntries(chromosome);
    PermutationOnto(tour, n);
    assert StrictlySortedPairs(w) by {
      forall i, j | 0 <= i < j < n ensures PairLess(w[i], w[j]) {
        assert keys[i] < keys[j];
      }
    }
    forall x ensures x in s <==> x in w {
      if x in s {
        var k :| 0 <= k < |s| && s[k] == x;
        assert 0 <= x.1 < n;
        assert x.1 in tour;
        var m :| 0 <= m < n && tour[m] == x.1;
        assert w[m] == x;
      }
      if x in w {
        var m :| 0 <= m < n && w[m] == x;
        assert e[tour[m]] == x;
        assert x in multiset(e);
      }
    }
    StrictlySortedUnique(s, w);
  }
}
