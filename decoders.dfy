/**
 * The two decoders the test suite drives the engine with. Both first add the instance's
 * data to the chromosome key by key; `SumDecode` then scales by the largest sum and returns
 * the total, `RankDecode` counts the positions where the sums go up. With `rewrite` set,
 * each writes its intermediate list back into the chromosome.
 */
module Decoders {
  import opened Sequences

  /** `[x + y for x, y in zip(chromosome, data)]`: `zip` stops at the shorter list. */
  function ZipSum(chromosome: seq<real>, data: seq<real>): (r: seq<real>)
    ensures |r| == if |chromosome| <= |data| then |chromosome| else |data|
    ensures forall i :: 0 <= i < |r| ==> r[i] == chromosome[i] + data[i]
  {
    var n := if |chromosome| <= |data| then |chromosome| else |data|;
    seq(n, i requires 0 <= i < n => chromosome[i] + data[i])
  }

  /** `[x / max(tmp) for x in tmp]` */
  function Normalize(tmp: seq<real>): (r: seq<real>)
    requires |tmp| > 0 && SeqMax(tmp) != 0.0
    ensures |r| == |tmp|
  {
    seq(|tmp|, i requires 0 <= i < |tmp| => tmp[i] / SeqMax(tmp))
  }

  /** Dividing by a positive bound: the quotient lies between 0 and 1, and is 1 at the bound itself. */
  lemma QuotientBounds(x: real, m: real)
    requires 0.0 < m && x <= m
    ensures x / m <= 1.0 && m / m == 1.0
    ensures 0.0 <= x ==> 0.0 <= x / m
  {
    assert (x / m) * m == x;
  }

  /** With a positive maximum, scaling puts every value at most 1 and the maximum itself at exactly 1. */
  lemma NormalizeAtMostOne(tmp: seq<real>)
    requires |tmp| > 0 && SeqMax(tmp) > 0.0
    ensures forall i :: 0 <= i < |tmp| ==> Normalize(tmp)[i] <= 1.0
    ensures exists i :: 0 <= i < |tmp| && Normalize(tmp)[i] == 1.0
  {
    var m := SeqMax(tmp);
    var r := Normalize(tmp);
    forall i | 0 <= i < |tmp| ensures r[i] <= 1.0 {
      QuotientBounds(tmp[i], m);
    }
    var k :| 0 <= k < |tmp| && tmp[k] == m;
    QuotientBounds(m, m);
    assert r[k] == 1.0;
  }

  /** Scaling non-negative values by a positive maximum keeps them non-negative. */
  lemma NormalizeNonNegative(tmp: seq<real>)
    requires |tmp| > 0 && SeqMax(tmp) > 0.0
    requires forall i :: 0 <= i < |tmp| ==> tmp[i] >= 0.0
    ensures forall i :: 0 <= i < |tmp| ==> Normalize(tmp)[i] >= 0.0
  {
    var m := SeqMax(tmp);
    var r := Normalize(tmp);
    forall i | 0 <= i < |tmp| ensures r[i] >= 0.0 {
      QuotientBounds(tmp[i], m);
    }
  }

  /**
   * When no sum is negative and some sum is positive, `SumDecode`'s value lies between 1 and
   * the number of keys.
   */
  lemma SumOfNormalizedRange(tmp: seq<real>)
    requires |tmp| > 0 && SeqMax(tmp) > 0.0
    requires forall i :: 0 <= i < |tmp| ==> tmp[i] >= 0.0
    ensures 1.0 <= Sum(Normalize(tmp)) <= |tmp| as real
  {
    var r := Normalize(tmp);
    NormalizeAtMostOne(tmp);
    NormalizeNonNegative(tmp);
    var k :| 0 <= k < |tmp| && r[k] == 1.0;
    SumOfUnitValues(r, k);
  }

  /** Values in `[0, 1]`, one of them 1: their sum lies between 1 and their number. */
  lemma SumOfUnitValues(r: seq<real>, k: int)
    requires forall i :: 0 <= i < |r| ==> 0.0 <= r[i] <= 1.0
    requires 0 <= k < |r| && r[k] == 1.0
    ensures 1.0 <= Sum(r) <= |r| as real
  {
    SumAtMost(r, 1.0);
    SumAtLeastEntry(r, k);
  }

  /** `for i in range(len(chromosome)): chromosome[i] = tmp[i]` */
  method Overwrite(chromosome: array<real>, tmp: seq<real>)
    requires chromosome.Length <= |tmp|
    modifies chromosome
    ensures chromosome[..] == tmp[..chromosome.Length]
  {
    var i := 0;
    while i < chromosome.Length
      invariant 0 <= i <= chromosome.Length
      invariant chromosome[..i] == tmp[..i]
    {
      chromosome[i] := tmp[i];
      i := i + 1;
      assert chromosome[..i] == chromosome[..i - 1] + [chromosome[i - 1]];
    }
    assert chromosome[..] == chromosome[..chromosome.Length];
  }

  /**
   * `SumDecode.decode`: the sum of the scaled key sums, computed before any rewrite. With
   * `rewrite` the chromosome receives the scaled sums; without it, it is left alone.
   */
  method SumDecode(chromosome: array<real>, data: seq<real>, rewrite: bool) returns (value: real)
    requires chromosome.Length > 0 && |data| > 0
    requires SeqMax(ZipSum(chromosome[..], data)) != 0.0
    requires rewrite ==> chromosome.Length <= |data|
    modifies chromosome
    ensures value == Sum(Normalize(ZipSum(old(chromosome[..]), data)))
    ensures rewrite ==> chromosome[..] == Normalize(ZipSum(old(chromosome[..]), data))
    ensures !rewrite ==> chromosome[..] == old(chromosome[..])
  {
    var tmp := ZipSum(chromosome[..], data);
    tmp := Normalize(tmp);
    if rewrite {
      Overwrite(chromosome, tmp);
      assert tmp[..chromosome.Length] == tmp;
    }
    value := Sum(tmp);
  }

  /** The number of positions `i` with `t[i + 1] > t[i]`. */
  function Ascents(t: seq<real>): nat
    decreases |t|
  {
    if |t| <= 1 then 0
    else Ascents(t[..|t| - 1]) + (if t[|t| - 1] > t[|t| - 2] then 1 else 0)
  }

  /** There are at most `|t| - 1` ascents, and exactly that many iff `t` is strictly increasing. */
  lemma {:induction false} AscentsAllIff(t: seq<real>)
    requires |t| >= 1
    ensures Ascents(t) <= |t| - 1
    ensures Ascents(t) == |t| - 1 <==> forall i :: 0 <= i < |t| - 1 ==> t[i] < t[i + 1]
    decreases |t|
  {
    if |t| > 1 {
      var front := t[..|t| - 1];
      AscentsAllIff(front);
    }
  }

  /** There are no ascents iff `t` never goes up. */
  lemma {:induction false} AscentsNoneIff(t: seq<real>)
    ensures Ascents(t) == 0 <==> forall i :: 0 <= i < |t| - 1 ==> t[i + 1] <= t[i]
    decreases |t|
  {
    if |t| > 1 {
      var front := t[..|t| - 1];
      AscentsNoneIff(front);
    }
  }

  /**
   * `RankDecode.decode`: the number of ascents of the key sums, computed before any rewrite.
   * With `rewrite` the chromosome receives the key sums; without it, it is left alone.
   */
  method RankDecode(chromosome: array<real>, data: seq<real>, rewrite: bool) returns (value: real)
    requires rewrite ==> chromosome.Length <= |data|
    modifies chromosome
    ensures value == Ascents(ZipSum(old(chromosome[..]), data)) as real
    ensures rewrite ==> chromosome[..] == ZipSum(old(chromosome[..]), data)
    ensures !rewrite ==> chromosome[..] == old(chromosome[..])
  {
    var tmp := ZipSum(chromosome[..], data);
    var rank := 0;
    var i := 0;
    while i + 1 < |tmp|
      invariant 0 <= i && (i < |tmp| || i == 0)
      invariant rank == Ascents(tmp[..if |tmp| == 0 then 0 else i + 1])
    {
      assert tmp[..i + 2][..i + 1] == tmp[..i + 1];
      if tmp[i + 1] > tmp[i] {
        rank := rank + 1;
      }
      i := i + 1;
    }
    assert tmp[..if |tmp| == 0 then 0 else i + 1] == tmp;
    if rewrite {
      Overwrite(chromosome, tmp);
      assert tmp[..chromosome.Length] == tmp;
    }
    value := rank as real;
  }
}
