/** Python's `max` and `sum` over lists of numbers. */
module Sequences {
  /** The largest entry of a non-empty list: Python's `max`. */
  function SeqMax(s: seq<real>): (m: real)
    requires |s| > 0
    ensures forall i :: 0 <= i < |s| ==> s[i] <= m
    ensures exists i :: 0 <= i < |s| && s[i] == m
    decreases |s|
  {
    if |s| == 1 then s[0]
    else
      var m := SeqMax(s[..|s| - 1]);
      if s[|s| - 1] > m then s[|s| - 1] else m
  }

  /** `sum(s)`, added up from the left. */
  function Sum(s: seq<real>): real
    decreases |s|
  {
    if |s| == 0 then 0.0 else Sum(s[..|s| - 1]) + s[|s| - 1]
  }

  /** A sum of `|s|` terms, each at most `b`, is at most `|s| * b`. */
  lemma {:induction false} SumAtMost(s: seq<real>, b: real)
    requires forall i :: 0 <= i < |s| ==> s[i] <= b
    ensures Sum(s) <= (|s| as real) * b
    decreases |s|
  {
    if |s| > 0 {
      SumAtMost(s[..|s| - 1], b);
      assert (|s| as real) * b == ((|s| - 1) as real) * b + b;
    }
  }

  /** A sum of non-negative terms is at least any one of them. */
  lemma {:induction false} SumAtLeastEntry(s: seq<real>, k: int)
    requires forall i :: 0 <= i < |s| ==> s[i] >= 0.0
    requires 0 <= k < |s|
    ensures Sum(s) >= s[k]
    decreases |s|
  {
    var front := s[..|s| - 1];
    if k < |s| - 1 {
      SumAtLeastEntry(front, k);
    } else {
      SumNonNegative(front);
    }
  }

  /** A sum of non-negative terms is non-negative. */
  lemma {:induction false} SumNonNegative(s: seq<real>)
    requires forall i :: 0 <= i < |s| ==> s[i] >= 0.0
    ensures Sum(s) >= 0.0
    decreases |s|
  {
    if |s| > 0 {
      SumNonNegative(s[..|s| - 1]);
    }
  }
}
