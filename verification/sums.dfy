/** Left-to-right sums of real sequences, as `reduce((s, x) => s + x, 0)`
    computes them. */
module Sums {

  function Sum(s: seq<real>): real {
    if |s| == 0 then 0.0 else Sum(s[..|s| - 1]) + s[|s| - 1]
  }

  lemma {:induction false} SumAppend(a: seq<real>, b: seq<real>)
    ensures Sum(a + b) == Sum(a) + Sum(b)
    decreases |b|
  {
    if |b| == 0 {
      assert a + b == a;
    } else {
      assert (a + b)[..|a + b| - 1] == a + b[..|b| - 1];
      SumAppend(a, b[..|b| - 1]);
    }
  }

  /** Adding `v` to one entry adds `v` to the sum. */
  lemma {:induction false} SumUpdate(s: seq<real>, p: nat, v: real)
    requires p < |s|
    ensures Sum(s[p := s[p] + v]) == Sum(s) + v
    decreases |s|
  {
    var t := s[p := s[p] + v];
    if p < |s| - 1 {
      assert t[..|t| - 1] == s[..|s| - 1][p := s[p] + v];
      SumUpdate(s[..|s| - 1], p, v);
    } else {
      assert t[..|t| - 1] == s[..|s| - 1];
    }
  }

  /** A sequence of zeros sums to zero. */
  lemma {:induction false} SumZeros(s: seq<real>)
    requires forall i :: 0 <= i < |s| ==> s[i] == 0.0
    ensures Sum(s) == 0.0
    decreases |s|
  {
    if |s| > 0 {
      SumZeros(s[..|s| - 1]);
    }
  }

  /** A sum is positive only if some term is. */
  lemma {:induction false} PositiveSumHasPositiveTerm(s: seq<real>)
    requires Sum(s) > 0.0
    ensures exists i :: 0 <= i < |s| && s[i] > 0.0
    decreases |s|
  {
    if s[|s| - 1] <= 0.0 {
      PositiveSumHasPositiveTerm(s[..|s| - 1]);
      var i :| 0 <= i < |s| - 1 && s[..|s| - 1][i] > 0.0;
      assert s[i] > 0.0;
    }
  }
}
