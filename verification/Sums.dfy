/** Finite sums over integer sequences, as the allocation and rounding proofs need them. */
module Sums {
  function Sum(s: seq<int>): int {
    if |s| == 0 then 0 else Sum(s[..|s| - 1]) + s[|s| - 1]
  }

  lemma {:induction false} SumAppend(s: seq<int>, x: int)
    ensures Sum(s + [x]) == Sum(s) + x
  {
    assert (s + [x])[..|s|] == s;
  }

  /** Replacing one element moves the sum by exactly the change. */
  lemma {:induction false} SumUpdate(s: seq<int>, k: nat, v: int)
    requires k < |s|
    ensures Sum(s[k := v]) == Sum(s) - s[k] + v
    decreases |s|
  {
    var last := |s| - 1;
    if k == last {
      assert s[k := v][..last] == s[..last];
    } else {
      SumUpdate(s[..last], k, v);
      assert s[k := v][..last] == s[..last][k := v];
    }
  }

  /** A linear relation between the elements holds between the sums. */
  lemma {:induction false} SumLinear(s: seq<int>, a: int, x: seq<int>, b: int, y: seq<int>)
    requires |s| == |x| == |y|
    requires forall i :: 0 <= i < |s| ==> s[i] == a * x[i] + b * y[i]
    ensures Sum(s) == a * Sum(x) + b * Sum(y)
  {
    if |s| > 0 {
      var last := |s| - 1;
      SumLinear(s[..last], a, x[..last], b, y[..last]);
      assert s[last] == a * x[last] + b * y[last];
    }
  }

  /** Element-wise order gives order of the sums; one strict place makes it strict. */
  lemma {:induction false} SumOrdered(x: seq<int>, y: seq<int>)
    requires |x| == |y|
    requires forall i :: 0 <= i < |x| ==> x[i] <= y[i]
    ensures Sum(x) <= Sum(y)
    ensures (exists i :: 0 <= i < |x| && x[i] < y[i]) ==> Sum(x) < Sum(y)
  {
    if |x| > 0 {
      var last := |x| - 1;
      SumOrdered(x[..last], y[..last]);
      if i :| 0 <= i < |x| && x[i] < y[i] {
        if i < last {
          assert x[..last][i] < y[..last][i];
        }
      }
    }
  }

  lemma {:induction false} SumNonNegative(s: seq<int>)
    requires forall i :: 0 <= i < |s| ==> s[i] >= 0
    ensures Sum(s) >= 0
    ensures forall i :: 0 <= i < |s| ==> s[i] <= Sum(s)
  {
    if |s| > 0 {
      SumNonNegative(s[..|s| - 1]);
      forall i | 0 <= i < |s| - 1 ensures s[i] <= Sum(s) {
        assert s[..|s| - 1][i] == s[i];
      }
    }
  }
}
