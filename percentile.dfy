/** Quantiles by linear interpolation between order statistics, the default
    method of `Series.quantile`: the q-quantile of n values sits at position
    h = (n - 1) * q of the ascending order, and a fractional position is
    interpolated between its two neighbours. */
module Percentile {
  import opened SeqMath

  /** The 95th percentile, as used for latency. */
  const P95Level: real := 0.95

  function Quantile(xs: seq<int>, q: real): (p: real)
    requires xs != [] && 0.0 <= q <= 1.0
    ensures Min(xs) as real <= p <= Max(xs) as real
    ensures |xs| == 1 ==> p == xs[0] as real
  {
    SortKeepsExtremes(xs);
    QuantileOfSorted(Sort(xs), q)
  }

  lemma SortKeepsExtremes(xs: seq<int>)
    requires xs != []
    ensures |Sort(xs)| == |xs|
    ensures Min(xs) <= Sort(xs)[0] && Sort(xs)[|xs| - 1] <= Max(xs)
    ensures |xs| == 1 ==> Sort(xs) == xs
  {
    var s := Sort(xs);
    assert |s| == |xs| by {
      assert |multiset(s)| == |multiset(xs)|;
    }
    assert s[0] in xs by {
      assert s[0] in multiset(s);
    }
    assert s[|s| - 1] in xs by {
      assert s[|s| - 1] in multiset(s);
    }
    if |xs| == 1 {
      assert s == [s[0]] && xs == [xs[0]];
    }
  }

  /** The interpolated q-quantile of values already in ascending order. */
  function QuantileOfSorted(s: seq<int>, q: real): (p: real)
    requires Sorted(s) && s != [] && 0.0 <= q <= 1.0
    ensures s[0] as real <= p <= s[|s| - 1] as real
    ensures |s| == 1 ==> p == s[0] as real
  {
    var h := Position(|s|, q);
    var lo := h.Floor;
    // at the last position both neighbours are the last value
    var hi := if lo + 1 < |s| then lo + 1 else |s| - 1;
    var frac := h - lo as real;
    InterpolationBetween(s[lo], s[hi], frac);
    s[lo] as real + frac * (s[hi] - s[lo]) as real
  }

  /** The fractional position h = (n - 1) * q of the q-quantile among n values. */
  function Position(n: nat, q: real): (h: real)
    requires 0 < n && 0.0 <= q <= 1.0
    ensures 0.0 <= h <= (n - 1) as real
    ensures 0 <= h.Floor < n
  {
    var a := (n - 1) as real;
    ScaleDown(a, q);
    a * q
  }

  lemma ScaleDown(a: real, q: real)
    requires 0.0 <= a && 0.0 <= q <= 1.0
    ensures 0.0 <= a * q <= a
  {
    assert 0.0 <= a * (1.0 - q);
  }

  lemma InterpolationBetween(a: int, b: int, t: real)
    requires a <= b && 0.0 <= t <= 1.0
    ensures a as real <= a as real + t * (b - a) as real <= b as real
  {
    var c := (b - a) as real;
    ScaleDown(c, t);
    assert t * c == c * t;
  }

  function P95(xs: seq<int>): (p: real)
    requires xs != []
    ensures Min(xs) as real <= p <= Max(xs) as real
    ensures |xs| == 1 ==> p == xs[0] as real
  {
    Quantile(xs, P95Level)
  }

  /** A quantile depends on the values only, not on the order the rows came in. */
  lemma QuantileIgnoresOrder(xs: seq<int>, ys: seq<int>, q: real)
    requires xs != [] && 0.0 <= q <= 1.0
    requires multiset(xs) == multiset(ys)
    ensures ys != [] && Quantile(xs, q) == Quantile(ys, q)
  {
    assert |xs| == |multiset(xs)| == |ys|;
    SortedUnique(Sort(xs), Sort(ys));
  }

  lemma TenStepsInterpolation(xs: seq<int>)
    requires xs == [10, 20, 30, 40, 50, 60, 70, 80, 90, 100]
    ensures QuantileOfSorted(xs, P95Level) == 95.5
  {
    assert Position(10, P95Level) == 8.55;
    assert 8.55.Floor == 8;
  }

  /** Ten latencies 10, 20, ..., 100: position 9 * 0.95 = 8.55 lies between
      the 9th and the 10th order statistic, giving 90 + 0.55 * 10. */
  lemma P95OfTenSteps(xs: seq<int>)
    requires xs == [10, 20, 30, 40, 50, 60, 70, 80, 90, 100]
    ensures P95(xs) == 95.5
  {
    TenStepsSorted(xs);
    SortedUnique(Sort(xs), xs);
    TenStepsInterpolation(xs);
    assert P95(xs) == Quantile(xs, P95Level) == QuantileOfSorted(Sort(xs), P95Level);
  }

  lemma TenStepsSorted(xs: seq<int>)
    requires xs == [10, 20, 30, 40, 50, 60, 70, 80, 90, 100]
    ensures Sorted(xs)
  {
    assert forall i :: 0 <= i < |xs| ==> xs[i] == 10 * (i + 1);
  }
}
