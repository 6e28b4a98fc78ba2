/**
 * The summary statistics both scripts compute over lists of timings:
 * `sum(v) / len(v)`, `min`, `max`, the population variance of
 * `calculate_statistics`, and `statistics.mean`, `statistics.median` and
 * the sample variance behind `statistics.stdev`. Square roots are left
 * abstract: a standard deviation is represented by its variance.
 */
module Stats {
  import opened Ordering

  function Sum(s: seq<real>): real
  {
    if s == [] then 0.0 else s[0] + Sum(s[1..])
  }

  function Mean(s: seq<real>): real
    requires s != []
  {
    Sum(s) / (|s| as real)
  }

  /** Python's `min`: an element of the list that no element is below. */
  function Min(s: seq<real>): (m: real)
    requires s != []
    ensures m in s
    ensures forall x :: x in s ==> m <= x
  {
    if |s| == 1 then s[0]
    else
      var rest := Min(s[1..]);
      assert forall x :: x in s ==> x == s[0] || x in s[1..];
      if s[0] <= rest then s[0] else rest
  }

  /** Python's `max`: an element of the list that no element is above. */
  function Max(s: seq<real>): (m: real)
    requires s != []
    ensures m in s
    ensures forall x :: x in s ==> x <= m
  {
    if |s| == 1 then s[0]
    else
      var rest := Max(s[1..]);
      assert forall x :: x in s ==> x == s[0] || x in s[1..];
      if s[0] >= rest then s[0] else rest
  }

  /** The sum of squared deviations from `c`. */
  function SumSquaredDeviations(s: seq<real>, c: real): real
  {
    if s == [] then 0.0 else (s[0] - c) * (s[0] - c) + SumSquaredDeviations(s[1..], c)
  }

  /** `sum((x - mean) ** 2 for x in values) / len(values)`. */
  function PopulationVariance(s: seq<real>): real
    requires s != []
  {
    SumSquaredDeviations(s, Mean(s)) / (|s| as real)
  }

  /** The variance `statistics.stdev` takes the root of: divided by n - 1. */
  function SampleVariance(s: seq<real>): real
    requires |s| >= 2
  {
    SumSquaredDeviations(s, Mean(s)) / ((|s| - 1) as real)
  }

  predicate RealLe(a: real, b: real)
  {
    a <= b
  }

  /** `statistics.median`: the middle of the sorted data, or the mean of the two middle values. */
  function Median(s: seq<real>): real
    requires s != []
  {
    var t := SortBy(s, RealLe);
    var n := |t|;
    if n % 2 == 1 then t[n / 2] else (t[n / 2 - 1] + t[n / 2]) / 2.0
  }

  lemma {:induction false} SumBounds(s: seq<real>, lo: real, hi: real)
    requires forall x :: x in s ==> lo <= x <= hi
    ensures (|s| as real) * lo <= Sum(s) <= (|s| as real) * hi
  {
    if s != [] {
      assert s[0] in s;
      assert forall x :: x in s[1..] ==> x in s;
      SumBounds(s[1..], lo, hi);
      assert (|s| as real) * lo == lo + (|s[1..]| as real) * lo;
      assert (|s| as real) * hi == hi + (|s[1..]| as real) * hi;
    }
  }

  lemma DivisionBounds(a: real, n: real, lo: real, hi: real)
    requires n > 0.0 && n * lo <= a <= n * hi
    ensures lo <= a / n <= hi
  {
  }

  /** The mean lies between the smallest and the largest value. */
  lemma MeanWithinRange(s: seq<real>)
    requires s != []
    ensures Min(s) <= Mean(s) <= Max(s)
  {
    SumBounds(s, Min(s), Max(s));
    DivisionBounds(Sum(s), |s| as real, Min(s), Max(s));
  }

  lemma {:induction false} SumSquaredDeviationsNonNegative(s: seq<real>, c: real)
    ensures SumSquaredDeviations(s, c) >= 0.0
  {
    if s != [] {
      SumSquaredDeviationsNonNegative(s[1..], c);
      var d := s[0] - c;
      assert d * d >= 0.0;
    }
  }

  /** Both variances are non-negative, so their square roots exist. */
  lemma VariancesNonNegative(s: seq<real>)
    requires s != []
    ensures PopulationVariance(s) >= 0.0
    ensures |s| >= 2 ==> SampleVariance(s) >= 0.0
  {
    SumSquaredDeviationsNonNegative(s, Mean(s));
  }

  /** All values equal: the mean is that value and the variance is zero. */
  lemma {:induction false} ConstantData(s: seq<real>, v: real)
    requires s != [] && forall x :: x in s ==> x == v
    ensures Mean(s) == v && PopulationVariance(s) == 0.0
  {
    SumBounds(s, v, v);
    DivisionBounds(Sum(s), |s| as real, v, v);
    ZeroDeviations(s, v);
  }

  lemma {:induction false} ZeroDeviations(s: seq<real>, v: real)
    requires forall x :: x in s ==> x == v
    ensures SumSquaredDeviations(s, v) == 0.0
  {
    if s != [] {
      assert s[0] in s;
      assert forall x :: x in s[1..] ==> x in s;
      ZeroDeviations(s[1..], v);
    }
  }

  /** The median lies between the smallest and the largest value. */
  lemma MedianWithinRange(s: seq<real>)
    requires s != []
    ensures Min(s) <= Median(s) <= Max(s)
  {
    var t := SortBy(s, RealLe);
    var n := |t|;
    var lo, hi := Min(s), Max(s);
    assert t[n / 2] in multiset(s);
    assert t[n / 2] in s;
    if n % 2 == 0 {
      assert t[n / 2 - 1] in multiset(s);
      assert t[n / 2 - 1] in s;
    }
  }

  /** The median is the middle element of the sorted data. */
  lemma MedianIsMiddle(s: seq<real>)
    requires s != []
    ensures var t := SortBy(s, RealLe);
      SortedBy(t, RealLe) && multiset(t) == multiset(s) &&
      (|s| % 2 == 1 ==> Median(s) == t[|s| / 2])
  {
    assert IsTotalPreorder(RealLe);
    SortBySorted(s, RealLe);
  }
}
