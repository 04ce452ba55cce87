/** The mean and the median of real numbers, as Python's `statistics` gives them. */
module Averages {
  import opened Counting
  import opened Ordering

  predicate RealLeq(a: real, b: real) { a <= b }

  function Sum(s: seq<real>): real { if s == [] then 0.0 else s[0] + Sum(s[1..]) }

  /** `statistics.fmean` */
  function Mean(s: seq<real>): real
    requires s != []
  {
    Sum(s) / |s| as real
  }

  /** `statistics.median` */
  function Median(s: seq<real>): real
    requires s != []
  {
    var sorted, n := Sort(RealLeq, s), |s|;
    SortPermutes(RealLeq, s);
    if n % 2 == 1 then sorted[n / 2] else (sorted[n / 2 - 1] + sorted[n / 2]) / 2.0
  }

  ghost predicate Within(s: seq<real>, lo: real, hi: real) { forall x | x in s :: lo <= x <= hi }

  /** k times x. */
  function Times(k: nat, x: real): real {
    if k == 0 then 0.0 else Times(k - 1, x) + x
  }

  lemma {:induction false} TimesIsProduct(k: nat, x: real)
    ensures Times(k, x) == k as real * x
  {
    if k > 0 {
      TimesIsProduct(k - 1, x);
      assert k as real * x == (k - 1) as real * x + x;
    }
  }

  lemma {:induction false} SumWithin(s: seq<real>, lo: real, hi: real)
    requires Within(s, lo, hi)
    ensures Times(|s|, lo) <= Sum(s) <= Times(|s|, hi)
  {
    if s != [] {
      assert forall x | x in s[1..] :: x in s;
      assert s[0] in s;
      SumWithin(s[1..], lo, hi);
    }
  }

  lemma Scaled(x: real, y: real, n: real)
    requires n > 0.0 && x < y
    ensures x * n < y * n
  {
  }

  /** A share of n, and how it compares with one half and with the whole. */
  lemma Share(rate: real, a: real, n: real)
    requires 0.0 <= a <= n && n > 0.0 && rate * n == a
    ensures 0.0 <= rate <= 1.0
    ensures (rate > 0.5 <==> a > n - a) && (rate == 0.5 <==> a == n - a) && (rate == 1.0 <==> a == n)
  {
    if rate < 0.0 {
      Scaled(rate, 0.0, n);
    } else if rate > 1.0 {
      Scaled(1.0, rate, n);
    } else {
      ShareOfHalf(rate, a, n);
      if rate < 1.0 {
        Scaled(rate, 1.0, n);
      }
    }
  }

  lemma ShareOfHalf(rate: real, a: real, n: real)
    requires n > 0.0 && rate * n == a
    ensures (rate > 0.5 <==> a > n - a) && (rate == 0.5 <==> a == n - a)
  {
    if rate < 0.5 {
      Scaled(rate, 0.5, n);
    } else if rate > 0.5 {
      Scaled(0.5, rate, n);
    }
  }

  /** m times the number of values is their sum. */
  ghost predicate IsMean(m: real, values: seq<real>) { Scale(m, |values|) == Sum(values) }

  function Scale(x: real, n: nat): real { x * n as real }

  lemma {:induction false} MeanTimesLength(s: seq<real>)
    requires s != []
    ensures Mean(s) * |s| as real == Sum(s) && IsMean(Mean(s), s)
  {
  }

  lemma MeanWithin(s: seq<real>, lo: real, hi: real)
    requires s != [] && Within(s, lo, hi)
    ensures lo <= Mean(s) <= hi
  {
    SumWithin(s, lo, hi);
    TimesIsProduct(|s|, lo);
    TimesIsProduct(|s|, hi);
    MeanTimesLength(s);
    Quotient(Mean(s), Sum(s), |s| as real, lo, hi);
  }

  lemma Quotient(mean: real, sum: real, n: real, lo: real, hi: real)
    requires n > 0.0 && mean * n == sum && n * lo <= sum <= n * hi
    ensures lo <= mean <= hi
  {
    if mean < lo {
      Scaled(mean, lo, n);
    } else if mean > hi {
      Scaled(hi, mean, n);
    }
  }

  lemma {:induction false} RealOrder(s: seq<real>)
    ensures SortedBy(RealLeq, Sort(RealLeq, s)) && |Sort(RealLeq, s)| == |s|
    ensures multiset(Sort(RealLeq, s)) == multiset(s)
    ensures forall x :: x in Sort(RealLeq, s) <==> x in s
  {
    SortSorts(RealLeq, s);
    SortPermutes(RealLeq, s);
  }

  lemma MedianWithin(s: seq<real>, lo: real, hi: real)
    requires s != [] && Within(s, lo, hi)
    ensures lo <= Median(s) <= hi
  {
    RealOrder(s);
    var sorted := Sort(RealLeq, s);
    assert forall i | 0 <= i < |sorted| :: sorted[i] in sorted;
  }

  /** The values in ascending order. */
  ghost predicate Arranges(t: seq<real>, values: seq<real>) {
    multiset(t) == multiset(values) && forall i, j | 0 <= i < j < |t| :: t[i] <= t[j]
  }

  /** The mean of the two middle values in ascending order, which are one and the same for an odd number. */
  ghost predicate IsMedian(m: real, values: seq<real>) {
    forall t: seq<real> | Arranges(t, values) && t != [] :: 2.0 * m == t[(|t| - 1) / 2] + t[|t| / 2]
  }

  lemma MedianIsMiddle(s: seq<real>)
    requires s != []
    ensures IsMedian(Median(s), s)
  {
    forall t: seq<real> | Arranges(t, s) && t != [] ensures 2.0 * Median(s) == t[(|t| - 1) / 2] + t[|t| / 2] {
      MiddleOf(s, t);
    }
  }

  lemma MiddleOf(s: seq<real>, t: seq<real>)
    requires s != [] && Arranges(t, s) && t != []
    ensures 2.0 * Median(s) == t[(|t| - 1) / 2] + t[|t| / 2]
  {
    ArrangedIsSorted(s, t);
  }

  lemma {:induction false} ArrangedIsSorted(s: seq<real>, t: seq<real>)
    requires Arranges(t, s)
    ensures t == Sort(RealLeq, s) && |t| == |s|
  {
    SortSorts(RealLeq, s);
    SortedUnique(RealLeq, Sort(RealLeq, s), t);
    SameElements(t, s);
  }
}
