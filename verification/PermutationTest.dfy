/**
 The exact branch of the paired sign-flip test, in exact arithmetic: the
 p-value is a count over all 2^n sign vectors.
 */
module PermutationTest {
  import opened Averages
  import opened Counting
  import opened Ordering
  import opened Results

  datatype Alternative = TwoSided | Less | Greater

  datatype TestError = UnequalLengths | TooFewValues

  function Abs(x: real): real { if x < 0.0 then -x else x }

  function Difference(): ((real, real)) -> real { (p: (real, real)) => p.1 - p.0 }

  /** `differences[differences != 0]` */
  function NonZero(d: seq<real>): seq<real> {
    if d == [] then [] else (if d[0] != 0.0 then [d[0]] else []) + NonZero(d[1..])
  }

  // ---------- all sign vectors ----------

  function Prepend(sign: int): seq<int> -> seq<int> { (v: seq<int>) => [sign] + v }

  /** `itertools.product((-1, 1), repeat=n)` */
  function SignVectors(n: nat): seq<seq<int>> {
    if n == 0 then [[]]
    else Map(Prepend(-1), SignVectors(n - 1)) + Map(Prepend(1), SignVectors(n - 1))
  }

  /** A value times its sign, -1 or 1. */
  function Signed(x: real, sign: int): real { if sign < 0 then -x else x }

  /** `nonzero * signs` */
  function Flip(d: seq<real>, signs: seq<int>): seq<real>
    requires |signs| >= |d|
  {
    if d == [] then [] else [Signed(d[0], signs[0])] + Flip(d[1..], signs[1..])
  }

  lemma {:induction false} SignVectorsLength(n: nat)
    ensures forall i | 0 <= i < |SignVectors(n)| :: |SignVectors(n)[i]| == n
    ensures |SignVectors(n)| == Pow2(n)
  {
    if n > 0 {
      SignVectorsLength(n - 1);
    }
  }

  function Pow2(n: nat): (r: nat)
    ensures r >= 1
  {
    if n == 0 then 1 else Pow2(n - 1) + Pow2(n - 1)
  }

  /** The mean of every sign-flipped sample, in enumeration order. */
  function NullStatistics(d: seq<real>): (r: seq<real>)
    requires d != []
    ensures |r| == Pow2(|d|)
  {
    SignVectorsLength(|d|);
    seq(|SignVectors(|d|)|, i requires 0 <= i < |SignVectors(|d|)| =>
      SignVectorsLength(|d|);
      FlipLength(d, SignVectors(|d|)[i]);
      Mean(Flip(d, SignVectors(|d|)[i])))
  }

  lemma {:induction false} FlipLength(d: seq<real>, signs: seq<int>)
    requires |signs| >= |d|
    ensures |Flip(d, signs)| == |d|
  {
    if d != [] {
      FlipLength(d[1..], signs[1..]);
    }
  }

  // ---------- tail counts ----------

  function AtLeast(c: real): real -> bool { (x: real) => x >= c }

  function AtMost(c: real): real -> bool { (x: real) => x <= c }

  function AsExtreme(c: real): real -> bool { (x: real) => Abs(x) >= c }

  function Ratio(count: nat, total: nat): real
    requires total > 0
  {
    count as real / total as real
  }

  /** `_tail_probability` without the add-one adjustment. */
  function TailProbability(nullStatistics: seq<real>, observed: real, alternative: Alternative): real
    requires nullStatistics != []
  {
    var exceedances :=
      match alternative
      case TwoSided => Hits(nullStatistics, AsExtreme(Abs(observed)))
      case Greater => Hits(nullStatistics, AtLeast(observed))
      case Less => Hits(nullStatistics, AtMost(observed));
    Ratio(exceedances, |nullStatistics|)
  }

  /** The sums of all sign-flipped samples on top of `start`, in the order of the vectors. */
  function FlippedSums(d: seq<real>, start: real): seq<real> {
    if d == [] then [start]
    else FlippedSums(d[1..], start - d[0]) + FlippedSums(d[1..], start + d[0])
  }

  lemma {:induction false} FlippedSumsLength(d: seq<real>, start: real)
    ensures |FlippedSums(d, start)| == Pow2(|d|)
  {
    if d != [] {
      FlippedSumsLength(d[1..], start - d[0]);
      FlippedSumsLength(d[1..], start + d[0]);
    }
  }

  /** Sign vectors whose flipped sum is at least c, counted one sign at a time. */
  function Reach(d: seq<real>, c: real): nat {
    if d == [] then (if 0.0 >= c then 1 else 0)
    else Reach(d[1..], c + d[0]) + Reach(d[1..], c - d[0])
  }

  lemma {:induction false} HitsMap<X, Y>(s: seq<X>, f: X -> Y, p: Y -> bool, q: X -> bool)
    requires forall i | 0 <= i < |s| :: p(f(s[i])) == q(s[i])
    ensures Hits(Map(f, s), p) == Hits(s, q)
  {
    if s != [] {
      var n := |s| - 1;
      assert Map(f, s)[..n] == Map(f, s[..n]);
      HitsMap(s[..n], f, p, q);
    }
  }

  /** Sign vectors whose flipped sum, on top of `start`, satisfies p. */
  function SignCount(d: seq<real>, start: real, p: real -> bool): nat {
    if d == [] then (if p(start) then 1 else 0)
    else SignCount(d[1..], start - d[0], p) + SignCount(d[1..], start + d[0], p)
  }

  lemma {:induction false} HitsAreSignCounts(d: seq<real>, start: real, p: real -> bool)
    ensures Hits(FlippedSums(d, start), p) == SignCount(d, start, p)
  {
    if d == [] {
      HitsAppend([], start, p);
      assert [] + [start] == [start];
    } else {
      HitsConcat(FlippedSums(d[1..], start - d[0]), FlippedSums(d[1..], start + d[0]), p);
      HitsAreSignCounts(d[1..], start - d[0], p);
      HitsAreSignCounts(d[1..], start + d[0], p);
    }
  }

  /** The upper tail of the enumeration. */
  lemma {:induction false} UpperTail(d: seq<real>, start: real, c: real, threshold: real)
    requires threshold == c - start
    ensures SignCount(d, start, AtLeast(c)) == Reach(d, threshold)
  {
    if d != [] {
      UpperTail(d[1..], start - d[0], c, threshold + d[0]);
      UpperTail(d[1..], start + d[0], c, threshold - d[0]);
    }
  }

  /** The null distribution is symmetric about zero: the lower tail is the upper tail of the
      mirrored threshold. */
  lemma {:induction false} LowerTail(d: seq<real>, start: real, c: real, threshold: real)
    requires threshold == start - c
    ensures SignCount(d, start, AtMost(c)) == Reach(d, threshold)
  {
    if d != [] {
      LowerTail(d[1..], start - d[0], c, threshold - d[0]);
      LowerTail(d[1..], start + d[0], c, threshold + d[0]);
    }
  }

  /** The sample itself, and its mirror image, are among the flipped samples. */
  lemma {:induction false} ObservedCounts(d: seq<real>, sum: real, mirror: real)
    requires sum == Sum(d) && mirror == -sum
    ensures Reach(d, sum) >= 1 && Reach(d, mirror) >= 1
  {
    if d != [] {
      ObservedCounts(d[1..], sum - d[0], mirror + d[0]);
    }
  }

  lemma {:induction false} SplitExtreme(s: seq<real>, c: real)
    requires c > 0.0
    ensures Hits(s, AsExtreme(c)) == Hits(s, AtLeast(c)) + Hits(s, AtMost(-c))
  {
    if s != [] {
      SplitExtreme(s[..|s| - 1], c);
    }
  }

  lemma {:induction false} EverythingExtreme(s: seq<real>)
    ensures Hits(s, AsExtreme(0.0)) == |s|
  {
    if s != [] {
      EverythingExtreme(s[..|s| - 1]);
    }
  }

  // ---------- means and sums ----------

  /** The sum of the flipped sample on top of `start`, one term at a time. */
  function SignedSum(d: seq<real>, signs: seq<int>, start: real): real {
    if d == [] || signs == [] then start else SignedSum(d[1..], signs[1..], start + Signed(d[0], signs[0]))
  }

  lemma {:induction false} SignedSumIsSum(d: seq<real>, signs: seq<int>, start: real)
    requires |signs| == |d|
    ensures SignedSum(d, signs, start) == start + Sum(Flip(d, signs))
  {
    if d != [] {
      SignedSumIsSum(d[1..], signs[1..], start + Signed(d[0], signs[0]));
      assert Flip(d, signs)[1..] == Flip(d[1..], signs[1..]);
    }
  }

  function SumOver(d: seq<real>, start: real): seq<int> -> real {
    (signs: seq<int>) => SignedSum(d, signs, start)
  }

  /** Fixing the first sign shifts the start. */
  lemma FirstSign(d: seq<real>, start: real, sign: int, shifted: real, vectors: seq<seq<int>>)
    requires d != [] && shifted == start + Signed(d[0], sign)
    ensures Map(SumOver(d, start), Map(Prepend(sign), vectors)) == Map(SumOver(d[1..], shifted), vectors)
  {
    forall i | 0 <= i < |vectors|
      ensures SumOver(d, start)(Prepend(sign)(vectors[i])) == SumOver(d[1..], shifted)(vectors[i])
    {
      assert ([sign] + vectors[i])[1..] == vectors[i];
    }
  }

  lemma BothSigns(d: seq<real>, start: real, vectors: seq<seq<int>>)
    requires d != []
    ensures Map(SumOver(d, start), Map(Prepend(-1), vectors) + Map(Prepend(1), vectors))
            == Map(SumOver(d[1..], start - d[0]), vectors) + Map(SumOver(d[1..], start + d[0]), vectors)
  {
    FirstSign(d, start, -1, start - d[0], vectors);
    FirstSign(d, start, 1, start + d[0], vectors);
    MapSplit(SumOver(d, start), Map(Prepend(-1), vectors), Map(Prepend(1), vectors));
  }

  /** The enumeration of sign vectors gives the flipped sums, in order. */
  lemma {:induction false} EnumerationGivesSums(d: seq<real>, start: real)
    ensures Map(SumOver(d, start), SignVectors(|d|)) == FlippedSums(d, start)
  {
    if d == [] {
      NoSigns(start);
    } else {
      EnumerationGivesSums(d[1..], start - d[0]);
      EnumerationGivesSums(d[1..], start + d[0]);
      OneMoreSign(d, start, FlippedSums(d[1..], start - d[0]), FlippedSums(d[1..], start + d[0]));
    }
  }

  lemma {:induction false} NoSigns(start: real)
    ensures Map(SumOver([], start), SignVectors(0)) == [start] == FlippedSums([], start)
  {
  }

  lemma {:induction false} OneMoreSign(d: seq<real>, start: real, minus: seq<real>, plus: seq<real>)
    requires d != []
    requires Map(SumOver(d[1..], start - d[0]), SignVectors(|d| - 1)) == minus
    requires Map(SumOver(d[1..], start + d[0]), SignVectors(|d| - 1)) == plus
    ensures Map(SumOver(d, start), SignVectors(|d|)) == minus + plus
  {
    BothSigns(d, start, SignVectors(|d| - 1));
  }

  lemma DivideOrder(x: real, y: real, k: real)
    requires k > 0.0
    ensures x >= y ==> x / k >= y / k
    ensures x < y ==> x / k < y / k
  {
    var q, r := x / k, y / k;
    assert q * k == x && r * k == y;
    if q < r {
      assert q * k < r * k;
    } else if q > r {
      assert q * k > r * k;
    }
  }

  lemma DivideAbs(x: real, k: real)
    requires k > 0.0
    ensures Abs(x / k) == Abs(x) / k
  {
    DivideOrder(x, 0.0, k);
    assert 0.0 / k == 0.0;
  }

  lemma DivideCompare(x: real, y: real, n: nat)
    requires n > 0
    ensures x / n as real >= y / n as real <==> x >= y
    ensures Abs(x / n as real) >= Abs(y / n as real) <==> Abs(x) >= Abs(y)
  {
    var k := n as real;
    DivideOrder(x, y, k);
    DivideAbs(x, k);
    DivideAbs(y, k);
    DivideOrder(Abs(x), Abs(y), k);
  }

  /** Sign vectors whose flipped sum is as far from zero as the observed one. */
  function Extremes(d: seq<real>): nat {
    if Sum(d) == 0.0 then Pow2(|d|) else 2 * Reach(d, Abs(Sum(d)))
  }

  lemma {:induction false} ExtremeTails(d: seq<real>)
    ensures Hits(FlippedSums(d, 0.0), AsExtreme(Abs(Sum(d)))) == Extremes(d)
  {
    var c := Abs(Sum(d));
    if Sum(d) == 0.0 {
      FlippedSumsLength(d, 0.0);
      EverythingExtreme(FlippedSums(d, 0.0));
    } else {
      SplitExtreme(FlippedSums(d, 0.0), c);
      HitsAreSignCounts(d, 0.0, AtLeast(c));
      HitsAreSignCounts(d, 0.0, AtMost(-c));
      UpperTail(d, 0.0, c, c);
      LowerTail(d, 0.0, -c, c);
    }
  }

  function Scale(n: nat): real -> real
    requires n > 0
  {
    (x: real) => x / n as real
  }

  lemma {:induction false} StatisticsAreScaledSums(d: seq<real>)
    requires d != []
    ensures NullStatistics(d) == Map(Scale(|d|), FlippedSums(d, 0.0))
  {
    var vectors := SignVectors(|d|);
    SignVectorsLength(|d|);
    EnumerationGivesSums(d, 0.0);
    forall i | 0 <= i < |vectors| ensures NullStatistics(d)[i] == Scale(|d|)(SumOver(d, 0.0)(vectors[i])) {
      SignedSumIsSum(d, vectors[i], 0.0);
      FlipLength(d, vectors[i]);
    }
  }

  /** Comparing means is comparing sums: the tail counts do not see the division. */
  lemma {:induction false} TailCount(d: seq<real>, onMeans: real -> bool, onSums: real -> bool)
    requires d != []
    requires forall x :: onMeans(Scale(|d|)(x)) == onSums(x)
    ensures Hits(NullStatistics(d), onMeans) == SignCount(d, 0.0, onSums)
  {
    StatisticsAreScaledSums(d);
    HitsMap(FlippedSums(d, 0.0), Scale(|d|), onMeans, onSums);
    HitsAreSignCounts(d, 0.0, onSums);
  }

  lemma {:induction false} GreaterCount(d: seq<real>)
    requires d != []
    ensures Hits(NullStatistics(d), AtLeast(Mean(d))) == Reach(d, Sum(d))
  {
    forall x ensures AtLeast(Mean(d))(Scale(|d|)(x)) == AtLeast(Sum(d))(x) {
      DivideCompare(x, Sum(d), |d|);
    }
    TailCount(d, AtLeast(Mean(d)), AtLeast(Sum(d)));
    UpperTail(d, 0.0, Sum(d), Sum(d));
  }

  lemma {:induction false} LessCount(d: seq<real>)
    requires d != []
    ensures Hits(NullStatistics(d), AtMost(Mean(d))) == Reach(d, -Sum(d))
  {
    forall x ensures AtMost(Mean(d))(Scale(|d|)(x)) == AtMost(Sum(d))(x) {
      DivideCompare(Sum(d), x, |d|);
    }
    TailCount(d, AtMost(Mean(d)), AtMost(Sum(d)));
    LowerTail(d, 0.0, Sum(d), -Sum(d));
  }

  lemma {:induction false} TwoSidedCount(d: seq<real>)
    requires d != []
    ensures Hits(NullStatistics(d), AsExtreme(Abs(Mean(d)))) == Extremes(d)
  {
    forall x ensures AsExtreme(Abs(Mean(d)))(Scale(|d|)(x)) == AsExtreme(Abs(Sum(d)))(x) {
      DivideCompare(x, Sum(d), |d|);
    }
    TailCount(d, AsExtreme(Abs(Mean(d))), AsExtreme(Abs(Sum(d))));
    HitsAreSignCounts(d, 0.0, AsExtreme(Abs(Sum(d))));
    ExtremeTails(d);
  }

  // ---------- reordering ----------

  /** Any position may be flipped first. */
  lemma {:induction false} ReachFront(d: seq<real>, i: nat, c: real)
    requires i < |d|
    ensures Reach(d, c) == Reach(d[..i] + d[i + 1..], c + d[i]) + Reach(d[..i] + d[i + 1..], c - d[i])
  {
    if i == 0 {
      assert d[..0] + d[1..] == d[1..];
    } else {
      var tail, rest := d[1..], d[..i] + d[i + 1..];
      assert rest[1..] == tail[..i - 1] + tail[i..];
      ReachFront(tail, i - 1, c + d[0]);
      ReachFront(tail, i - 1, c - d[0]);
    }
  }

  lemma {:induction false} ReachPermutes(a: seq<real>, b: seq<real>, c: real)
    requires multiset(a) == multiset(b)
    ensures Reach(a, c) == Reach(b, c)
  {
    SameElements(a, b);
    if a != [] {
      assert a[0] in b;
      var i :| 0 <= i < |b| && b[i] == a[0];
      SameRest(a, b, i);
      ReachFront(a, 0, c);
      ReachFront(b, i, c);
      ReachPermutes(a[..0] + a[1..], b[..i] + b[i + 1..], c + a[0]);
      ReachPermutes(a[..0] + a[1..], b[..i] + b[i + 1..], c - a[0]);
    }
  }

  lemma {:induction false} SumFront(d: seq<real>, i: nat)
    requires i < |d|
    ensures Sum(d) == d[i] + Sum(d[..i] + d[i + 1..])
  {
    if i == 0 {
      assert d[..0] + d[1..] == d[1..];
    } else {
      SumFront(d[1..], i - 1);
      var rest := d[..i] + d[i + 1..];
      assert rest[1..] == d[1..][..i - 1] + d[1..][i..];
    }
  }

  lemma {:induction false} SumPermutes(a: seq<real>, b: seq<real>)
    requires multiset(a) == multiset(b)
    ensures Sum(a) == Sum(b)
  {
    SameElements(a, b);
    if a != [] {
      assert a[0] in b;
      var i :| 0 <= i < |b| && b[i] == a[0];
      SameRest(a, b, i);
      SumFront(a, 0);
      SumFront(b, i);
      SumPermutes(a[..0] + a[1..], b[..i] + b[i + 1..]);
    }
  }

  lemma {:induction false} NonZeroCounts(d: seq<real>, x: real)
    ensures multiset(NonZero(d))[x] == if x == 0.0 then 0 else multiset(d)[x]
  {
    if d != [] {
      NonZeroCounts(d[1..], x);
      assert d == [d[0]] + d[1..];
    }
  }

  lemma {:induction false} NonZeroPermutes(a: seq<real>, b: seq<real>)
    requires multiset(a) == multiset(b)
    ensures multiset(NonZero(a)) == multiset(NonZero(b))
  {
    forall x ensures multiset(NonZero(a))[x] == multiset(NonZero(b))[x] {
      NonZeroCounts(a, x);
      NonZeroCounts(b, x);
    }
  }

  // ---------- the test ----------

  /** The p-value of a sample without zero differences. */
  function ExactP(d: seq<real>, alternative: Alternative): real
    requires d != []
  {
    assert |NullStatistics(d)| == Pow2(|d|);
    TailProbability(NullStatistics(d), Mean(d), alternative)
  }

  datatype TestResult = TestResult(observed: real, pValue: real, recordCount: nat, usedCount: nat)

  function Differences(left: seq<real>, right: seq<real>): seq<real>
    requires |left| == |right|
  {
    Map(Difference(), Pairs(left, right))
  }

  function Pairs(left: seq<real>, right: seq<real>): seq<(real, real)>
    requires |left| == |right|
  {
    seq(|left|, i requires 0 <= i < |left| => (left[i], right[i]))
  }

  /** `permutation_test` through its exact branch. */
  function Test(left: seq<real>, right: seq<real>, alternative: Alternative): Result<TestResult, TestError> {
    if |left| != |right| then Err(UnequalLengths)
    else if |left| < 1 then Err(TooFewValues)
    else
      var nonzero := NonZero(Differences(left, right));
      if nonzero == [] then Ok(TestResult(0.0, 1.0, |left|, 0))
      else Ok(TestResult(Mean(nonzero), ExactP(nonzero, alternative), |left|, |nonzero|))
  }

  lemma {:induction false} MeanSign(d: seq<real>)
    requires d != []
    ensures Mean(d) > 0.0 <==> Sum(d) > 0.0
    ensures Mean(d) < 0.0 <==> Sum(d) < 0.0
  {
    DivideCompare(Sum(d), 0.0, |d|);
    DivideCompare(0.0, Sum(d), |d|);
    assert 0.0 / |d| as real == 0.0;
  }

  lemma Quotients(one: real, two: real, count: nat, total: nat)
    requires total > 0 && count >= 1
    requires one == Ratio(count, total) && two == Ratio(2 * count, total)
    ensures two == 2.0 * one
    ensures two >= Ratio(2, total)
  {
    var t := total as real;
    assert one * t == count as real;
    assert (2.0 * one) * t == (2 * count) as real;
    DivideOrder((2 * count) as real, 2.0, t);
  }

  /** The exact p-values as counts over all sign vectors. */
  lemma {:induction false} TwoSidedValue(d: seq<real>)
    requires d != []
    ensures ExactP(d, TwoSided) == Ratio(Extremes(d), Pow2(|d|))
  {
    TwoSidedCount(d);
  }

  lemma {:induction false} OneSidedValue(d: seq<real>, alternative: Alternative)
    requires d != [] && alternative != TwoSided
    ensures ExactP(d, alternative) == Ratio(Reach(d, if alternative == Greater then Sum(d) else -Sum(d)), Pow2(|d|))
  {
    if alternative == Greater {
      GreaterCount(d);
    } else {
      LessCount(d);
    }
  }

  lemma {:induction false} LessValue(d: seq<real>, mirror: real)
    requires d != [] && mirror == -Sum(d)
    ensures ExactP(d, Less) == Ratio(Reach(d, mirror), Pow2(|d|))
  {
    OneSidedValue(d, Less);
  }

  lemma {:induction false} BalancedSample(d: seq<real>)
    requires d != [] && Sum(d) == 0.0
    ensures ExactP(d, TwoSided) == 1.0 >= Ratio(2, Pow2(|d|))
  {
    TwoSidedValue(d);
    WholeQuotient(Pow2(|d|));
  }

  lemma {:induction false} RightwardSample(d: seq<real>)
    requires d != [] && Sum(d) > 0.0
    ensures ExactP(d, TwoSided) == 2.0 * ExactP(d, Greater)
    ensures ExactP(d, TwoSided) >= Ratio(2, Pow2(|d|))
  {
    TwoSidedValue(d);
    OneSidedValue(d, Greater);
    ObservedIsCounted(d);
    Quotients(ExactP(d, Greater), ExactP(d, TwoSided), Reach(d, Abs(Sum(d))), Pow2(|d|));
  }

  lemma {:induction false} LeftwardSample(d: seq<real>)
    requires d != [] && Sum(d) < 0.0
    ensures ExactP(d, TwoSided) == 2.0 * ExactP(d, Less)
    ensures ExactP(d, TwoSided) >= Ratio(2, Pow2(|d|))
  {
    TwoSidedValue(d);
    LessValue(d, Abs(Sum(d)));
    ObservedIsCounted(d);
    Quotients(ExactP(d, Less), ExactP(d, TwoSided), Reach(d, Abs(Sum(d))), Pow2(|d|));
  }

  lemma {:induction false} ObservedIsCounted(d: seq<real>)
    ensures Reach(d, Abs(Sum(d))) >= 1
  {
    ObservedCounts(d, Sum(d), -Sum(d));
  }

  lemma WholeQuotient(total: nat)
    requires total >= 2
    ensures Ratio(total, total) == 1.0 >= Ratio(2, total)
  {
    DivideOrder(total as real, 2.0, total as real);
  }

  /** A two-sided p-value is 1 when the observed mean is zero, and otherwise exactly twice
      the one-sided p-value in the observed direction, so never below 2 / 2^n. */
  lemma TwoSidedIsDouble(left: seq<real>, right: seq<real>)
    requires |left| == |right| > 0
    ensures Test(left, right, TwoSided).Ok?
    ensures var r := Test(left, right, TwoSided).value;
      && (r.observed == 0.0 ==> r.pValue == 1.0)
      && (r.observed > 0.0 ==> r.pValue == 2.0 * Test(left, right, Greater).value.pValue)
      && (r.observed < 0.0 ==> r.pValue == 2.0 * Test(left, right, Less).value.pValue)
      && (r.usedCount > 0 ==> r.pValue >= Ratio(2, Pow2(r.usedCount)))
  {
    var nonzero := NonZero(Differences(left, right));
    if nonzero != [] {
      MeanSign(nonzero);
      if Sum(nonzero) == 0.0 {
        BalancedSample(nonzero);
      } else if Sum(nonzero) > 0.0 {
        RightwardSample(nonzero);
      } else {
        LeftwardSample(nonzero);
      }
    }
  }

  lemma ExactPermutes(a: seq<real>, b: seq<real>, alternative: Alternative)
    requires a != [] && multiset(a) == multiset(b)
    ensures b != [] && Mean(a) == Mean(b) && ExactP(a, alternative) == ExactP(b, alternative)
  {
    SameElements(a, b);
    SumPermutes(a, b);
    if alternative == TwoSided {
      TwoSidedValue(a);
      TwoSidedValue(b);
      ReachPermutes(a, b, Abs(Sum(a)));
    } else {
      OneSidedValue(a, alternative);
      OneSidedValue(b, alternative);
      ReachPermutes(a, b, if alternative == Greater then Sum(a) else -Sum(a));
    }
  }

  /** Reordering the pairs changes nothing in the result. */
  lemma PairOrderIrrelevant(left: seq<real>, right: seq<real>, left': seq<real>, right': seq<real>,
                            alternative: Alternative)
    requires |left| == |right| && |left'| == |right'|
    requires multiset(Pairs(left, right)) == multiset(Pairs(left', right'))
    ensures Test(left, right, alternative) == Test(left', right', alternative)
  {
    SameElements(Pairs(left, right), Pairs(left', right'));
    MapPermutes(Difference(), Pairs(left, right), Pairs(left', right'));
    var a, b := NonZero(Differences(left, right)), NonZero(Differences(left', right'));
    NonZeroPermutes(Differences(left, right), Differences(left', right'));
    SameElements(a, b);
    if a != [] {
      ExactPermutes(a, b, alternative);
    }
  }

  // ---------- direction ----------

  ghost predicate AllPositive(d: seq<real>) { forall i | 0 <= i < |d| :: d[i] > 0.0 }

  lemma {:induction false} NothingBeyondSum(d: seq<real>, c: real)
    requires AllPositive(d) && c > Sum(d)
    ensures Reach(d, c) == 0
  {
    if d != [] {
      NothingBeyondSum(d[1..], c + d[0]);
      NothingBeyondSum(d[1..], c - d[0]);
    }
  }

  lemma {:induction false} OnlyItself(d: seq<real>, sum: real)
    requires AllPositive(d) && sum == Sum(d)
    ensures Reach(d, sum) == 1
  {
    if d != [] {
      OnlyItself(d[1..], sum - d[0]);
      NothingBeyondSum(d[1..], sum + d[0]);
    }
  }

  lemma {:induction false} PositivesKept(d: seq<real>)
    requires AllPositive(d)
    ensures NonZero(d) == d
    ensures d != [] ==> Sum(d) > 0.0
  {
    if d != [] {
      PositivesKept(d[1..]);
    }
  }

  /** When the right value is larger in every pair, the observed mean is positive and the test for
      "greater" gives the least value possible, one sign vector in 2^n. */
  lemma {:induction false} UnanimousIncrease(left: seq<real>, right: seq<real>)
    requires |left| == |right| > 0 && forall i | 0 <= i < |left| :: left[i] < right[i]
    ensures var r := Test(left, right, Greater);
      r.Ok? && r.value.observed > 0.0 && r.value.usedCount == |left| && r.value.pValue == Ratio(1, Pow2(|left|))
  {
    var d := Differences(left, right);
    PositivesKept(d);
    MeanSign(d);
    OnlyItself(d, Sum(d));
    OneSidedValue(d, Greater);
  }

  // ---------- what the p-value is a share of ----------

  ghost predicate IsSignVector(v: seq<int>, n: nat) { |v| == n && forall i | 0 <= i < n :: v[i] == 1 || v[i] == -1 }

  /** The enumeration has every vector of signs, each exactly once. */
  lemma {:induction false} EveryFlipOnce(n: nat)
    ensures forall v :: v in SignVectors(n) <==> IsSignVector(v, n)
    ensures Distinct(SignVectors(n))
  {
    forall v ensures v in SignVectors(n) <==> IsSignVector(v, n) {
      FlipOccurs(n, v);
    }
    FlipsDistinct(n);
  }

  lemma {:induction false} FlipOccurs(n: nat, v: seq<int>)
    ensures v in SignVectors(n) <==> IsSignVector(v, n)
  {
    if n > 0 {
      var minus, plus := Map(Prepend(-1), SignVectors(n - 1)), Map(Prepend(1), SignVectors(n - 1));
      PrependedIn(-1, SignVectors(n - 1), v);
      PrependedIn(1, SignVectors(n - 1), v);
      assert v in SignVectors(n) <==> v in minus || v in plus;
      if v != [] {
        FlipOccurs(n - 1, v[1..]);
        assert IsSignVector(v, n) <==> (v[0] == 1 || v[0] == -1) && IsSignVector(v[1..], n - 1) by {
          if IsSignVector(v[1..], n - 1) {
            assert forall i | 1 <= i < |v| :: v[i] == v[1..][i - 1];
          }
        }
      }
    }
  }

  lemma PrependedIn(sign: int, vectors: seq<seq<int>>, v: seq<int>)
    ensures v in Map(Prepend(sign), vectors) <==> v != [] && v[0] == sign && v[1..] in vectors
  {
    var all := Map(Prepend(sign), vectors);
    if v in all {
      var i :| 0 <= i < |vectors| && all[i] == v;
      assert v == [sign] + vectors[i];
    }
    if v != [] && v[0] == sign && v[1..] in vectors {
      var i :| 0 <= i < |vectors| && vectors[i] == v[1..];
      assert all[i] == [sign] + v[1..] == v;
    }
  }

  lemma {:induction false} FlipsDistinct(n: nat)
    ensures Distinct(SignVectors(n))
  {
    if n > 0 {
      var shorter := SignVectors(n - 1);
      FlipsDistinct(n - 1);
      DistinctFlips(shorter, Map(Prepend(-1), shorter), Map(Prepend(1), shorter));
    }
  }

  lemma DistinctFlips(shorter: seq<seq<int>>, minus: seq<seq<int>>, plus: seq<seq<int>>)
    requires Distinct(shorter) && minus == Map(Prepend(-1), shorter) && plus == Map(Prepend(1), shorter)
    ensures Distinct(minus + plus)
  {
    var all := minus + plus;
    forall i, j | 0 <= i < j < |all| ensures all[i] != all[j] {
      var x := shorter[if i < |shorter| then i else i - |shorter|];
      var y := shorter[if j < |shorter| then j else j - |shorter|];
      assert all[i][0] == (if i < |shorter| then -1 else 1) && all[i][1..] == x;
      assert all[j][0] == (if j < |shorter| then -1 else 1) && all[j][1..] == y;
    }
  }

  lemma {:induction false} FlipAt(d: seq<real>, v: seq<int>, i: nat)
    requires IsSignVector(v, |d|) && i < |d|
    ensures |Flip(d, v)| == |d| && Flip(d, v)[i] == v[i] as real * d[i]
  {
    FlipLength(d, v);
    if i > 0 {
      assert IsSignVector(v[1..], |d| - 1);
      FlipAt(d[1..], v[1..], i - 1);
    }
  }

  /** Flipping the differences by these signs gives a sum as extreme as the observed one. */
  function AsExtremeFlip(d: seq<real>, alternative: Alternative): seq<int> -> bool {
    (v: seq<int>) =>
      |v| == |d| &&
      match alternative
      case Greater => Sum(Flip(d, v)) >= Sum(d)
      case Less => Sum(Flip(d, v)) <= Sum(d)
      case TwoSided => Abs(Sum(Flip(d, v))) >= Abs(Sum(d))
  }

  lemma {:induction false} FlipsCounted(d: seq<real>, onMeans: real -> bool, onSums: real -> bool,
                                        onFlips: seq<int> -> bool)
    requires d != []
    requires forall x :: onMeans(Scale(|d|)(x)) == onSums(x)
    requires forall v: seq<int> | |v| == |d| :: onFlips(v) == onSums(Sum(Flip(d, v)))
    ensures Hits(NullStatistics(d), onMeans) == Hits(SignVectors(|d|), onFlips)
  {
    TailCount(d, onMeans, onSums);
    VectorsCounted(d, onSums, onFlips);
  }

  lemma {:induction false} VectorsCounted(d: seq<real>, onSums: real -> bool, onFlips: seq<int> -> bool)
    requires forall v: seq<int> | |v| == |d| :: onFlips(v) == onSums(Sum(Flip(d, v)))
    ensures Hits(SignVectors(|d|), onFlips) == SignCount(d, 0.0, onSums)
  {
    var vectors := SignVectors(|d|);
    EnumerationGivesSums(d, 0.0);
    SignVectorsLength(|d|);
    forall i | 0 <= i < |vectors| ensures onSums(SumOver(d, 0.0)(vectors[i])) == onFlips(vectors[i]) {
      SignedSumIsSum(d, vectors[i], 0.0);
    }
    HitsMap(vectors, SumOver(d, 0.0), onSums, onFlips);
    HitsAreSignCounts(d, 0.0, onSums);
  }

  lemma {:induction false} ShareOfFlips(d: seq<real>, alternative: Alternative)
    requires d != []
    ensures ExactP(d, alternative) == Ratio(Hits(SignVectors(|d|), AsExtremeFlip(d, alternative)), Pow2(|d|))
  {
    var flips := AsExtremeFlip(d, alternative);
    match alternative
    case Greater =>
      forall x ensures AtLeast(Mean(d))(Scale(|d|)(x)) == AtLeast(Sum(d))(x) {
        DivideCompare(x, Sum(d), |d|);
      }
      FlipsCounted(d, AtLeast(Mean(d)), AtLeast(Sum(d)), flips);
    case Less =>
      forall x ensures AtMost(Mean(d))(Scale(|d|)(x)) == AtMost(Sum(d))(x) {
        DivideCompare(Sum(d), x, |d|);
      }
      FlipsCounted(d, AtMost(Mean(d)), AtMost(Sum(d)), flips);
    case TwoSided =>
      forall x ensures AsExtreme(Abs(Mean(d)))(Scale(|d|)(x)) == AsExtreme(Abs(Sum(d)))(x) {
        DivideCompare(x, Sum(d), |d|);
      }
      FlipsCounted(d, AsExtreme(Abs(Mean(d))), AsExtreme(Abs(Sum(d))), flips);
  }

  lemma {:induction false} NonZeroSum(d: seq<real>)
    ensures Sum(NonZero(d)) == Sum(d)
    ensures |NonZero(d)| == Hits(d, Differs())
  {
    if d != [] {
      var rest := NonZero(d[1..]);
      NonZeroSum(d[1..]);
      assert d == [d[0]] + d[1..];
      HitsConcat([d[0]], d[1..], Differs());
      HitsAppend([], d[0], Differs());
      assert [] + [d[0]] == [d[0]];
      if d[0] != 0.0 {
        assert NonZero(d) == [d[0]] + rest && ([d[0]] + rest)[1..] == rest;
      } else {
        assert NonZero(d) == [] + rest == rest;
      }
    }
  }

  function Differs(): real -> bool { (x: real) => x != 0.0 }

  /** The observed value is the mean over the pairs that differ, whose differences sum to those of all. */
  lemma ObservedIsMeanDifference(left: seq<real>, right: seq<real>, alternative: Alternative)
    requires |left| == |right| > 0
    ensures Test(left, right, alternative).Ok?
    ensures var d, r := Differences(left, right), Test(left, right, alternative).value;
      && (forall i | 0 <= i < |left| :: d[i] == right[i] - left[i])
      && r.recordCount == |left| && r.usedCount == Hits(d, Differs())
      && |NonZero(d)| == r.usedCount && Sum(NonZero(d)) == Sum(d)
      && (if r.usedCount == 0 then r.observed == 0.0 && r.pValue == 1.0 else IsMean(r.observed, NonZero(d)))
  {
    var nonzero := NonZero(Differences(left, right));
    NonZeroSum(Differences(left, right));
    if nonzero != [] {
      MeanTimesLength(nonzero);
    }
  }

  /** The p-value is the share of all 2^n ways to flip the differing pairs whose sum is as extreme as the
      observed one, in the direction asked for. */
  lemma PValueIsShareOfFlips(left: seq<real>, right: seq<real>, alternative: Alternative)
    requires |left| == |right| > 0 && Test(left, right, alternative).value.usedCount > 0
    ensures var d, r := NonZero(Differences(left, right)), Test(left, right, alternative).value;
      && |d| == r.usedCount && |SignVectors(r.usedCount)| == Pow2(r.usedCount)
      && r.pValue == Ratio(Hits(SignVectors(r.usedCount), AsExtremeFlip(d, alternative)), Pow2(r.usedCount))
  {
    ShareOfFlips(NonZero(Differences(left, right)), alternative);
    SignVectorsLength(|NonZero(Differences(left, right))|);
  }

  /** Exactly the lengths are checked. */
  lemma TestFailsExactly(left: seq<real>, right: seq<real>, alternative: Alternative)
    ensures Test(left, right, alternative) == Err(UnequalLengths) <==> |left| != |right|
    ensures Test(left, right, alternative) == Err(TooFewValues) <==> left == [] && right == []
  {
  }
}
