/**
 Holm, Benjamini-Hochberg and Bonferroni adjustment in exact arithmetic. The
 running maximum and minimum are proved against the textbook procedures: an
 adjusted value is at most alpha exactly when the procedure at level alpha
 rejects that hypothesis.
 */
module Multiplicity {
  import opened Results
  import opened Ordering

  datatype AdjustError = EmptyFamily | PValueOutOfRange | UnknownMethod

  type Family = seq<(string, real)>

  ghost predicate DistinctKeys(family: Family) {
    forall i, j | 0 <= i < j < |family| :: family[i].0 != family[j].0
  }

  predicate InRange(family: Family) {
    forall i | 0 <= i < |family| :: 0.0 <= family[i].1 <= 1.0
  }

  /** Ascending p-value, ties by key. */
  predicate PairLeq(a: (string, real), b: (string, real)) {
    a.1 < b.1 || (a.1 == b.1 && StringLeq(a.0, b.0))
  }

  function Values(family: Family): (r: seq<real>)
    ensures |r| == |family| && forall i | 0 <= i < |r| :: r[i] == family[i].1
  {
    seq(|family|, i requires 0 <= i < |family| => family[i].1)
  }

  function Min(x: real, y: real): real { if x <= y then x else y }
  function Max(x: real, y: real): real { if x >= y then x else y }

  function Times(p: real, k: int): real { p * k as real }

  /** Holm's running maximum at index i of the ascending p-values. */
  function Holm(ps: seq<real>, i: nat): real
    requires i < |ps|
  {
    Max(if i == 0 then 0.0 else Holm(ps, i - 1), Min(1.0, Times(ps[i], |ps| - i)))
  }

  /** `value * count / rank` */
  function BhTerm(ps: seq<real>, i: nat): real
    requires i < |ps|
  {
    Times(ps[i], |ps|) / (i + 1) as real
  }

  /** Benjamini-Hochberg's running minimum, from the largest p-value down. */
  function Bh(ps: seq<real>, i: nat): real
    requires i < |ps|
    decreases |ps| - i
  {
    Min(if i == |ps| - 1 then 1.0 else Bh(ps, i + 1), BhTerm(ps, i))
  }

  function Bonferroni(ps: seq<real>, i: nat): real
    requires i < |ps|
  {
    Min(1.0, Times(ps[i], |ps|))
  }

  ghost predicate Ascending(ps: seq<real>) {
    && (forall i, j | 0 <= i <= j < |ps| :: ps[i] <= ps[j])
    && (forall i | 0 <= i < |ps| :: 0.0 <= ps[i] <= 1.0)
  }

  // ---------- the textbook procedures ----------

  /** Step-down: hypothesis i is rejected when it and every smaller p-value pass alpha / (n - j). */
  ghost predicate HolmRejects(ps: seq<real>, alpha: real, i: nat)
    requires i < |ps|
  {
    forall j | 0 <= j <= i :: ps[j] <= alpha / (|ps| - j) as real
  }

  ghost predicate BhPasses(ps: seq<real>, alpha: real, j: nat)
    requires j < |ps|
  {
    ps[j] <= alpha * (j + 1) as real / |ps| as real
  }

  /** Step-up: hypothesis i is rejected when some p-value at or above it passes alpha * rank / n. */
  ghost predicate BhRejects(ps: seq<real>, alpha: real, i: nat)
    requires i < |ps|
  {
    exists j :: i <= j < |ps| && BhPasses(ps, alpha, j)
  }

  lemma DivideOut(p: real, k: int, alpha: real)
    requires k > 0
    ensures Times(p, k) <= alpha <==> p <= alpha / k as real
  {
    var x := k as real;
    assert x > 0.0;
    if p <= alpha / x {
      assert p * x <= (alpha / x) * x == alpha;
    } else {
      assert p * x > (alpha / x) * x == alpha;
    }
  }

  lemma CrossMultiply(p: real, n: int, rank: int, alpha: real)
    requires n > 0 && rank > 0
    ensures Times(p, n) / rank as real <= alpha <==> p <= alpha * rank as real / n as real
  {
    var x, t := rank as real, Times(p, n);
    assert t / x <= alpha <==> t <= alpha * x by {
      if t / x <= alpha {
        assert t == (t / x) * x <= alpha * x;
      } else {
        assert t == (t / x) * x > alpha * x;
      }
    }
    DivideOut(p, n, alpha * x);
  }

  /** Holm's adjusted value against the step-down procedure. */
  lemma {:induction false} HolmIsStepDown(ps: seq<real>, alpha: real, i: nat)
    requires i < |ps| && 0.0 <= alpha < 1.0
    ensures Holm(ps, i) <= alpha <==> HolmRejects(ps, alpha, i)
  {
    DivideOut(ps[i], |ps| - i, alpha);
    if i > 0 {
      HolmIsStepDown(ps, alpha, i - 1);
    }
  }

  lemma BhTermPasses(ps: seq<real>, alpha: real, i: nat)
    requires i < |ps|
    ensures BhTerm(ps, i) <= alpha <==> BhPasses(ps, alpha, i)
  {
    CrossMultiply(ps[i], |ps|, i + 1, alpha);
  }

  /** Benjamini-Hochberg's adjusted value against the step-up procedure. */
  lemma {:induction false} BhIsStepUp(ps: seq<real>, alpha: real, i: nat)
    requires i < |ps| && alpha < 1.0
    ensures Bh(ps, i) <= alpha <==> BhRejects(ps, alpha, i)
    decreases |ps| - i
  {
    BhTermPasses(ps, alpha, i);
    if i < |ps| - 1 {
      BhIsStepUp(ps, alpha, i + 1);
      if BhRejects(ps, alpha, i) {
        var j :| i <= j < |ps| && BhPasses(ps, alpha, j);
        assert j == i || BhRejects(ps, alpha, i + 1);
      }
    }
    assert BhPasses(ps, alpha, i) ==> BhRejects(ps, alpha, i);
  }

  // ---------- how the three compare ----------

  lemma TimesMonotone(p: real, q: real, j: int, k: int)
    requires 0.0 <= p <= q && 0 <= j <= k
    ensures Times(p, j) <= Times(q, k)
  {
    assert p * j as real <= q * j as real;
    assert q * j as real <= q * k as real;
  }

  lemma NonNegativeProduct(x: real, y: real)
    requires x >= 0.0 && y >= 0.0
    ensures x * y >= 0.0
  {
  }

  /** n <= (n - i)(i + 1): Holm's multiplier is never below Benjamini-Hochberg's. */
  lemma BhTermAtMostHolmTerm(p: real, n: int, i: int)
    requires 0.0 <= p && 0 <= i < n
    ensures p <= Times(p, n) / (i + 1) as real <= Times(p, n - i)
  {
    var x, y, whole := (i + 1) as real, (n - i) as real, n as real;
    var t := Times(p, n);
    assert t == p * whole && x <= whole;
    NonNegativeProduct(i as real, (n - i - 1) as real);
    assert x * y == whole + i as real * (n - i - 1) as real;
    ScaleMonotone(whole, x * y, p);
    Regroup(x, y, p);
    QuotientAtMost(t, x, p * y);
    ScaleMonotone(x, whole, p);
    QuotientAtLeast(t, x, p);
  }

  lemma ScaleMonotone(a: real, b: real, c: real)
    requires 0.0 <= c && a <= b
    ensures c * a <= c * b && a * c <= b * c
  {
    NonNegativeProduct(b - a, c);
    assert (b - a) * c == b * c - a * c;
  }

  lemma Regroup(x: real, y: real, p: real)
    ensures p * (x * y) == (p * y) * x
  {
  }

  lemma QuotientAtMost(t: real, x: real, q: real)
    requires x > 0.0 && t <= q * x
    ensures t / x <= q
  {
    var r := t / x;
    assert r * x == t;
    if r > q {
      assert (r - q) * x > 0.0;
    }
  }

  lemma QuotientAtLeast(t: real, x: real, q: real)
    requires x > 0.0 && q * x <= t
    ensures q <= t / x
  {
    var r := t / x;
    assert r * x == t;
    if r < q {
      assert (q - r) * x > 0.0;
    }
  }

  lemma {:induction false} HolmBounds(ps: seq<real>, i: nat)
    requires Ascending(ps) && i < |ps|
    ensures Min(1.0, Times(ps[i], |ps| - i)) <= Holm(ps, i) <= Bonferroni(ps, i) <= 1.0
    ensures i > 0 ==> Holm(ps, i - 1) <= Holm(ps, i)
  {
    TimesMonotone(ps[i], ps[i], |ps| - i, |ps|);
    TimesMonotone(0.0, ps[i], 0, |ps|);
    if i > 0 {
      HolmBounds(ps, i - 1);
      TimesMonotone(ps[i - 1], ps[i], |ps|, |ps|);
    }
  }

  lemma {:induction false} BhBounds(ps: seq<real>, i: nat)
    requires Ascending(ps) && i < |ps|
    ensures ps[i] <= Bh(ps, i) <= Min(1.0, BhTerm(ps, i))
    ensures i + 1 < |ps| ==> Bh(ps, i) <= Bh(ps, i + 1)
    decreases |ps| - i
  {
    BhTermAtMostHolmTerm(ps[i], |ps|, i);
    if i < |ps| - 1 {
      BhBounds(ps, i + 1);
    }
  }

  /** raw <= Benjamini-Hochberg <= Holm <= Bonferroni <= 1, pointwise. */
  lemma {:induction false} AdjustmentsAreOrdered(ps: seq<real>, i: nat)
    requires Ascending(ps) && i < |ps|
    ensures ps[i] <= Bh(ps, i) <= Holm(ps, i) <= Bonferroni(ps, i) <= 1.0
  {
    BhBounds(ps, i);
    HolmBounds(ps, i);
    BhTermAtMostHolmTerm(ps[i], |ps|, i);
  }

  lemma NeighbouringTie(ps: seq<real>, i: nat)
    requires Ascending(ps) && i + 1 < |ps| && ps[i] == ps[i + 1]
    ensures Holm(ps, i) == Holm(ps, i + 1) && Bh(ps, i) == Bh(ps, i + 1)
  {
    var p, n := ps[i], |ps|;
    TimesMonotone(p, p, n - i - 1, n - i);
    HolmBounds(ps, i);
    BhBounds(ps, i + 1);
    TimesMonotone(0.0, p, 0, n);
    DivideDown(Times(p, n), i + 1, i + 2);
    assert BhTerm(ps, i + 1) <= BhTerm(ps, i);
  }

  /** Equal p-values get equal adjusted values, whatever the tie-break. */
  lemma {:induction false} TiesAgree(ps: seq<real>, i: nat, j: nat)
    requires Ascending(ps) && i <= j < |ps| && ps[i] == ps[j]
    ensures Holm(ps, i) == Holm(ps, j) && Bh(ps, i) == Bh(ps, j) && Bonferroni(ps, i) == Bonferroni(ps, j)
    decreases j - i
  {
    if i < j {
      assert ps[i] <= ps[i + 1] <= ps[j];
      TiesAgree(ps, i + 1, j);
      NeighbouringTie(ps, i);
    }
  }

  lemma DivideDown(x: real, j: int, k: int)
    requires 0.0 <= x && 0 < j <= k
    ensures x / k as real <= x / j as real
  {
    var a, b := j as real, k as real;
    assert (x / b) * b == x && (x / a) * a == x;
    assert (x / b) * a <= (x / b) * b;
  }

  // ---------- the adjustment itself ----------

  lemma PairOrder(family: Family)
    requires DistinctKeys(family)
    ensures TotalOn(PairLeq, family) && AntisymmetricOn(PairLeq, family)
  {
    StringOrder();
  }

  /** `sorted(p_values.items(), key=...)` */
  function Ordered(family: Family): Family { Sort(PairLeq, family) }

  lemma OrderedMembers(family: Family)
    requires DistinctKeys(family)
    ensures SortedBy(PairLeq, Ordered(family)) && |Ordered(family)| == |family|
    ensures multiset(Ordered(family)) == multiset(family)
    ensures forall i | 0 <= i < |family| :: Ordered(family)[i] in family
  {
    PairOrder(family);
    SortSorts(PairLeq, family);
    forall i | 0 <= i < |family| ensures Ordered(family)[i] in family {
      assert Ordered(family)[i] in multiset(Ordered(family));
      assert Ordered(family)[i] in multiset(family);
    }
  }

  lemma OrderedFacts(family: Family)
    requires DistinctKeys(family) && InRange(family)
    ensures |Ordered(family)| == |family| && multiset(Ordered(family)) == multiset(family)
    ensures Ascending(Values(Ordered(family))) && DistinctKeys(Ordered(family))
  {
    OrderedMembers(family);
    var s := Ordered(family);
    forall i, j | 0 <= i <= j < |s| ensures s[i].1 <= s[j].1 {
      assert i < j ==> PairLeq(s[i], s[j]);
    }
    DistinctPermutation(family, s);
  }

  /** The listing order of the mapping does not matter. */
  lemma OrderedIsCanonical(a: Family, b: Family)
    requires DistinctKeys(a) && multiset(a) == multiset(b)
    ensures Ordered(a) == Ordered(b)
  {
    PairOrder(a);
    SortOrderIndependent(PairLeq, a, b);
  }

  datatype Method = HolmMethod | BhMethod | BonferroniMethod | OtherMethod

  function MethodOf(name: string): Method {
    if name == "bonferroni" then BonferroniMethod
    else if name == "holm" then HolmMethod
    else if name in {"benjamini-hochberg", "bh"} then BhMethod
    else OtherMethod
  }

  function AdjustedAt(m: Method, ps: seq<real>, i: nat): real
    requires i < |ps| && !m.OtherMethod?
  {
    match m
    case HolmMethod => Holm(ps, i)
    case BhMethod => Bh(ps, i)
    case BonferroniMethod => Bonferroni(ps, i)
  }

  function KeySet(ordered: Family, lo: nat, hi: nat): set<string>
    requires lo <= hi <= |ordered|
  {
    set i | lo <= i < hi :: ordered[i].0
  }

  /** Hypotheses lo to hi of `ordered`, and no others, have their adjusted values. */
  ghost predicate Filled(adjusted: map<string, real>, ordered: Family, m: Method, lo: nat, hi: nat)
    requires !m.OtherMethod? && lo <= hi <= |ordered|
  {
    && adjusted.Keys == KeySet(ordered, lo, hi)
    && (forall i | lo <= i < hi ::
          ordered[i].0 in adjusted && adjusted[ordered[i].0] == AdjustedAt(m, Values(ordered), i))
  }

  lemma FillAbove(adjusted: map<string, real>, ordered: Family, m: Method, hi: nat, value: real)
    requires !m.OtherMethod? && hi < |ordered| && DistinctKeys(ordered) && Filled(adjusted, ordered, m, 0, hi)
    requires value == AdjustedAt(m, Values(ordered), hi)
    ensures Filled(adjusted[ordered[hi].0 := value], ordered, m, 0, hi + 1)
  {
    assert KeySet(ordered, 0, hi + 1) == KeySet(ordered, 0, hi) + {ordered[hi].0};
  }

  lemma FillBelow(adjusted: map<string, real>, ordered: Family, m: Method, lo: nat, value: real)
    requires !m.OtherMethod? && lo < |ordered| && DistinctKeys(ordered) &&
             Filled(adjusted, ordered, m, lo + 1, |ordered|)
    requires value == AdjustedAt(m, Values(ordered), lo)
    ensures Filled(adjusted[ordered[lo].0 := value], ordered, m, lo, |ordered|)
  {
    assert KeySet(ordered, lo, |ordered|) == KeySet(ordered, lo + 1, |ordered|) + {ordered[lo].0};
  }

  method HolmAdjust(ordered: Family) returns (adjusted: map<string, real>)
    requires DistinctKeys(ordered)
    ensures Filled(adjusted, ordered, HolmMethod, 0, |ordered|)
  {
    adjusted := map[];
    var running := 0.0;
    for index := 0 to |ordered|
      invariant Filled(adjusted, ordered, HolmMethod, 0, index)
      invariant running == if index == 0 then 0.0 else Holm(Values(ordered), index - 1)
    {
      var (key, value) := ordered[index];
      running := Max(running, Min(1.0, Times(value, |ordered| - index)));
      FillAbove(adjusted, ordered, HolmMethod, index, running);
      adjusted := adjusted[key := running];
    }
  }

  method BhAdjust(ordered: Family) returns (adjusted: map<string, real>)
    requires DistinctKeys(ordered)
    ensures Filled(adjusted, ordered, BhMethod, 0, |ordered|)
  {
    adjusted := map[];
    var running := 1.0;
    var rank := |ordered|;
    while rank > 0
      invariant 0 <= rank <= |ordered|
      invariant Filled(adjusted, ordered, BhMethod, rank, |ordered|)
      invariant running == if rank == |ordered| then 1.0 else Bh(Values(ordered), rank)
      invariant running <= 1.0
    {
      var (key, value) := ordered[rank - 1];
      running := Min(running, Times(value, |ordered|) / rank as real);
      FillBelow(adjusted, ordered, BhMethod, rank - 1, running);
      adjusted := adjusted[key := Min(1.0, running)];
      rank := rank - 1;
    }
  }

  /** One value per key, in whatever order the mapping lists them. */
  method BonferroniAdjust(family: Family) returns (adjusted: map<string, real>)
    requires DistinctKeys(family)
    ensures adjusted.Keys == KeySet(family, 0, |family|)
    ensures forall i | 0 <= i < |family| ::
      family[i].0 in adjusted && adjusted[family[i].0] == Min(1.0, Times(family[i].1, |family|))
  {
    adjusted := map[];
    for index := 0 to |family|
      invariant adjusted.Keys == KeySet(family, 0, index)
      invariant forall i | 0 <= i < index ::
        family[i].0 in adjusted && adjusted[family[i].0] == Min(1.0, Times(family[i].1, |family|))
    {
      assert KeySet(family, 0, index + 1) == KeySet(family, 0, index) + {family[index].0};
      adjusted := adjusted[family[index].0 := Min(1.0, Times(family[index].1, |family|))];
    }
  }

  lemma BonferroniFilled(family: Family, ordered: Family, adjusted: map<string, real>)
    requires multiset(family) == multiset(ordered)
    requires adjusted.Keys == KeySet(family, 0, |family|)
    requires forall i | 0 <= i < |family| ::
      family[i].0 in adjusted && adjusted[family[i].0] == Min(1.0, Times(family[i].1, |family|))
    ensures Filled(adjusted, ordered, BonferroniMethod, 0, |ordered|)
  {
    SameElements(family, ordered);
    forall i | 0 <= i < |ordered|
      ensures ordered[i].0 in adjusted && adjusted[ordered[i].0] == Bonferroni(Values(ordered), i)
    {
      assert ordered[i] in multiset(ordered);
      assert ordered[i] in family;
      var j :| 0 <= j < |family| && family[j] == ordered[i];
    }
    forall key | key in adjusted ensures key in KeySet(ordered, 0, |ordered|) {
      var j :| 0 <= j < |family| && family[j].0 == key;
      assert family[j] in multiset(family);
      assert family[j] in ordered;
      var i :| 0 <= i < |ordered| && ordered[i] == family[j];
    }
  }

  /** `adjust_p_values`: one adjusted value per hypothesis, or the error the source raises. */
  method AdjustPValues(family: Family, name: string) returns (r: Result<map<string, real>, AdjustError>)
    requires DistinctKeys(family)
    ensures r.Err? && r.error == EmptyFamily <==> family == []
    ensures r.Err? && r.error == PValueOutOfRange <==>
              family != [] && exists i :: 0 <= i < |family| && !(0.0 <= family[i].1 <= 1.0)
    ensures r.Err? && r.error == UnknownMethod <==>
              && family != [] && InRange(family)
              && name !in {"bonferroni", "holm", "benjamini-hochberg", "bh"}
    ensures r.Ok? ==>
              !MethodOf(name).OtherMethod? && Filled(r.value, Ordered(family), MethodOf(name), 0, |Ordered(family)|)
  {
    if family == [] {
      return Err(EmptyFamily);
    }
    if !InRange(family) {
      return Err(PValueOutOfRange);
    }
    OrderedFacts(family);
    var ordered := Ordered(family);
    var adjusted;
    match MethodOf(name) {
      case BonferroniMethod =>
        adjusted := BonferroniAdjust(family);
        BonferroniFilled(family, ordered, adjusted);
      case HolmMethod => adjusted := HolmAdjust(ordered);
      case BhMethod => adjusted := BhAdjust(ordered);
      case OtherMethod => return Err(UnknownMethod);
    }
    r := Ok(adjusted);
  }

  /** Comparing an adjusted value with alpha runs the textbook procedure at level alpha. */
  lemma AdjustedValueDecides(family: Family, adjusted: map<string, real>, m: Method, alpha: real, i: nat)
    requires DistinctKeys(family) && InRange(family) && i < |family| && 0.0 <= alpha < 1.0
    requires !m.OtherMethod? && Filled(adjusted, Ordered(family), m, 0, |Ordered(family)|)
    ensures |Ordered(family)| == |family|
    ensures var key, ps := Ordered(family)[i].0, Values(Ordered(family));
            adjusted[key] <= alpha <==>
            match m
            case HolmMethod => HolmRejects(ps, alpha, i)
            case BhMethod => BhRejects(ps, alpha, i)
            case BonferroniMethod => ps[i] <= alpha / |family| as real
  {
    OrderedMembers(family);
    var ps := Values(Ordered(family));
    match m
    case HolmMethod => HolmIsStepDown(ps, alpha, i);
    case BhMethod => BhIsStepUp(ps, alpha, i);
    case BonferroniMethod => DivideOut(ps[i], |ps|, alpha);
  }

  /** The methods by name: with the p-values in ascending order, "holm" decides as the step-down
      procedure, "bh" and "benjamini-hochberg" as the step-up procedure, and "bonferroni" tests each
      p-value against its share of alpha. No adjusted value is above one. */
  lemma AdjustedByName(family: Family, adjusted: map<string, real>, name: string, alpha: real, i: nat)
    requires DistinctKeys(family) && InRange(family) && i < |family| && 0.0 <= alpha < 1.0
    requires !MethodOf(name).OtherMethod? && Filled(adjusted, Ordered(family), MethodOf(name), 0, |Ordered(family)|)
    ensures |Ordered(family)| == |family| && multiset(Ordered(family)) == multiset(family)
    ensures var key, ps := Ordered(family)[i].0, Values(Ordered(family));
      && (forall j, k | 0 <= j <= k < |ps| :: ps[j] <= ps[k])
      && 0.0 <= adjusted[key] <= 1.0
      && (name == "holm" ==> (adjusted[key] <= alpha <==> HolmRejects(ps, alpha, i)))
      && (name in {"benjamini-hochberg", "bh"} ==> (adjusted[key] <= alpha <==> BhRejects(ps, alpha, i)))
      && (name == "bonferroni" ==> (adjusted[key] <= alpha <==> ps[i] <= alpha / |family| as real))
  {
    OrderedMembers(family);
    OrderedFacts(family);
    AdjustedValueDecides(family, adjusted, MethodOf(name), alpha, i);
    AdjustmentsAreOrdered(Values(Ordered(family)), i);
  }

  /** Two listings of the same p-values get the same adjusted map. */
  lemma ListingOrderIrrelevant(a: Family, b: Family, x: map<string, real>, y: map<string, real>, m: Method)
    requires DistinctKeys(a) && multiset(a) == multiset(b) && !m.OtherMethod?
    requires Filled(x, Ordered(a), m, 0, |Ordered(a)|) && Filled(y, Ordered(b), m, 0, |Ordered(b)|)
    ensures x == y
  {
    OrderedIsCanonical(a, b);
    var s := Ordered(a);
    forall key | key in x ensures x[key] == y[key] {
      var i :| 0 <= i < |s| && s[i].0 == key;
    }
    assert x.Keys == y.Keys;
  }
}
