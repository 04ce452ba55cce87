/**
 Normalized discounted cumulative gain in exact arithmetic. The gain transform
 (2^x - 1) and the discount (1 / log2(rank + 1)) are parameters; only their
 monotonicity is used, so the bound holds for any such pair.
 */
module Ndcg {
  import opened Results
  import opened Ordering

  datatype NdcgError = NonPositiveK

  type Relevance = seq<(string, real)>

  /** A mapping has each key once. */
  ghost predicate DistinctIds(rel: Relevance) {
    forall i, j | 0 <= i < j < |rel| :: rel[i].0 != rel[j].0
  }

  /** Zero gain is worth zero, and more gain is worth more. */
  ghost predicate GainLaw(g: real -> real) {
    && g(0.0) == 0.0
    && (forall x, y :: x <= y ==> g(x) <= g(y))
    && (forall x :: x > 0.0 ==> g(x) > 0.0)
  }

  /** Later ranks never count for more, and every rank counts. */
  ghost predicate DiscountLaw(d: nat -> real) {
    && (forall r: nat :: r >= 1 ==> d(r) > 0.0)
    && (forall r: nat :: r >= 1 ==> d(r + 1) <= d(r))
  }

  function Clip(x: real): real { if x < 0.0 then 0.0 else x }

  /** `relevance.get(identifier, 0)`, clipped at zero. */
  function GainOf(rel: Relevance, id: string): real {
    if rel == [] then 0.0
    else if rel[|rel| - 1].0 == id then Clip(rel[|rel| - 1].1)
    else GainOf(rel[..|rel| - 1], id)
  }

  /** The gain credited at each rank: a repeat earns nothing. */
  function Gains(ids: seq<string>, rel: Relevance): seq<real> {
    if ids == [] then []
    else
      var n := |ids| - 1;
      Gains(ids[..n], rel) + [if ids[n] in ids[..n] then 0.0 else GainOf(rel, ids[n])]
  }

  predicate Descending(a: real, b: real) { a >= b }

  function ClippedValues(rel: Relevance): seq<real> {
    if rel == [] then [] else ClippedValues(rel[..|rel| - 1]) + [Clip(rel[|rel| - 1].1)]
  }

  function Top<T>(s: seq<T>, k: nat): seq<T> { if k <= |s| then s[..k] else s }

  function Retrieved(ids: seq<string>, rel: Relevance, k: nat, g: real -> real): seq<real> {
    Map(g, Gains(Top(ids, k), rel))
  }

  function Ideal(rel: Relevance, k: nat, g: real -> real): seq<real> {
    Map(g, Top(Sort(Descending, ClippedValues(rel)), k))
  }

  /** What a worth counts for at a rank. */
  type Term = (real, nat) -> real

  function Discounting(d: nat -> real): Term { (x: real, rank: nat) => x * d(rank) }

  /** Discounted sum, ranks from 1. */
  function Dcg(w: seq<real>, term: Term): real {
    if w == [] then 0.0 else Dcg(w[..|w| - 1], term) + term(w[|w| - 1], |w|)
  }

  function Sum(w: seq<real>): real {
    if w == [] then 0.0 else Sum(w[..|w| - 1]) + w[|w| - 1]
  }

  ghost predicate NonNegative(w: seq<real>) { forall i | 0 <= i < |w| :: w[i] >= 0.0 }

  // ---------- sums ----------

  lemma {:induction false} SumOne(s: seq<real>, x: real)
    ensures Sum(s + [x]) == Sum(s) + x
  {
    assert (s + [x])[..|s|] == s;
  }

  lemma {:induction false} SumConcat(a: seq<real>, b: seq<real>)
    ensures Sum(a + b) == Sum(a) + Sum(b)
  {
    if b == [] {
      assert a + b == a;
    } else {
      var n := |b| - 1;
      assert (a + b)[..|a + b| - 1] == a + b[..n];
      SumConcat(a, b[..n]);
    }
  }

  lemma {:induction false} SumRemove(s: seq<real>, i: nat)
    requires i < |s|
    ensures Sum(s) == s[i] + Sum(s[..i] + s[i + 1..])
  {
    SumOne(s[..i], s[i]);
    SumConcat(s[..i] + [s[i]], s[i + 1..]);
    SumConcat(s[..i], s[i + 1..]);
    assert s == s[..i] + [s[i]] + s[i + 1..];
  }

  lemma {:induction false} SumNonNegative(w: seq<real>)
    requires NonNegative(w)
    ensures Sum(w) >= 0.0
  {
    if w != [] {
      SumNonNegative(w[..|w| - 1]);
    }
  }

  /** An item of x to set against the head of s: the head itself if x has it. */
  lemma PickLargest(x: seq<real>, s: seq<real>) returns (i: nat)
    requires x != [] && s != [] && SortedBy(Descending, s) && multiset(x) <= multiset(s)
    ensures i < |x| && x[i] <= s[0] && (x[i] == s[0] || s[0] !in multiset(x))
  {
    if s[0] in x {
      i :| 0 <= i < |x| && x[i] == s[0];
    } else {
      i := 0;
      assert x[0] in multiset(x) && x[0] in multiset(s);
      assert x[0] in s;
    }
  }

  lemma TakeOut<T>(x: multiset<T>, s: multiset<T>, item: T, head: T)
    requires x <= s && (item == head || head !in x)
    ensures x - multiset{item} <= s - multiset{head}
  {
  }

  lemma HeadOut<T>(s: seq<T>)
    requires s != []
    ensures multiset(s[1..]) == multiset(s) - multiset{s[0]}
  {
    assert s == [s[0]] + s[1..];
  }

  lemma RestDrawn<T>(x: seq<T>, s: seq<T>, i: nat)
    requires i < |x| && s != [] && multiset(x) <= multiset(s)
    requires x[i] == s[0] || s[0] !in multiset(x)
    ensures multiset(x[..i] + x[i + 1..]) <= multiset(s[1..])
  {
    var rest := multiset(x) - multiset{x[i]};
    assert multiset(x[..i] + x[i + 1..]) == rest by {
      RemoveItem(x, i);
    }
    assert rest <= multiset(s[1..]) by {
      TakeOut(multiset(x), multiset(s), x[i], s[0]);
      HeadOut(s);
    }
  }

  lemma DrawnIsShorter(x: seq<real>, s: seq<real>)
    requires multiset(x) <= multiset(s)
    ensures |x| <= |s|
  {
    assert |multiset(s)| == |multiset(x)| + |multiset(s) - multiset(x)|;
  }

  lemma SumHead(s: seq<real>, n: nat)
    requires 0 < n <= |s|
    ensures Sum(s[..n]) == s[0] + Sum(s[1..][..n - 1])
  {
    SumRemove(s[..n], 0);
    assert s[..n][..0] + s[..n][1..] == s[1..][..n - 1];
  }

  /** Any items drawn from a descending list sum to no more than its first items. */
  lemma {:induction false} TopSumsMost(x: seq<real>, s: seq<real>)
    requires SortedBy(Descending, s) && multiset(x) <= multiset(s) && |x| <= |s|
    ensures Sum(x) <= Sum(s[..|x|])
  {
    if x != [] {
      var i := PickLargest(x, s);
      RestDrawn(x, s, i);
      TopSumsMost(x[..i] + x[i + 1..], s[1..]);
      SumRemove(x, i);
      SumHead(s, |x|);
    }
  }

  // ---------- what the retrieved gains can sum to ----------

  /** The worth of the labelled items in U. */
  function Values(rel: Relevance, g: real -> real, U: set<string>): seq<real> {
    if rel == [] then []
    else
      var n := |rel| - 1;
      if rel[n].0 in U then Values(rel[..n], g, U) + [g(Clip(rel[n].1))] else Values(rel[..n], g, U)
  }

  lemma {:induction false} ValuesDrawn(rel: Relevance, g: real -> real, U: set<string>)
    ensures multiset(Values(rel, g, U)) <= multiset(Map(g, ClippedValues(rel)))
    ensures Values(rel, g, {}) == []
  {
    if rel != [] {
      var n := |rel| - 1;
      ValuesDrawn(rel[..n], g, U);
      MapOne(g, ClippedValues(rel[..n]), Clip(rel[n].1));
    }
  }

  lemma {:induction false} ValuesSame(rel: Relevance, g: real -> real, U: set<string>, id: string)
    requires forall i | 0 <= i < |rel| :: rel[i].0 != id
    ensures Values(rel, g, U + {id}) == Values(rel, g, U)
    ensures GainOf(rel, id) == 0.0
  {
    if rel != [] {
      ValuesSame(rel[..|rel| - 1], g, U, id);
    }
  }

  /** Seeing one more item adds its worth, and at most one value. */
  lemma {:induction false} ValuesGrow(rel: Relevance, g: real -> real, U: set<string>, id: string)
    requires DistinctIds(rel) && g(0.0) == 0.0 && id !in U
    ensures Sum(Values(rel, g, U + {id})) == Sum(Values(rel, g, U)) + g(GainOf(rel, id))
    ensures |Values(rel, g, U + {id})| <= |Values(rel, g, U)| + 1
  {
    if rel != [] {
      var n := |rel| - 1;
      SumOne(Values(rel[..n], g, U), g(Clip(rel[n].1)));
      SumOne(Values(rel[..n], g, U + {id}), g(Clip(rel[n].1)));
      if rel[n].0 == id {
        ValuesSame(rel[..n], g, U, id);
      } else {
        ValuesGrow(rel[..n], g, U, id);
      }
    }
  }

  function Seen(ids: seq<string>): set<string> {
    if ids == [] then {} else Seen(ids[..|ids| - 1]) + {ids[|ids| - 1]}
  }

  lemma {:induction false} SeenMembers(ids: seq<string>)
    ensures forall x :: x in Seen(ids) <==> x in ids
  {
    if ids != [] {
      SeenMembers(ids[..|ids| - 1]);
      assert ids == ids[..|ids| - 1] + [ids[|ids| - 1]];
    }
  }

  lemma MapOne(g: real -> real, gains: seq<real>, x: real)
    ensures Map(g, gains + [x]) == Map(g, gains) + [g(x)]
  {
  }

  /** One more rank, in worth and in values. */
  lemma {:induction false} RankIsValue(ids: seq<string>, id: string, rel: Relevance, g: real -> real)
    requires DistinctIds(rel) && g(0.0) == 0.0
    ensures Seen(ids + [id]) == Seen(ids) + {id}
    ensures Sum(Map(g, Gains(ids + [id], rel))) - Sum(Map(g, Gains(ids, rel)))
            == Sum(Values(rel, g, Seen(ids) + {id})) - Sum(Values(rel, g, Seen(ids)))
    ensures |Values(rel, g, Seen(ids) + {id})| <= |Values(rel, g, Seen(ids))| + 1
  {
    assert (ids + [id])[..|ids|] == ids;
    var gain := if id in ids then 0.0 else GainOf(rel, id);
    MapOne(g, Gains(ids, rel), gain);
    SumOne(Map(g, Gains(ids, rel)), g(gain));
    SeenMembers(ids);
    if id in ids {
      assert Seen(ids) + {id} == Seen(ids);
    } else {
      ValuesGrow(rel, g, Seen(ids), id);
    }
  }

  /** The retrieved worth is the worth of the distinct labelled items among them. */
  lemma {:induction false} GainsAreValues(ids: seq<string>, rel: Relevance, g: real -> real)
    requires DistinctIds(rel) && g(0.0) == 0.0
    ensures Sum(Map(g, Gains(ids, rel))) == Sum(Values(rel, g, Seen(ids)))
    ensures |Values(rel, g, Seen(ids))| <= |ids|
  {
    if ids == [] {
      ValuesDrawn(rel, g, {});
    } else {
      var n := |ids| - 1;
      GainsAreValues(ids[..n], rel, g);
      RankIsValue(ids[..n], ids[n], rel, g);
      assert ids == ids[..n] + [ids[n]];
    }
  }

  // ---------- the ideal list ----------

  /** All labelled worth, best first. */
  function Ranked(rel: Relevance, g: real -> real): seq<real> {
    Map(g, Sort(Descending, ClippedValues(rel)))
  }

  lemma {:induction false} RankedOrder(rel: Relevance, g: real -> real)
    requires GainLaw(g)
    ensures SortedBy(Descending, Ranked(rel, g)) && NonNegative(Ranked(rel, g))
    ensures multiset(Ranked(rel, g)) == multiset(Map(g, ClippedValues(rel)))
  {
    var s := Sort(Descending, ClippedValues(rel));
    SortSorts(Descending, ClippedValues(rel));
    MapPermutes(g, s, ClippedValues(rel));
    ClippedNonNegative(rel);
    forall i | 0 <= i < |s| ensures Ranked(rel, g)[i] >= 0.0 {
      assert s[i] in multiset(s);
      assert s[i] in ClippedValues(rel);
    }
  }

  lemma {:induction false} ClippedNonNegative(rel: Relevance)
    ensures NonNegative(ClippedValues(rel))
    ensures forall x | x in ClippedValues(rel) :: x >= 0.0
  {
    if rel != [] {
      ClippedNonNegative(rel[..|rel| - 1]);
    }
  }

  lemma IdealIsTop(rel: Relevance, k: nat, g: real -> real)
    ensures Ideal(rel, k, g) == Top(Ranked(rel, g), k)
  {
    var s := Sort(Descending, ClippedValues(rel));
    if k <= |s| {
      assert Map(g, s[..k]) == Map(g, s)[..k];
    }
  }

  /** The first m ranks of any retrieval never out-sum the m best labelled items. */
  lemma {:induction false} PrefixDominated(ids: seq<string>, rel: Relevance, g: real -> real)
    requires DistinctIds(rel) && GainLaw(g)
    ensures Sum(Map(g, Gains(ids, rel))) <= Sum(Top(Ranked(rel, g), |ids|))
  {
    var s := Ranked(rel, g);
    var x := Values(rel, g, Seen(ids));
    RankedOrder(rel, g);
    ValuesDrawn(rel, g, Seen(ids));
    GainsAreValues(ids, rel, g);
    DrawnIsShorter(x, s);
    TopSumsMost(x, s);
    TopGrows(s, |x|, |ids|);
  }

  lemma TopGrows(s: seq<real>, m: nat, n: nat)
    requires NonNegative(s) && m <= |s| && m <= n
    ensures Sum(s[..m]) <= Sum(Top(s, n))
  {
    var top := Top(s, n);
    assert top == s[..m] + top[m..];
    SumConcat(s[..m], top[m..]);
    SumNonNegative(top[m..]);
  }

  // ---------- discounting keeps the order ----------

  /** Every prefix of a sums to no more than the same prefix of b. */
  ghost predicate Dominated(a: seq<real>, b: seq<real>) {
    |a| == |b| && forall m | 0 <= m <= |a| :: Sum(a[..m]) <= Sum(b[..m])
  }

  lemma DominatedPrefix(a: seq<real>, b: seq<real>)
    requires Dominated(a, b) && a != []
    ensures Dominated(a[..|a| - 1], b[..|b| - 1])
  {
    var n := |a| - 1;
    forall m | 0 <= m <= n ensures Sum(a[..n][..m]) <= Sum(b[..n][..m]) {
      assert a[..n][..m] == a[..m] && b[..n][..m] == b[..m];
    }
  }

  lemma {:induction false} DominatedSum(a: seq<real>, b: seq<real>)
    requires Dominated(a, b)
    ensures Sum(a) <= Sum(b)
  {
    assert a[..|a|] == a && b[..|b|] == b;
  }

  lemma DiscountStep(A: real, B: real, D: real, before: real, now: real, x: real, y: real)
    requires D >= 0.0 && now <= before && B - A >= before * D
    ensures (B + y * now) - (A + x * now) >= now * (D + (y - x))
  {
    NonNegativeProduct(before - now, D);
    assert before * D - now * D == (before - now) * D;
  }

  lemma NonNegativeProduct(x: real, y: real)
    requires x >= 0.0 && y >= 0.0
    ensures x * y >= 0.0
  {
  }

  /** The gap between two lists, weighted by the last discount, bounds the discounted gap. */
  lemma {:induction false} SummationByParts(a: seq<real>, b: seq<real>, d: nat -> real)
    requires DiscountLaw(d) && Dominated(a, b) && a != []
    ensures Dcg(b, Discounting(d)) - Dcg(a, Discounting(d)) >= d(|a|) * (Sum(b) - Sum(a))
  {
    var n := |a| - 1;
    DominatedPrefix(a, b);
    DominatedSum(a[..n], b[..n]);
    var D := Sum(b[..n]) - Sum(a[..n]);
    var A, B := Dcg(a[..n], Discounting(d)), Dcg(b[..n], Discounting(d));
    var before, now := if n == 0 then d(1) else d(n), d(n + 1);
    assert now <= before;
    if n > 0 {
      SummationByParts(a[..n], b[..n], d);
    }
    assert B - A >= before * D;
    DiscountStep(A, B, D, before, now, a[n], b[n]);
    assert Sum(b) - Sum(a) == D + (b[n] - a[n]);
  }

  /** Domination of every prefix survives a non-increasing discount. */
  lemma {:induction false} Discounted(a: seq<real>, b: seq<real>, d: nat -> real)
    requires DiscountLaw(d) && Dominated(a, b)
    ensures Dcg(a, Discounting(d)) <= Dcg(b, Discounting(d))
  {
    if a != [] {
      SummationByParts(a, b, d);
      DominatedSum(a, b);
      NonNegativeProduct(d(|a|), Sum(b) - Sum(a));
    }
  }

  /** Ranks beyond a list's end add nothing when filled with zeros. */
  function Padded(s: seq<real>, n: nat): seq<real> {
    if n <= |s| then s[..n] else s + Zeros(n - |s|)
  }

  function Zeros(n: nat): seq<real> { if n == 0 then [] else Zeros(n - 1) + [0.0] }

  lemma {:induction false} ZeroIsFree(w: seq<real>, d: nat -> real)
    ensures Sum(w + [0.0]) == Sum(w) && Dcg(w + [0.0], Discounting(d)) == Dcg(w, Discounting(d))
  {
    assert (w + [0.0])[..|w|] == w;
    assert 0.0 * d(|w| + 1) == 0.0;
  }

  lemma {:induction false} ZerosAreFree(s: seq<real>, n: nat, d: nat -> real)
    ensures |Zeros(n)| == n
    ensures Sum(s + Zeros(n)) == Sum(s) && Dcg(s + Zeros(n), Discounting(d)) == Dcg(s, Discounting(d))
  {
    if n == 0 {
      assert s + Zeros(0) == s;
    } else {
      ZerosAreFree(s, n - 1, d);
      var w := s + Zeros(n - 1);
      assert s + Zeros(n) == w + [0.0];
      ZeroIsFree(w, d);
    }
  }

  lemma PaddedPrefix(s: seq<real>, n: nat, m: nat, d: nat -> real)
    requires m <= n
    ensures |Padded(s, n)| == n
    ensures Sum(Padded(s, n)[..m]) == Sum(Top(s, m))
    ensures Dcg(Padded(s, n), Discounting(d)) == Dcg(Top(s, n), Discounting(d))
  {
    if n <= |s| {
      assert s[..n][..m] == s[..m];
    } else {
      ZerosAreFree(s, n - |s|, d);
      if m <= |s| {
        assert Padded(s, n)[..m] == s[..m];
      } else {
        ZerosAreFree(s, m - |s|, d);
        ZerosPrefix(n - |s|, m - |s|);
        assert Padded(s, n)[..m] == s + Zeros(n - |s|)[..m - |s|];
      }
    }
  }

  lemma {:induction false} ZerosPrefix(n: nat, m: nat)
    requires m <= n
    ensures |Zeros(n)| == n && Zeros(n)[..m] == Zeros(m)
  {
    if n > 0 {
      if m < n {
        ZerosPrefix(n - 1, m);
      } else {
        ZerosPrefix(n - 1, n - 1);
      }
    }
  }

  lemma {:induction false} DcgGrows(s: seq<real>, n: nat, d: nat -> real)
    requires DiscountLaw(d) && NonNegative(s) && n <= |s|
    ensures Dcg(s[..n], Discounting(d)) <= Dcg(s, Discounting(d))
  {
    if n == |s| {
      assert s[..n] == s;
    } else {
      var z := |s| - 1;
      DcgGrows(s[..z], n, d);
      assert s[..z][..n] == s[..n];
      NonNegativeProduct(s[z], d(z + 1));
    }
  }

  lemma {:induction false} GainsPrefix(ids: seq<string>, rel: Relevance, m: nat)
    requires m <= |ids|
    ensures |Gains(ids, rel)| == |ids| && Gains(ids, rel)[..m] == Gains(ids[..m], rel)
  {
    if m == |ids| {
      assert ids[..m] == ids;
      if m > 0 {
        GainsPrefix(ids[..m - 1], rel, m - 1);
      }
    } else {
      GainsPrefix(ids[..|ids| - 1], rel, m);
      assert ids[..|ids| - 1][..m] == ids[..m];
    }
  }

  lemma {:induction false} EveryPrefixDominated(ids: seq<string>, rel: Relevance, g: real -> real, d: nat -> real,
                                                m: nat)
    requires DistinctIds(rel) && GainLaw(g) && m <= |ids|
    ensures |Map(g, Gains(ids, rel))| == |ids| == |Padded(Ranked(rel, g), |ids|)|
    ensures Sum(Map(g, Gains(ids, rel))[..m]) <= Sum(Padded(Ranked(rel, g), |ids|)[..m])
  {
    GainsPrefix(ids, rel, m);
    assert Map(g, Gains(ids, rel)[..m]) == Map(g, Gains(ids, rel))[..m];
    PrefixDominated(ids[..m], rel, g);
    PaddedPrefix(Ranked(rel, g), |ids|, m, d);
  }

  /** No retrieval, repeats included, beats the ideal ordering. */
  lemma DcgAtMostIdeal(ids: seq<string>, rel: Relevance, k: nat, g: real -> real, d: nat -> real)
    requires DistinctIds(rel) && GainLaw(g) && DiscountLaw(d)
    ensures Dcg(Retrieved(ids, rel, k, g), Discounting(d)) <= Dcg(Ideal(rel, k, g), Discounting(d))
  {
    var top := Top(ids, k);
    var s := Ranked(rel, g);
    RetrievedDominated(top, rel, g, d);
    Discounted(Map(g, Gains(top, rel)), Padded(s, |top|), d);
    PaddedPrefix(s, |top|, 0, d);
    RankedOrder(rel, g);
    IdealIsTop(rel, k, g);
    IdealGrows(s, |top|, k, d);
  }

  lemma {:induction false} RetrievedDominated(ids: seq<string>, rel: Relevance, g: real -> real, d: nat -> real)
    requires DistinctIds(rel) && GainLaw(g)
    ensures Dominated(Map(g, Gains(ids, rel)), Padded(Ranked(rel, g), |ids|))
  {
    EveryPrefixDominated(ids, rel, g, d, 0);
    var a, b := Map(g, Gains(ids, rel)), Padded(Ranked(rel, g), |ids|);
    forall m | 0 <= m <= |a| ensures Sum(a[..m]) <= Sum(b[..m]) {
      EveryPrefixDominated(ids, rel, g, d, m);
    }
  }

  lemma IdealGrows(s: seq<real>, n: nat, k: nat, d: nat -> real)
    requires DiscountLaw(d) && NonNegative(s) && n <= k
    ensures Dcg(Top(s, n), Discounting(d)) <= Dcg(Top(s, k), Discounting(d))
  {
    DcgGrows(Top(s, k), |Top(s, n)|, d);
    assert Top(s, k)[..|Top(s, n)|] == Top(s, n);
  }

  // ---------- when there is anything to normalize by ----------

  ghost predicate HasPositiveGain(rel: Relevance) { exists i :: 0 <= i < |rel| && rel[i].1 > 0.0 }

  lemma {:induction false} DcgOfZeros(w: seq<real>, d: nat -> real)
    requires forall i | 0 <= i < |w| :: w[i] == 0.0
    ensures Dcg(w, Discounting(d)) == 0.0
  {
    if w != [] {
      DcgOfZeros(w[..|w| - 1], d);
      assert 0.0 * d(|w|) == 0.0;
    }
  }

  lemma {:induction false} DcgNonNegative(w: seq<real>, d: nat -> real)
    requires DiscountLaw(d) && NonNegative(w)
    ensures Dcg(w, Discounting(d)) >= 0.0
    ensures w != [] && w[0] > 0.0 ==> Dcg(w, Discounting(d)) > 0.0
  {
    if w != [] {
      DcgGrows(w, 1, d);
      assert w[..1][..0] == [];
      assert Dcg(w[..1], Discounting(d)) == Dcg(w[..1][..0], Discounting(d)) + w[0] * d(1);
      NonNegativeProduct(w[0], d(1));
      assert w[0] > 0.0 ==> w[0] * d(1) > 0.0;
    }
  }

  lemma {:induction false} ClippedAt(rel: Relevance)
    ensures |ClippedValues(rel)| == |rel|
    ensures forall i | 0 <= i < |rel| :: ClippedValues(rel)[i] == Clip(rel[i].1)
  {
    if rel != [] {
      ClippedAt(rel[..|rel| - 1]);
    }
  }

  lemma IdealPositive(rel: Relevance, k: nat, g: real -> real, d: nat -> real)
    requires GainLaw(g) && DiscountLaw(d) && k >= 1 && HasPositiveGain(rel)
    ensures Dcg(Ideal(rel, k, g), Discounting(d)) > 0.0
  {
    RankedOrder(rel, g);
    IdealIsTop(rel, k, g);
    BestIsPositive(rel);
    DcgNonNegative(Ideal(rel, k, g), d);
  }

  lemma IdealZero(rel: Relevance, k: nat, g: real -> real, d: nat -> real)
    requires GainLaw(g) && !HasPositiveGain(rel)
    ensures Dcg(Ideal(rel, k, g), Discounting(d)) == 0.0
  {
    var s := Sort(Descending, ClippedValues(rel));
    SortPermutes(Descending, ClippedValues(rel));
    ClippedAt(rel);
    forall j | 0 <= j < |s| ensures s[j] == 0.0 {
      assert s[j] in multiset(s);
      assert s[j] in ClippedValues(rel);
    }
    DcgOfZeros(Ideal(rel, k, g), d);
  }

  /** The ideal sum vanishes exactly when no labelled gain is positive. */
  lemma IdealVanishes(rel: Relevance, k: nat, g: real -> real, d: nat -> real)
    requires GainLaw(g) && DiscountLaw(d) && k >= 1
    ensures Dcg(Ideal(rel, k, g), Discounting(d)) >= 0.0
    ensures Dcg(Ideal(rel, k, g), Discounting(d)) == 0.0 <==> !HasPositiveGain(rel)
  {
    if HasPositiveGain(rel) {
      IdealPositive(rel, k, g, d);
    } else {
      IdealZero(rel, k, g, d);
    }
  }

  lemma {:induction false} BestIsPositive(rel: Relevance)
    requires HasPositiveGain(rel)
    ensures var s := Sort(Descending, ClippedValues(rel)); s != [] && s[0] > 0.0
  {
    var s := Sort(Descending, ClippedValues(rel));
    SortSorts(Descending, ClippedValues(rel));
    ClippedAt(rel);
    var i :| 0 <= i < |rel| && rel[i].1 > 0.0;
    assert ClippedValues(rel)[i] in multiset(ClippedValues(rel));
    assert ClippedValues(rel)[i] in multiset(s);
    var j :| 0 <= j < |s| && s[j] == ClippedValues(rel)[i];
    assert Descending(s[0], s[j]) || j == 0;
  }

  function Ratio(x: real, y: real): real { if y == 0.0 then 0.0 else x / y }

  lemma RatioInUnit(x: real, y: real)
    requires 0.0 <= x <= y && y > 0.0
    ensures 0.0 <= Ratio(x, y) <= 1.0
  {
  }

  function Clamp(x: real): real { if x < 0.0 then 0.0 else if x > 1.0 then 1.0 else x }

  /** The clamp to [0, 1] never acts: the unclamped ratio is already there. */
  lemma RatioNeedsNoClamp(ids: seq<string>, rel: Relevance, k: nat, g: real -> real, d: nat -> real)
    requires DistinctIds(rel) && GainLaw(g) && DiscountLaw(d) && k >= 1 && HasPositiveGain(rel)
    ensures 0.0 <= Ratio(Dcg(Retrieved(ids, rel, k, g), Discounting(d)), Dcg(Ideal(rel, k, g), Discounting(d))) <= 1.0
  {
    IdealVanishes(rel, k, g, d);
    DcgAtMostIdeal(ids, rel, k, g, d);
    GainsNonNegative(Top(ids, k), rel);
    forall i | 0 <= i < |Gains(Top(ids, k), rel)| ensures g(Gains(Top(ids, k), rel)[i]) >= 0.0 {
      assert g(0.0) <= g(Gains(Top(ids, k), rel)[i]);
    }
    DcgNonNegative(Retrieved(ids, rel, k, g), d);
    RatioInUnit(Dcg(Retrieved(ids, rel, k, g), Discounting(d)), Dcg(Ideal(rel, k, g), Discounting(d)));
  }

  lemma {:induction false} GainsNonNegative(ids: seq<string>, rel: Relevance)
    ensures NonNegative(Gains(ids, rel))
  {
    if ids != [] {
      GainsNonNegative(ids[..|ids| - 1], rel);
      GainNonNegative(rel, ids[|ids| - 1]);
    }
  }

  lemma {:induction false} GainNonNegative(rel: Relevance, id: string)
    ensures GainOf(rel, id) >= 0.0
  {
    if rel != [] {
      GainNonNegative(rel[..|rel| - 1], id);
    }
  }

  lemma {:induction false} DcgOne(w: seq<real>, x: real, term: Term)
    ensures Dcg(w + [x], term) == Dcg(w, term) + term(x, |w| + 1)
  {
    assert (w + [x])[..|w|] == w;
  }

  lemma {:induction false} OneMoreRank(ids: seq<string>, id: string, rel: Relevance, g: real -> real, term: Term)
    ensures var gain := if id in ids then 0.0 else GainOf(rel, id);
            Dcg(Map(g, Gains(ids + [id], rel)), term) == Dcg(Map(g, Gains(ids, rel)), term) + term(g(gain), |ids| + 1)
  {
    var gain := if id in ids then 0.0 else GainOf(rel, id);
    assert (ids + [id])[..|ids|] == ids;
    assert Gains(ids + [id], rel) == Gains(ids, rel) + [gain];
    MapOne(g, Gains(ids, rel), gain);
    GainsPrefix(ids, rel, 0);
    DcgOne(Map(g, Gains(ids, rel)), g(gain), term);
  }

  /** The loop over ranks, counted from 1. */
  method DiscountedGain(top: seq<string>, rel: Relevance, g: real -> real, term: Term) returns (actual: real)
    ensures actual == Dcg(Map(g, Gains(top, rel)), term)
  {
    actual := 0.0;
    var seen: set<string> := {};
    for rank := 0 to |top|
      invariant forall x :: x in seen <==> x in top[..rank]
      invariant actual == Dcg(Map(g, Gains(top[..rank], rel)), term)
    {
      var identifier := top[rank];
      var gain := if identifier in seen then 0.0 else GainOf(rel, identifier);
      OneMoreRank(top[..rank], identifier, rel, g, term);
      assert top[..rank + 1] == top[..rank] + [identifier];
      actual := actual + term(g(gain), rank + 1);
      seen := seen + {identifier};
    }
    assert top[..|top|] == top;
  }

  /** `ndcg`: missing when nothing is relevant, otherwise the ratio, which needs no clamp. */
  method NdcgAtK(ids: seq<string>, rel: Relevance, k: int, g: real -> real, d: nat -> real)
    returns (r: Result<Option<real>, NdcgError>)
    requires DistinctIds(rel) && GainLaw(g) && DiscountLaw(d)
    ensures r.Err? <==> k < 1
    ensures r.Ok? ==> (r.value.None? <==> !HasPositiveGain(rel))
    ensures r.Ok? && r.value.Some? ==>
      && 0.0 <= r.value.value <= 1.0
      && r.value.value == Ratio(Dcg(Retrieved(ids, rel, k, g), Discounting(d)), Dcg(Ideal(rel, k, g), Discounting(d)))
  {
    if k < 1 {
      return Err(NonPositiveK);
    }
    var positive := ClippedValues(rel);
    var idealGains := Top(Sort(Descending, positive), k);
    var ideal := Dcg(Map(g, idealGains), Discounting(d));
    IdealVanishes(rel, k, g, d);
    if ideal == 0.0 {
      return Ok(None);
    }
    var actual := DiscountedGain(Top(ids, k), rel, g, Discounting(d));
    RatioNeedsNoClamp(ids, rel, k, g, d);
    return Ok(Some(Clamp(Ratio(actual, ideal))));
  }

  // ---------- the bound is attained ----------

  lemma {:induction false} GainsAt(ids: seq<string>, rel: Relevance, i: nat)
    requires i < |ids|
    ensures |Gains(ids, rel)| == |ids|
    ensures Gains(ids, rel)[i] == if ids[i] in ids[..i] then 0.0 else GainOf(rel, ids[i])
  {
    var n := |ids| - 1;
    GainsPrefix(ids, rel, n);
    if i < n {
      GainsAt(ids[..n], rel, i);
      assert ids[..n][..i] == ids[..i];
    }
  }

  lemma {:induction false} GainOfEntry(rel: Relevance, i: nat)
    requires DistinctIds(rel) && i < |rel|
    ensures GainOf(rel, rel[i].0) == Clip(rel[i].1)
  {
    if i < |rel| - 1 {
      GainOfEntry(rel[..|rel| - 1], i);
    }
  }

  function Ids(rel: Relevance): (r: seq<string>)
    ensures |r| == |rel| && forall i | 0 <= i < |rel| :: r[i] == rel[i].0
  {
    seq(|rel|, i requires 0 <= i < |rel| => rel[i].0)
  }

  lemma {:induction false} OwnGains(rel: Relevance, k: nat)
    requires DistinctIds(rel)
    ensures Gains(Top(Ids(rel), k), rel) == Top(ClippedValues(rel), k)
  {
    ClippedAt(rel);
    var top := Top(Ids(rel), k);
    GainsPrefix(top, rel, 0);
    forall i | 0 <= i < |top| ensures Gains(top, rel)[i] == ClippedValues(rel)[i] {
      GainsAt(top, rel, i);
      GainOfEntry(rel, i);
      assert top[i] !in top[..i];
    }
  }

  /** Retrieving the labelled items best first attains the ideal. */
  lemma {:induction false} IdealOrderIsIdeal(rel: Relevance, k: nat, g: real -> real)
    requires DistinctIds(rel) && SortedBy(Descending, ClippedValues(rel))
    ensures Retrieved(Ids(rel), rel, k, g) == Ideal(rel, k, g)
  {
    var s := ClippedValues(rel);
    SortSorts(Descending, s);
    SortedUnique(Descending, Sort(Descending, s), s);
    OwnGains(rel, k);
  }

  // ---------- what each rank is worth ----------

  /** The gain of the document at rank i + 1: nothing for a repeat or an unlabelled document, otherwise its
      label, or zero if that is negative. */
  ghost predicate GainAt(ids: seq<string>, rel: Relevance, i: nat, x: real)
    requires i < |ids|
  {
    if exists j :: 0 <= j < i && ids[j] == ids[i] then x == 0.0
    else
      && (forall v | (ids[i], v) in rel :: x == if v < 0.0 then 0.0 else v)
      && ((forall v :: (ids[i], v) !in rel) ==> x == 0.0)
  }

  lemma {:induction false} GainOfLabel(rel: Relevance, id: string)
    requires DistinctIds(rel)
    ensures forall v | (id, v) in rel :: GainOf(rel, id) == if v < 0.0 then 0.0 else v
    ensures (forall v :: (id, v) !in rel) ==> GainOf(rel, id) == 0.0
  {
    forall v | (id, v) in rel ensures GainOf(rel, id) == if v < 0.0 then 0.0 else v {
      var i :| 0 <= i < |rel| && rel[i] == (id, v);
      GainOfEntry(rel, i);
    }
    if forall v :: (id, v) !in rel {
      NoLabel(rel, id);
    }
  }

  lemma {:induction false} NoLabel(rel: Relevance, id: string)
    requires forall v :: (id, v) !in rel
    ensures GainOf(rel, id) == 0.0
  {
    if rel != [] {
      assert rel[|rel| - 1] in rel && rel[|rel| - 1] == (rel[|rel| - 1].0, rel[|rel| - 1].1);
      NoLabel(rel[..|rel| - 1], id);
    }
  }

  /** The first k documents are judged, each for its gain. */
  lemma RetrievedAt(ids: seq<string>, rel: Relevance, k: nat, g: real -> real, i: nat) returns (x: real)
    requires DistinctIds(rel) && i < k && i < |ids|
    ensures |Retrieved(ids, rel, k, g)| == if k <= |ids| then k else |ids|
    ensures GainAt(ids, rel, i, x) && Retrieved(ids, rel, k, g)[i] == g(x)
  {
    var top := Top(ids, k);
    GainsAt(top, rel, i);
    GainOfLabel(rel, ids[i]);
    x := Gains(top, rel)[i];
    assert top[..i] == ids[..i];
    if j :| 0 <= j < i && ids[j] == ids[i] {
      assert ids[..i][j] == ids[i];
    }
  }

  lemma {:induction false} DcgOfOne(w: seq<real>, r: nat, d: nat -> real)
    requires forall i | 0 <= i < |w| && i != r :: w[i] == 0.0
    ensures Dcg(w, Discounting(d)) == if r < |w| then Discounting(d)(w[r], r + 1) else 0.0
  {
    if w != [] {
      var n := |w| - 1;
      DcgOfOne(w[..n], r, d);
      assert 0.0 * d(|w|) == 0.0;
    }
  }

  /** With a single relevant document the ratio is the discount of the rank it is first found at over the
      discount of rank 1, and zero when it is not among the first k. */
  lemma SingleRelevant(ids: seq<string>, rel: Relevance, k: nat, r: nat, g: real -> real, d: nat -> real)
    requires GainLaw(g) && DiscountLaw(d) && |rel| == 1 && rel[0].1 > 0.0 && k >= 1
    requires r <= |ids| && rel[0].0 !in ids[..r] && (r < |ids| ==> ids[r] == rel[0].0)
    ensures var ratio := Ratio(Dcg(Retrieved(ids, rel, k, g), Discounting(d)), Dcg(Ideal(rel, k, g), Discounting(d)));
      ratio == if r < |ids| && r < k then d(r + 1) / d(1) else 0.0
  {
    SingleSum(ids, rel, k, r, g, d);
    IdealOfOne(rel, k, g, d);
    SingleRatio(g(rel[0].1), d, r + 1);
  }

  lemma SingleSum(ids: seq<string>, rel: Relevance, k: nat, r: nat, g: real -> real, d: nat -> real)
    requires GainLaw(g) && |rel| == 1 && rel[0].1 > 0.0
    requires r <= |ids| && rel[0].0 !in ids[..r] && (r < |ids| ==> ids[r] == rel[0].0)
    ensures Dcg(Retrieved(ids, rel, k, g), Discounting(d))
            == if r < |ids| && r < k then Discounting(d)(g(rel[0].1), r + 1) else 0.0
  {
    SingleWorth(ids, rel, k, r, g);
    DcgOfOne(Retrieved(ids, rel, k, g), r, d);
  }

  lemma SingleWorth(ids: seq<string>, rel: Relevance, k: nat, r: nat, g: real -> real)
    requires GainLaw(g) && |rel| == 1 && rel[0].1 > 0.0
    requires r <= |ids| && rel[0].0 !in ids[..r] && (r < |ids| ==> ids[r] == rel[0].0)
    ensures var w := Retrieved(ids, rel, k, g);
      && |w| == (if k <= |ids| then k else |ids|)
      && forall i | 0 <= i < |w| :: w[i] == if i == r then g(rel[0].1) else 0.0
  {
    var w := Retrieved(ids, rel, k, g);
    GainsPrefix(Top(ids, k), rel, 0);
    forall i | 0 <= i < |w| ensures w[i] == if i == r then g(rel[0].1) else 0.0 {
      var x := RetrievedAt(ids, rel, k, g, i);
      OneLabel(ids, rel, r, i, x);
    }
  }

  lemma SingleRatio(x: real, d: nat -> real, rank: nat)
    requires x > 0.0 && d(1) > 0.0
    ensures Ratio(Discounting(d)(x, rank), Discounting(d)(x, 1)) == d(rank) / d(1)
    ensures Ratio(0.0, Discounting(d)(x, 1)) == 0.0
  {
    CancelGain(x, d(rank), d(1));
  }

  lemma OneLabel(ids: seq<string>, rel: Relevance, r: nat, i: nat, x: real)
    requires |rel| == 1 && rel[0].1 > 0.0
    requires r <= |ids| && rel[0].0 !in ids[..r] && (r < |ids| ==> ids[r] == rel[0].0) && i < |ids|
    requires GainAt(ids, rel, i, x)
    ensures x == if i == r then rel[0].1 else 0.0
  {
    var (id, v) := rel[0];
    assert forall u :: (ids[i], u) in rel <==> ids[i] == id && u == v;
    if i < r {
      assert ids[i] == ids[..r][i];
      assert ids[i] in ids[..r];
    } else if i == r {
      assert forall j | 0 <= j < i :: ids[j] == ids[..r][j];
      assert (ids[i], v) in rel;
    } else if ids[i] == id {
      assert ids[r] == ids[i];
    }
  }

  lemma IdealOfOne(rel: Relevance, k: nat, g: real -> real, d: nat -> real)
    requires |rel| == 1 && rel[0].1 > 0.0 && k >= 1
    ensures Dcg(Ideal(rel, k, g), Discounting(d)) == Discounting(d)(g(rel[0].1), 1)
  {
    ClippedAt(rel);
    var clipped := ClippedValues(rel);
    SortPermutes(Descending, clipped);
    var sorted := Sort(Descending, clipped);
    assert sorted[0] in sorted;
    assert sorted[0] == clipped[0];
    DcgOfOne(Ideal(rel, k, g), 0, d);
  }

  lemma CancelGain(x: real, a: real, b: real)
    requires x > 0.0 && b > 0.0
    ensures x * b > 0.0 && (x * a) / (x * b) == a / b
  {
    var q := a / b;
    assert q * b == a;
    assert q * (x * b) == x * (q * b) == x * a;
  }
}
