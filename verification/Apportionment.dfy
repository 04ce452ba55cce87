/**
 Largest-remainder apportionment in exact integers: how many records each
 stratum of a proportional sample gets.
 */
module Apportionment {
  import opened Ordering

  /** Stratum sizes by label. */
  type Counts = map<string, nat>

  function SumOf(labels: seq<string>, values: map<string, nat>): nat
    requires forall l | l in labels :: l in values
  {
    if labels == [] then 0 else values[labels[0]] + SumOf(labels[1..], values)
  }

  /** The number of records in all strata. */
  ghost function Population(counts: Counts): nat {
    ListingLists(counts.Keys);
    SumOf(Listing(counts.Keys), counts)
  }

  /** A sample no larger than the population, and no empty stratum. */
  ghost predicate Allocatable(counts: Counts, size: nat) {
    size <= Population(counts) && forall l | l in counts :: counts[l] > 0
  }

  /** The whole part of `size * n / population`. */
  function Base(n: nat, size: nat, population: nat): (q: nat)
    requires population > 0
  {
    DivNat(size * n, population);
    size * n / population
  }

  /** The fraction left over, as a numerator over the population. */
  function Rest(n: nat, size: nat, population: nat): (r: nat)
    requires population > 0
    ensures r < population
  {
    size * n % population
  }

  lemma DivNat(x: nat, n: nat)
    requires n > 0
    ensures x / n >= 0
  {
  }

  lemma DivMod(n: nat, size: nat, population: nat)
    requires population > 0
    ensures Base(n, size, population) * population + Rest(n, size, population) == size * n
  {
  }

  /** Larger remainder first, ties by label. */
  predicate RemainderLeq(a: (nat, string), b: (nat, string)) {
    a.0 > b.0 || (a.0 == b.0 && StringLeq(a.1, b.1))
  }

  function Remainder(counts: Counts, size: nat, population: nat): string -> (nat, string)
    requires population > 0
  {
    (name: string) => (if name in counts then Rest(counts[name], size, population) else 0, name)
  }

  /** Quotas of the labels seen so far, before the leftover seats. */
  ghost function Bases(counts: Counts, size: nat): map<string, nat>
    requires Population(counts) > 0
  {
    map l | l in counts :: Base(counts[l], size, Population(counts))
  }

  ghost function Ranked(counts: Counts, size: nat): seq<(nat, string)>
    requires Population(counts) > 0
  {
    Sort(RemainderLeq, Map(Remainder(counts, size, Population(counts)), Listing(counts.Keys)))
  }

  /** Seats the whole parts leave over. */
  ghost function Leftover(counts: Counts, size: nat): int
    requires Population(counts) > 0
  {
    ListingLists(counts.Keys);
    size - SumOf(Listing(counts.Keys), Bases(counts, size))
  }

  // ---------- arithmetic of the leftover ----------

  function SumRests(ranked: seq<(nat, string)>): nat {
    if ranked == [] then 0 else ranked[0].0 + SumRests(ranked[1..])
  }

  lemma {:induction false} RestsAndBases(labels: seq<string>, counts: Counts, size: nat, population: nat)
    requires population > 0 && forall l | l in labels :: l in counts
    ensures var bases := map l | l in counts :: Base(counts[l], size, population);
      SumOf(labels, bases) * population + SumRests(Map(Remainder(counts, size, population), labels))
          == size * SumOf(labels, counts)
  {
    if labels != [] {
      var bases := map l | l in counts :: Base(counts[l], size, population);
      var rests := Map(Remainder(counts, size, population), labels);
      RestsAndBases(labels[1..], counts, size, population);
      DivMod(counts[labels[0]], size, population);
      assert rests[1..] == Map(Remainder(counts, size, population), labels[1..]);
      Distribute(bases[labels[0]], SumOf(labels[1..], bases), population);
      Distribute(counts[labels[0]], SumOf(labels[1..], counts), size);
    }
  }

  lemma Distribute(x: int, y: int, k: int)
    ensures (x + y) * k == x * k + y * k && k * (x + y) == k * x + k * y
  {
  }

  lemma {:induction false} SumRestsFront(ranked: seq<(nat, string)>, i: nat)
    requires i < |ranked|
    ensures SumRests(ranked) == ranked[i].0 + SumRests(ranked[..i] + ranked[i + 1..])
  {
    if i == 0 {
      assert ranked[..0] + ranked[1..] == ranked[1..];
    } else {
      SumRestsFront(ranked[1..], i - 1);
      var rest := ranked[..i] + ranked[i + 1..];
      assert rest[1..] == ranked[1..][..i - 1] + ranked[1..][i..];
    }
  }

  lemma {:induction false} SumRestsPermutes(a: seq<(nat, string)>, b: seq<(nat, string)>)
    requires multiset(a) == multiset(b)
    ensures SumRests(a) == SumRests(b)
  {
    SameElements(a, b);
    if a != [] {
      assert a[0] in b;
      var i :| 0 <= i < |b| && b[i] == a[0];
      SameRest(a, b, i);
      SumRestsFront(a, 0);
      SumRestsFront(b, i);
      SumRestsPermutes(a[..0] + a[1..], b[..i] + b[i + 1..]);
    }
  }

  /** Remainders below `bound`, of which only the first j can be positive, sum to at most j * bound,
      and to less when j > 0. */
  lemma {:induction false} FewRests(ranked: seq<(nat, string)>, j: nat, bound: nat)
    requires j <= |ranked|
    requires forall i | 0 <= i < |ranked| :: ranked[i].0 < bound && (i >= j ==> ranked[i].0 == 0)
    ensures SumRests(ranked) <= j * bound
    ensures j > 0 ==> SumRests(ranked) < j * bound
  {
    if ranked != [] {
      FewRests(ranked[1..], if j == 0 then 0 else j - 1, bound);
      if j > 0 {
        Distribute(j - 1, 1, bound);
      }
    }
  }

  lemma MultiplyStrict(x: int, y: int, k: int)
    requires k > 0 && x > y
    ensures x * k > y * k
  {
  }

  lemma CancelLeft(x: int, y: int, k: int)
    requires k > 0 && x * k <= y * k
    ensures x <= y
  {
    if x > y {
      MultiplyStrict(x, y, k);
    }
  }

  // ---------- who gets the leftover seats ----------

  lemma RemainderOrder(names: seq<string>, counts: Counts, size: nat, population: nat)
    requires population > 0
    ensures TotalOn(RemainderLeq, Map(Remainder(counts, size, population), names))
    ensures AntisymmetricOn(RemainderLeq, Map(Remainder(counts, size, population), names))
  {
    StringOrder();
  }

  /** The leftover seats are no more than the strata with a positive remainder, so each of
      them goes to such a stratum. */
  lemma LeftoverFits(counts: Counts, size: nat)
    requires Allocatable(counts, size) && Population(counts) > 0
    ensures 0 <= Leftover(counts, size) <= |Ranked(counts, size)|
    ensures forall i | 0 <= i < Leftover(counts, size) :: Ranked(counts, size)[i].0 > 0
    ensures Leftover(counts, size) * Population(counts) == SumRests(Ranked(counts, size))
  {
    var population, ranked := Population(counts), Ranked(counts, size);
    LeftoverSum(counts, size);
    var leftover := Leftover(counts, size);
    RankedSorts(counts, size);
    RankedEntries(counts, size);
    Descending(ranked);
    if leftover < 0 {
      CancelLeft(0, leftover, population);
      assert false;
    }
    FewRests(ranked, |ranked|, population);
    CancelLeft(leftover, |ranked|, population);
    forall i | 0 <= i < leftover ensures ranked[i].0 > 0 {
      if ranked[i].0 == 0 {
        FewRests(ranked, i, population);
        CancelLeft(leftover, i, population);
        assert false;
      }
    }
  }

  lemma LeftoverSum(counts: Counts, size: nat)
    requires Population(counts) > 0
    ensures Leftover(counts, size) * Population(counts) == SumRests(Ranked(counts, size))
  {
    var names, population := Listing(counts.Keys), Population(counts);
    ListingLists(counts.Keys);
    RestsAndBases(names, counts, size, population);
    RestsOf(Map(Remainder(counts, size, population), names));
    Rearrange(size, SumOf(names, Bases(counts, size)), population, SumRests(Ranked(counts, size)));
  }

  lemma {:induction false} RestsOf(rests: seq<(nat, string)>)
    ensures SumRests(Sort(RemainderLeq, rests)) == SumRests(rests)
  {
    SortPermutes(RemainderLeq, rests);
    SumRestsPermutes(Sort(RemainderLeq, rests), rests);
  }

  lemma Rearrange(size: int, bases: int, population: int, rests: int)
    requires bases * population + rests == size * population
    ensures (size - bases) * population == rests
  {
  }

  function NameOf(): ((nat, string)) -> string { (r: (nat, string)) => r.1 }

  lemma RankedSorts(counts: Counts, size: nat)
    requires Population(counts) > 0
    ensures var ranked := Ranked(counts, size);
      && SortedBy(RemainderLeq, ranked)
      && |ranked| == |Listing(counts.Keys)|
      && multiset(ranked) == multiset(Map(Remainder(counts, size, Population(counts)), Listing(counts.Keys)))
  {
    RemainderOrder(Listing(counts.Keys), counts, size, Population(counts));
    SortSorts(RemainderLeq, Map(Remainder(counts, size, Population(counts)), Listing(counts.Keys)));
  }

  /** Every ranked entry is a stratum with its own remainder, and no stratum is ranked twice. */
  lemma RankedEntries(counts: Counts, size: nat)
    requires Population(counts) > 0
    ensures var ranked := Ranked(counts, size);
      && (forall i | 0 <= i < |ranked| ::
            ranked[i].1 in counts && ranked[i].0 == Rest(counts[ranked[i].1], size, Population(counts)))
      && Distinct(Map(NameOf(), ranked))
  {
    ListingLists(counts.Keys);
    RankedSorts(counts, size);
    PermutedRests(Listing(counts.Keys), counts, size, Population(counts), Ranked(counts, size));
  }

  lemma Descending(ranked: seq<(nat, string)>)
    requires SortedBy(RemainderLeq, ranked)
    ensures forall i, j | 0 <= i <= j < |ranked| :: ranked[i].0 >= ranked[j].0
  {
    forall i, j | 0 <= i < j < |ranked| ensures ranked[i].0 >= ranked[j].0 {
      assert RemainderLeq(ranked[i], ranked[j]);
    }
  }

  lemma PermutedRests(names: seq<string>, counts: Counts, size: nat, population: nat, ranked: seq<(nat, string)>)
    requires population > 0 && Distinct(names) && forall l | l in names :: l in counts
    requires multiset(ranked) == multiset(Map(Remainder(counts, size, population), names))
    ensures forall i | 0 <= i < |ranked| ::
              ranked[i].1 in counts && ranked[i].0 == Rest(counts[ranked[i].1], size, population)
    ensures Distinct(Map(NameOf(), ranked))
  {
    var rests := Map(Remainder(counts, size, population), names);
    SameElements(ranked, rests);
    forall i | 0 <= i < |ranked|
      ensures ranked[i].1 in counts && ranked[i].0 == Rest(counts[ranked[i].1], size, population)
    {
      assert ranked[i] in ranked;
      var k :| 0 <= k < |rests| && rests[k] == ranked[i];
      assert names[k] in names;
    }
    MapPermutes(NameOf(), rests, ranked);
    assert Map(NameOf(), rests) == names;
    DistinctPermutation(names, Map(NameOf(), ranked));
  }

  /** The strata that get one seat beyond their whole part. */
  ghost function Winners(counts: Counts, size: nat): seq<string>
    requires Allocatable(counts, size) && Population(counts) > 0
  {
    LeftoverFits(counts, size);
    Map(NameOf(), Ranked(counts, size)[..Leftover(counts, size)])
  }

  /** Whole parts, plus one seat for each listed winner. */
  ghost function Granted(bases: map<string, nat>, winners: seq<string>): map<string, nat> {
    map l | l in bases :: bases[l] + if l in winners then 1 else 0
  }

  /** The final quota of every stratum. */
  ghost function Quotas(counts: Counts, size: nat): (q: map<string, nat>)
    requires Allocatable(counts, size)
    ensures q.Keys == counts.Keys
  {
    if Population(counts) == 0 then
      EmptyPopulation(counts, size);
      map[]
    else
      Granted(Bases(counts, size), Winners(counts, size))
  }

  lemma WinnersFacts(counts: Counts, size: nat)
    requires Allocatable(counts, size) && Population(counts) > 0
    ensures var winners := Winners(counts, size);
      && |winners| == Leftover(counts, size)
      && Distinct(winners)
      && (forall l | l in winners :: l in counts && Rest(counts[l], size, Population(counts)) > 0)
  {
    var ranked, leftover := Ranked(counts, size), Leftover(counts, size);
    LeftoverFits(counts, size);
    RankedEntries(counts, size);
    assert Winners(counts, size) == Map(NameOf(), ranked)[..leftover];
    assert forall i | 0 <= i < leftover :: ranked[i].0 == Rest(counts[ranked[i].1], size, Population(counts));
  }

  lemma {:induction false} SumOfAgrees(names: seq<string>, a: map<string, nat>, b: map<string, nat>)
    requires forall l | l in names :: l in a && l in b && a[l] == b[l]
    ensures SumOf(names, a) == SumOf(names, b)
  {
    if names != [] {
      SumOfAgrees(names[1..], a, b);
    }
  }

  /** One more seat for one stratum is one more seat in all. */
  lemma {:induction false} SumOfIncrement(names: seq<string>, a: map<string, nat>, b: map<string, nat>, name: string)
    requires Distinct(names) && name in names
    requires forall l | l in names :: l in a && l in b && b[l] == a[l] + if l == name then 1 else 0
    ensures SumOf(names, b) == SumOf(names, a) + 1
  {
    if names[0] == name {
      assert forall l | l in names[1..] :: l != name;
      SumOfAgrees(names[1..], a, b);
    } else {
      SumOfIncrement(names[1..], a, b, name);
    }
  }

  lemma {:induction false} GrantedSum(names: seq<string>, bases: map<string, nat>, winners: seq<string>)
    requires Distinct(names) && Distinct(winners)
    requires forall l | l in names :: l in bases
    requires forall l | l in winners :: l in names
    ensures SumOf(names, Granted(bases, winners)) == SumOf(names, bases) + |winners|
  {
    if winners == [] {
      SumOfAgrees(names, Granted(bases, winners), bases);
    } else {
      var n := |winners| - 1;
      GrantedSum(names, bases, winners[..n]);
      forall l ensures l in winners <==> l in winners[..n] || l == winners[n] {
      }
      assert winners[n] !in winners[..n];
      SumOfIncrement(names, Granted(bases, winners[..n]), Granted(bases, winners), winners[n]);
    }
  }

  lemma EmptyPopulation(counts: Counts, size: nat)
    requires Allocatable(counts, size) && Population(counts) == 0
    ensures counts == map[] && Listing(counts.Keys) == [] && size == 0
  {
    ListingLists(counts.Keys);
    if counts != map[] {
      var name :| name in counts;
      assert name in Listing(counts.Keys);
      SumOfPositive(Listing(counts.Keys), counts, name);
    }
    assert counts.Keys == {};
    ListingUnique({}, []);
  }

  lemma {:induction false} SumOfPositive(names: seq<string>, values: map<string, nat>, name: string)
    requires name in names && forall l | l in names :: l in values
    ensures SumOf(names, values) >= values[name]
  {
    if names[0] != name {
      SumOfPositive(names[1..], values, name);
    }
  }

  /** Quotas sum to the sample size. */
  lemma QuotasSum(counts: Counts, size: nat)
    requires Allocatable(counts, size)
    ensures (forall l | l in Listing(counts.Keys) :: l in Quotas(counts, size)) &&
            SumOf(Listing(counts.Keys), Quotas(counts, size)) == size
  {
    ListingLists(counts.Keys);
    if Population(counts) == 0 {
      EmptyPopulation(counts, size);
    } else {
      WinnersFacts(counts, size);
      GrantedSum(Listing(counts.Keys), Bases(counts, size), Winners(counts, size));
    }
  }

  /** A quota is the exact share rounded down or up, and never more than the stratum holds. */
  lemma QuotaRule(counts: Counts, size: nat, name: string)
    requires Allocatable(counts, size) && name in counts
    ensures var q := Quotas(counts, size)[name];
      && q * Population(counts) < size * counts[name] + Population(counts)
      && size * counts[name] < q * Population(counts) + Population(counts)
      && q <= counts[name]
  {
    var n, population := counts[name], Population(counts);
    QuotasSum(counts, size);
    ListingLists(counts.Keys);
    SumOfPositive(Listing(counts.Keys), counts, name);
    WinnersFacts(counts, size);
    DivMod(n, size, population);
    RoundedShare(n, size, population, Base(n, size, population), Rest(n, size, population), Quotas(counts, size)[name]);
  }

  lemma QuotaFits(counts: Counts, size: nat, name: string)
    requires Allocatable(counts, size) && name in counts
    ensures Quotas(counts, size)[name] <= counts[name]
  {
    QuotaRule(counts, size, name);
  }

  lemma RoundedShare(n: nat, size: nat, population: nat, base: nat, rest: nat, q: nat)
    requires 0 < population && size <= population
    requires base * population + rest == size * n && rest < population
    requires q == base || (q == base + 1 && rest > 0)
    ensures q * population < size * n + population
    ensures size * n < q * population + population
    ensures q <= n
  {
    Distribute(base, 1, population);
    Scale(size, population, n);
    AtMostStratum(q, n, population, size * n);
  }

  lemma AtMostStratum(q: nat, n: nat, population: nat, share: nat)
    requires population > 0 && q * population < share + population && share <= n * population
    ensures q <= n
  {
    Distribute(n, 1, population);
    CancelStrict(q, n + 1, population);
  }

  lemma Scale(x: nat, y: nat, n: nat)
    requires x <= y
    ensures x * n <= n * y
  {
    Distribute(x, y - x, n);
    NonNegative(y - x, n);
  }

  lemma CancelStrict(x: int, y: int, k: int)
    requires k > 0 && x * k < y * k
    ensures x < y
  {
    if x > y {
      MultiplyStrict(x, y, k);
    }
  }

  lemma NonNegative(x: nat, y: nat)
    ensures x * y >= 0
  {
  }

  lemma RankOf(counts: Counts, size: nat, name: string) returns (i: nat)
    requires name in counts && Population(counts) > 0
    ensures i < |Ranked(counts, size)|
    ensures Ranked(counts, size)[i] == (Rest(counts[name], size, Population(counts)), name)
  {
    ListingLists(counts.Keys);
    RankedSorts(counts, size);
    i := PlaceOf(Listing(counts.Keys), Remainder(counts, size, Population(counts)), Ranked(counts, size), name);
  }

  lemma PlaceOf<X, Y>(xs: seq<X>, f: X -> Y, ys: seq<Y>, x: X) returns (i: nat)
    requires multiset(ys) == multiset(Map(f, xs)) && x in xs
    ensures i < |ys| && ys[i] == f(x)
  {
    var k :| 0 <= k < |xs| && xs[k] == x;
    var y := Map(f, xs)[k];
    assert y in multiset(Map(f, xs));
    assert y in multiset(ys);
    i :| 0 <= i < |ys| && ys[i] == y;
  }

  /** A stratum that got a seat for its remainder had a remainder at least as large as any that
      did not, and the smaller label among equals. */
  lemma LargestRemaindersWin(counts: Counts, size: nat, winner: string, loser: string)
    requires Allocatable(counts, size) && Population(counts) > 0
    requires winner in counts && winner in Winners(counts, size)
    requires loser in counts && loser !in Winners(counts, size)
    ensures var population := Population(counts);
      RemainderLeq((Rest(counts[winner], size, population), winner), (Rest(counts[loser], size, population), loser))
  {
    LeftoverFits(counts, size);
    RankedSorts(counts, size);
    var i := RankOf(counts, size, winner);
    var j := RankOf(counts, size, loser);
    SeatedFirst(counts, size, i);
    SeatedFirst(counts, size, j);
  }

  lemma SeatedFirst(counts: Counts, size: nat, i: nat)
    requires Allocatable(counts, size) && Population(counts) > 0 && i < |Ranked(counts, size)|
    ensures Ranked(counts, size)[i].1 in Winners(counts, size) <==> i < Leftover(counts, size)
  {
    var ranked, winners := Ranked(counts, size), Winners(counts, size);
    LeftoverFits(counts, size);
    RankedEntries(counts, size);
    assert forall k | 0 <= k < |ranked| :: Map(NameOf(), ranked)[k] == ranked[k].1;
    if i < Leftover(counts, size) {
      assert winners[i] == ranked[i].1;
    }
  }

  /** The whole parts, in label order. */
  method WholeParts(names: seq<string>, counts: Counts, size: nat, population: nat)
    returns (quotas: map<string, nat>, remainders: seq<(nat, string)>, seated: nat)
    requires population > 0
    requires forall l | l in names :: l in counts
    ensures quotas == map l | l in names :: Base(counts[l], size, population)
    ensures remainders == Map(Remainder(counts, size, population), names)
    ensures seated == SumOf(names, quotas)
  {
    ghost var bases := map l | l in names :: Base(counts[l], size, population);
    quotas, remainders, seated := map[], [], 0;
    for i := 0 to |names|
      invariant quotas == map l | l in names[..i] :: Base(counts[l], size, population)
      invariant remainders == Map(Remainder(counts, size, population), names[..i])
      invariant seated == SumOf(names[..i], bases)
    {
      var base := Base(counts[names[i]], size, population);
      MapOneMore(Remainder(counts, size, population), names, i);
      SumOneMore(names, i, bases);
      quotas := quotas[names[i] := base];
      seated := seated + base;
      remainders := remainders + [(Rest(counts[names[i]], size, population), names[i])];
    }
    assert names[..|names|] == names;
  }

  /** The two loops over the sorted labels. `population` is the number of records. */
  method Apportion(counts: Counts, size: nat, population: nat) returns (quotas: map<string, nat>)
    requires Allocatable(counts, size) && population == Population(counts)
    ensures quotas == Quotas(counts, size)
  {
    if population == 0 {
      EmptyPopulation(counts, size);
      return map[];
    }
    var names := SortedKeys(counts.Keys);
    ListingLists(counts.Keys);
    var bases, remainders, seated := WholeParts(names, counts, size, population);
    assert bases == Bases(counts, size);
    LeftoverFits(counts, size);
    RankedEntries(counts, size);
    var ranked := Sort(RemainderLeq, remainders)[..size - seated];
    quotas := Grant(bases, ranked);
  }

  lemma {:induction false} SumOneMore(names: seq<string>, i: nat, values: map<string, nat>)
    requires i < |names| && forall l | l in names :: l in values
    ensures SumOf(names[..i + 1], values) == SumOf(names[..i], values) + values[names[i]]
  {
    if i == 0 {
      assert names[..1] == [names[0]];
    } else {
      assert names[..i + 1][1..] == names[1..][..i] && names[..i][1..] == names[1..][..i - 1];
      SumOneMore(names[1..], i - 1, values);
    }
  }

  /** `quotas[label] += 1` for each ranked stratum. */
  method Grant(bases: map<string, nat>, ranked: seq<(nat, string)>) returns (quotas: map<string, nat>)
    requires Distinct(Map(NameOf(), ranked))
    requires forall r | r in ranked :: r.1 in bases
    ensures quotas == Granted(bases, Map(NameOf(), ranked))
  {
    quotas := bases;
    for i := 0 to |ranked|
      invariant quotas == Granted(bases, Map(NameOf(), ranked[..i]))
    {
      var name := ranked[i].1;
      assert ranked[i] in ranked;
      MapOneMore(NameOf(), ranked, i);
      assert name !in Map(NameOf(), ranked[..i]) by {
        assert Map(NameOf(), ranked)[..i] == Map(NameOf(), ranked[..i]);
      }
      quotas := quotas[name := quotas[name] + 1];
    }
    assert ranked[..|ranked|] == ranked;
  }

  /** In numbers: a stratum whose quota is above the whole part of its share left a larger remainder than
      one whose quota is not, or an equal one and has the smaller label. */
  lemma ExtraSeatsByRemainder(counts: Counts, size: nat, winner: string, loser: string)
    requires Allocatable(counts, size) && Population(counts) > 0 && winner in counts && loser in counts
    requires Quotas(counts, size)[winner] > size * counts[winner] / Population(counts)
    requires Quotas(counts, size)[loser] <= size * counts[loser] / Population(counts)
    ensures var population := Population(counts);
            var won, lost := size * counts[winner] % population, size * counts[loser] % population;
      won > lost || (won == lost && StringLeq(winner, loser))
  {
    var population := Population(counts);
    assert Base(counts[winner], size, population) == size * counts[winner] / population;
    assert Base(counts[loser], size, population) == size * counts[loser] / population;
    LargestRemaindersWin(counts, size, winner, loser);
  }
}
