/**
 Deterministic and stratified sampling. The sample is a function of the set of
 records, the seed and the size: import order does not show.
 */
module Sampling {
  import opened Apportionment
  import opened Datasets
  import opened JsonValues
  import opened Ordering
  import opened Results

  type Record = DatasetRecord<Json>

  /** There is no error for an empty list of strata: see StratifiedSample. */
  datatype SampleError = SizeOutOfRange | SeedOutOfRange

  /** Seeds are unsigned 64-bit integers. */
  const SEEDS := 0x1_0000_0000_0000_0000

  /** The keyed hash of a record key, and the derived seed of a stratum. */
  datatype Hashing = Hashing(score: (int, string) -> int, stratumSeed: (int, string) -> nat) {
    /** A derived seed is read from eight bytes. */
    ghost predicate Lawful() {
      forall seed, name :: stratumSeed(seed, name) < SEEDS
    }
  }

  /** Score first, then key. */
  function RankLeq(score: (int, string) -> int, seed: int): (Record, Record) -> bool {
    (a: Record, b: Record) =>
      score(seed, a.key) < score(seed, b.key) ||
      (score(seed, a.key) == score(seed, b.key) && StringLeq(a.key, b.key))
  }

  function KeyLeq(): (Record, Record) -> bool { (a: Record, b: Record) => StringLeq(a.key, b.key) }

  ghost predicate DistinctKeys(records: seq<Record>) {
    forall i, j | 0 <= i < j < |records| :: records[i].key != records[j].key
  }

  /** `deterministic_sample` */
  function DeterministicSample(h: Hashing, records: seq<Record>, size: int, seed: int): Result<seq<Record>,
                               SampleError> {
    if !(0 <= size <= |records|) then Err(SizeOutOfRange)
    else if records != [] && !(0 <= seed < SEEDS) then Err(SeedOutOfRange)
    else
      SortPermutes(RankLeq(h.score, seed), records);
      Ok(Sort(RankLeq(h.score, seed), records)[..size])
  }

  lemma RankIsTotal(score: (int, string) -> int, seed: int, records: seq<Record>)
    ensures TotalOn(RankLeq(score, seed), records)
    ensures DistinctKeys(records) ==> AntisymmetricOn(RankLeq(score, seed), records)
  {
    StringOrder();
    var leq := RankLeq(score, seed);
    forall x: Record, y: Record
      ensures leq(x, y) || leq(y, x)
      ensures leq(x, y) && leq(y, x) ==> x.key == y.key
    {
      LexTotal(CharLeq, x.key, y.key);
    }
    forall x: Record, y: Record, z: Record | leq(x, y) && leq(y, z) ensures leq(x, z) {
      if score(seed, x.key) == score(seed, y.key) == score(seed, z.key) {
        LexTransitive(CharLeq, x.key, y.key, z.key);
      }
    }
  }

  lemma KeyIsTotal(records: seq<Record>)
    ensures TotalOn(KeyLeq(), records)
    ensures DistinctKeys(records) ==> AntisymmetricOn(KeyLeq(), records)
  {
    StringOrder();
  }

  /** By the keyed hash of the record key under this seed; equal hashes by the key itself. */
  ghost predicate RanksBefore(score: (int, string) -> int, seed: int, a: Record, b: Record) {
    if score(seed, a.key) == score(seed, b.key) then StringLeq(a.key, b.key)
    else score(seed, a.key) < score(seed, b.key)
  }

  /** A sample is refused exactly when it is larger than the population or negative, or, with anything to
      rank, when the seed is no unsigned 64-bit integer. */
  lemma SampleFailsExactly(h: Hashing, records: seq<Record>, size: int, seed: int)
    ensures DeterministicSample(h, records, size, seed) == Err(SizeOutOfRange) <==> size < 0 || size > |records|
    ensures DeterministicSample(h, records, size, seed) == Err(SeedOutOfRange) <==>
              0 <= size <= |records| && |records| > 0 && (seed < 0 || seed > 18_446_744_073_709_551_615)
  {
  }

  /** The sample holds exactly `size` records, the best ranked ones, in rank order: it splits the
      population into chosen and rest with every chosen record ranked before every other. */
  lemma SampleIsBestRanked(h: Hashing, records: seq<Record>, size: int, seed: int) returns (rest: seq<Record>)
    requires DeterministicSample(h, records, size, seed).Ok?
    ensures var chosen := DeterministicSample(h, records, size, seed).value;
      && |chosen| == size
      && multiset(chosen) + multiset(rest) == multiset(records)
      && (forall x, y | x in chosen && y in rest :: RanksBefore(h.score, seed, x, y))
      && (forall i, j | 0 <= i < j < |chosen| :: RanksBefore(h.score, seed, chosen[i], chosen[j]))
  {
    var ranked := Sort(RankLeq(h.score, seed), records);
    RankIsTotal(h.score, seed, records);
    SortSorts(RankLeq(h.score, seed), records);
    rest := ranked[size..];
    assert ranked == ranked[..size] + rest;
    forall x: Record, y: Record ensures RankLeq(h.score, seed)(x, y) <==> RanksBefore(h.score, seed, x, y) {
    }
    assert forall i, j | 0 <= i < j < |ranked| :: RankLeq(h.score, seed)(ranked[i], ranked[j]);
  }

  /** Import order does not matter when keys are distinct. */
  lemma SampleOrderIndependent(h: Hashing, a: seq<Record>, b: seq<Record>, size: int, seed: int)
    requires multiset(a) == multiset(b) && DistinctKeys(a)
    ensures DeterministicSample(h, a, size, seed) == DeterministicSample(h, b, size, seed)
  {
    SameElements(a, b);
    RankIsTotal(h.score, seed, a);
    SortOrderIndependent(RankLeq(h.score, seed), a, b);
  }

  // ---------- strata ----------

  /** The records of one stratum, in input order. */
  function Members(records: seq<Record>, stratum: Record -> string, name: string): seq<Record> {
    if records == [] then []
    else
      var n := |records| - 1;
      Members(records[..n], stratum, name) + if stratum(records[n]) == name then [records[n]] else []
  }

  ghost function Names(records: seq<Record>, stratum: Record -> string): set<string> {
    set r | r in records :: stratum(r)
  }

  ghost function Strata(records: seq<Record>, stratum: Record -> string): map<string, seq<Record>> {
    map name | name in Names(records, stratum) :: Members(records, stratum, name)
  }

  ghost function CountsOf(records: seq<Record>, stratum: Record -> string): Counts {
    map name | name in Names(records, stratum) :: |Members(records, stratum, name)|
  }

  lemma {:induction false} MembersOccur(records: seq<Record>, stratum: Record -> string, name: string, r: Record)
    ensures multiset(Members(records, stratum, name))[r] == if stratum(r) == name then multiset(records)[r] else 0
  {
    if records != [] {
      var n := |records| - 1;
      MembersOccur(records[..n], stratum, name, r);
      assert records == records[..n] + [records[n]];
    }
  }

  lemma {:induction false} MembersPermute(a: seq<Record>, b: seq<Record>, stratum: Record -> string, name: string)
    requires multiset(a) == multiset(b)
    ensures multiset(Members(a, stratum, name)) == multiset(Members(b, stratum, name))
  {
    forall r ensures multiset(Members(a, stratum, name))[r] == multiset(Members(b, stratum, name))[r] {
      MembersOccur(a, stratum, name, r);
      MembersOccur(b, stratum, name, r);
    }
  }

  lemma {:induction false} MembersOnly(records: seq<Record>, stratum: Record -> string, name: string)
    ensures forall r :: r in Members(records, stratum, name) <==> r in records && stratum(r) == name
  {
    forall r ensures r in Members(records, stratum, name) <==> r in records && stratum(r) == name {
      MembersOccur(records, stratum, name, r);
      assert r in multiset(records) <==> r in records;
      assert r in multiset(Members(records, stratum, name)) <==> r in Members(records, stratum, name);
    }
  }

  lemma {:induction false} MembersDistinct(records: seq<Record>, stratum: Record -> string, name: string)
    requires DistinctKeys(records)
    ensures DistinctKeys(Members(records, stratum, name))
  {
    if records != [] {
      var n := |records| - 1;
      MembersDistinct(records[..n], stratum, name);
      MembersOnly(records[..n], stratum, name);
      var earlier := Members(records[..n], stratum, name);
      forall i | 0 <= i < |earlier| ensures earlier[i].key != records[n].key {
        assert earlier[i] in earlier;
      }
    }
  }

  function OneIn(records: seq<Record>, stratum: Record -> string, names: seq<string>): map<string, nat> {
    map name | name in names :: |Members(records, stratum, name)|
  }

  lemma {:induction false} SumOfZeros(names: seq<string>, values: map<string, nat>)
    requires forall l | l in names :: l in values && values[l] == 0
    ensures SumOf(names, values) == 0
  {
    if names != [] {
      SumOfZeros(names[1..], values);
    }
  }

  /** Every record is in exactly one stratum. */
  lemma {:induction false} StrataPartition(records: seq<Record>, stratum: Record -> string, names: seq<string>)
    requires Distinct(names) && forall r | r in records :: stratum(r) in names
    ensures SumOf(names, OneIn(records, stratum, names)) == |records|
  {
    if records == [] {
      SumOfZeros(names, OneIn(records, stratum, names));
    } else {
      var n := |records| - 1;
      StrataPartition(records[..n], stratum, names);
      assert records[n] in records;
      SumOfIncrement(names, OneIn(records[..n], stratum, names), OneIn(records, stratum, names), stratum(records[n]));
    }
  }

  lemma CountsAllocate(records: seq<Record>, stratum: Record -> string, size: nat)
    requires size <= |records|
    ensures Population(CountsOf(records, stratum)) == |records|
    ensures Allocatable(CountsOf(records, stratum), size)
  {
    var counts := CountsOf(records, stratum);
    var names := Listing(counts.Keys);
    ListingLists(counts.Keys);
    assert counts.Keys == Names(records, stratum);
    StrataPartition(records, stratum, names);
    SumOfAgrees(names, counts, OneIn(records, stratum, names));
    forall name | name in counts ensures counts[name] > 0 {
      MembersOnly(records, stratum, name);
      var r :| r in records && stratum(r) == name;
      assert r in Members(records, stratum, name);
    }
  }

  // ---------- the stratified sample ----------

  /** Quotas that name exactly the strata and ask no stratum for more than it has. */
  ghost predicate Fits(quotas: map<string, nat>, records: seq<Record>, stratum: Record -> string) {
    && quotas.Keys == Names(records, stratum)
    && forall name | name in quotas :: quotas[name] <= |Members(records, stratum, name)|
  }

  /** The inner samples, by stratum. */
  ghost function Pick(h: Hashing, records: seq<Record>, stratum: Record -> string, quotas: map<string, nat>, seed: int)
    : string -> Result<seq<Record>, SampleError>
  {
    (name: string) =>
      DeterministicSample(h, Members(records, stratum, name), if name in quotas then quotas[name] else 0,
                          h.stratumSeed(seed, name))
  }

  /** A quota never exceeds its stratum, so the inner sampling never fails. */
  lemma InnerNeverFails(h: Hashing, records: seq<Record>, stratum: Record -> string, quotas: map<string, nat>,
                        seed: int, name: string)
    requires h.Lawful() && Fits(quotas, records, stratum) && name in quotas
    ensures var inner := Pick(h, records, stratum, quotas, seed)(name);
      inner.Ok? && |inner.value| == quotas[name] && forall r | r in inner.value :: r in records && stratum(r) == name
  {
    SampleSucceeds(h, Members(records, stratum, name), quotas[name], h.stratumSeed(seed, name));
    MembersOnly(records, stratum, name);
  }

  lemma SampleSucceeds(h: Hashing, records: seq<Record>, size: int, seed: int)
    requires 0 <= size <= |records| && 0 <= seed < SEEDS
    ensures var sample := DeterministicSample(h, records, size, seed);
      sample.Ok? && |sample.value| == size && forall r | r in sample.value :: r in records
  {
    var ranked := Sort(RankLeq(h.score, seed), records);
    SortPermutes(RankLeq(h.score, seed), records);
    forall r | r in ranked[..size] ensures r in records {
      assert r in multiset(ranked);
      assert r in multiset(records);
    }
  }

  function Value(): Result<seq<Record>, SampleError> -> seq<Record> {
    (r: Result<seq<Record>, SampleError>) => if r.Ok? then r.value else []
  }

  ghost function Chosen(names: seq<string>, picks: string -> Result<seq<Record>, SampleError>): seq<Record> {
    if names == [] then []
    else
      var n := |names| - 1;
      Chosen(names[..n], picks) + Value()(picks(names[n]))
  }

  ghost function QuotasOf(records: seq<Record>, stratum: Record -> string, size: nat): (quotas: map<string, nat>)
    requires size <= |records|
    ensures Fits(quotas, records, stratum)
  {
    CountsAllocate(records, stratum, size);
    var counts := CountsOf(records, stratum);
    assert forall name | name in counts :: Quotas(counts, size)[name] <= counts[name] by {
      forall name | name in counts ensures Quotas(counts, size)[name] <= counts[name] {
        QuotaFits(counts, size, name);
      }
    }
    Quotas(counts, size)
  }

  /** `stratified_sample`; `stratum` reads a record's label off its metadata. */
  ghost function StratifiedSample(h: Hashing, records: seq<Record>, stratum: Record -> string, size: int, seed: int)
    : Result<seq<Record>, SampleError>
  {
    if !(0 <= size <= |records|) then Err(SizeOutOfRange)
    else if records != [] && !(0 <= seed < SEEDS) then Err(SeedOutOfRange)
    else
      var quotas := QuotasOf(records, stratum, size);
      Ok(Sort(KeyLeq(), Chosen(Listing(quotas.Keys), Pick(h, records, stratum, quotas, seed))))
  }

  /** Each stratum contributes its own inner sample and nothing else. */
  lemma {:induction false} ChosenMembers(names: seq<string>, picks: string -> Result<seq<Record>, SampleError>,
                                         stratum: Record -> string, name: string)
    requires Distinct(names)
    requires forall l | l in names :: forall r | r in Value()(picks(l)) :: stratum(r) == l
    ensures Members(Chosen(names, picks), stratum, name) == if name in names then Value()(picks(name)) else []
  {
    if names != [] {
      var n := |names| - 1;
      var earlier, last := Chosen(names[..n], picks), Value()(picks(names[n]));
      assert names[n] in names && names[n] !in names[..n];
      ChosenMembers(names[..n], picks, stratum, name);
      MembersConcat(earlier, last, stratum, name);
      AllOrNone(last, stratum, names[n], name);
      if name == names[n] {
        assert [] + last == last;
      } else {
        assert name in names <==> name in names[..n];
        assert Members(earlier, stratum, name) + [] == Members(earlier, stratum, name);
      }
    }
  }

  lemma {:induction false} MembersConcat(a: seq<Record>, b: seq<Record>, stratum: Record -> string, name: string)
    ensures Members(a + b, stratum, name) == Members(a, stratum, name) + Members(b, stratum, name)
  {
    if b == [] {
      assert a + b == a;
    } else {
      var n := |b| - 1;
      assert (a + b)[..|a + b| - 1] == a + b[..n];
      MembersConcat(a, b[..n], stratum, name);
    }
  }

  lemma {:induction false} AllOrNone(records: seq<Record>, stratum: Record -> string, only: string, name: string)
    requires forall r | r in records :: stratum(r) == only
    ensures Members(records, stratum, name) == if name == only then records else []
  {
    if records != [] {
      var n := |records| - 1;
      assert records[n] in records;
      AllOrNone(records[..n], stratum, only, name);
      assert records == records[..n] + [records[n]];
    }
  }

  lemma {:induction false} ChosenLength(names: seq<string>, picks: string -> Result<seq<Record>, SampleError>,
                                        quotas: map<string, nat>)
    requires forall l | l in names :: l in quotas && |Value()(picks(l))| == quotas[l]
    ensures |Chosen(names, picks)| == SumOf(names, quotas)
  {
    if names != [] {
      var n := |names| - 1;
      assert names[n] in names;
      ChosenLength(names[..n], picks, quotas);
      assert names[..|names|] == names;
      SumOneMore(names, n, quotas);
    }
  }

  /** The result has `size` records, each stratum its quota of them, in key order, and no record
      more often than the input. */
  lemma StratifiedIsProportional(h: Hashing, records: seq<Record>, stratum: Record -> string, size: int, seed: int)
    requires h.Lawful() && StratifiedSample(h, records, stratum, size, seed).Ok?
    ensures var sample := StratifiedSample(h, records, stratum, size, seed).value;
      && |sample| == size
      && (forall i, j | 0 <= i < j < |sample| :: StringLeq(sample[i].key, sample[j].key))
      && multiset(sample) <= multiset(records)
      && forall name | name in Names(records, stratum) ::
           |Members(sample, stratum, name)| == QuotasOf(records, stratum, size)[name]
  {
    var quotas := QuotasOf(records, stratum, size);
    var picks := Pick(h, records, stratum, quotas, seed);
    var names := Listing(quotas.Keys);
    var chosen := Chosen(names, picks);
    ListingLists(quotas.Keys);
    PicksFit(h, records, stratum, quotas, seed);
    ChosenLength(names, picks, quotas);
    QuotasCoverSize(records, stratum, size);
    SortedByKey(chosen);
    forall name | name in quotas ensures |Members(Sort(KeyLeq(), chosen), stratum, name)| == quotas[name] {
      ChosenMembers(names, picks, stratum, name);
      MembersPermute(Sort(KeyLeq(), chosen), chosen, stratum, name);
      SameElements(Members(Sort(KeyLeq(), chosen), stratum, name), Members(chosen, stratum, name));
    }
    ChosenOccur(h, records, stratum, quotas, seed);
  }

  /** Within each stratum the best ranked records are drawn, ranked under the seed derived for it. */
  lemma StrataAreBestRanked(h: Hashing, records: seq<Record>, stratum: Record -> string, size: int, seed: int,
                            name: string) returns (rest: seq<Record>)
    requires h.Lawful() && StratifiedSample(h, records, stratum, size, seed).Ok? && name in Names(records, stratum)
    ensures var sample := StratifiedSample(h, records, stratum, size, seed).value;
            var drawn := Members(sample, stratum, name);
      && multiset(drawn) + multiset(rest) == multiset(Members(records, stratum, name))
      && forall x, y | x in drawn && y in rest :: RanksBefore(h.score, h.stratumSeed(seed, name), x, y)
  {
    var quotas := QuotasOf(records, stratum, size);
    var seedOf := h.stratumSeed(seed, name);
    DrawnIsInner(h, records, stratum, quotas, seed, name);
    InnerNeverFails(h, records, stratum, quotas, seed, name);
    var drawn := Members(StratifiedSample(h, records, stratum, size, seed).value, stratum, name);
    rest := DrawnAreBestRanked(h, drawn, Members(records, stratum, name), quotas[name], seedOf);
  }

  lemma DrawnAreBestRanked(h: Hashing, drawn: seq<Record>, records: seq<Record>, size: int,
                           seed: int) returns (rest: seq<Record>)
    requires DeterministicSample(h, records, size, seed).Ok?
    requires multiset(drawn) == multiset(DeterministicSample(h, records, size, seed).value)
    ensures multiset(drawn) + multiset(rest) == multiset(records)
    ensures forall x, y | x in drawn && y in rest :: RanksBefore(h.score, seed, x, y)
  {
    rest := SampleIsBestRanked(h, records, size, seed);
    SameElements(drawn, DeterministicSample(h, records, size, seed).value);
  }

  lemma {:induction false} SortedByKey(records: seq<Record>)
    ensures var sorted := Sort(KeyLeq(), records);
      && multiset(sorted) == multiset(records) && |sorted| == |records|
      && forall i, j | 0 <= i < j < |sorted| :: StringLeq(sorted[i].key, sorted[j].key)
  {
    KeyIsTotal(records);
    SortSorts(KeyLeq(), records);
    SortPermutes(KeyLeq(), records);
    var sorted := Sort(KeyLeq(), records);
    assert forall i, j | 0 <= i < j < |sorted| :: KeyLeq()(sorted[i], sorted[j]);
  }

  lemma {:induction false} DrawnIsInner(h: Hashing, records: seq<Record>, stratum: Record -> string,
                                        quotas: map<string, nat>, seed: int, name: string)
    requires h.Lawful() && Fits(quotas, records, stratum) && name in quotas
    ensures var picks := Pick(h, records, stratum, quotas, seed);
            var sample := Sort(KeyLeq(), Chosen(Listing(quotas.Keys), picks));
      picks(name).Ok? && multiset(Members(sample, stratum, name)) == multiset(picks(name).value)
  {
    var picks := Pick(h, records, stratum, quotas, seed);
    var chosen := Chosen(Listing(quotas.Keys), picks);
    ListingLists(quotas.Keys);
    PicksFit(h, records, stratum, quotas, seed);
    ChosenMembers(Listing(quotas.Keys), picks, stratum, name);
    SortPermutes(KeyLeq(), chosen);
    MembersPermute(Sort(KeyLeq(), chosen), chosen, stratum, name);
  }

  /** A stratified sample is refused exactly when a plain one would be. */
  lemma StratifiedFailsExactly(h: Hashing, records: seq<Record>, stratum: Record -> string, size: int, seed: int)
    ensures StratifiedSample(h, records, stratum, size, seed) == Err(SizeOutOfRange) <==> size < 0 || size > |records|
    ensures StratifiedSample(h, records, stratum, size, seed) == Err(SeedOutOfRange) <==>
              0 <= size <= |records| && |records| > 0 && (seed < 0 || seed > 18_446_744_073_709_551_615)
  {
  }

  lemma PicksFit(h: Hashing, records: seq<Record>, stratum: Record -> string, quotas: map<string, nat>, seed: int)
    requires h.Lawful() && Fits(quotas, records, stratum)
    ensures var picks := Pick(h, records, stratum, quotas, seed);
      forall name | name in Listing(quotas.Keys) ::
        && name in quotas && picks(name).Ok? && |Value()(picks(name))| == quotas[name]
        && forall r | r in Value()(picks(name)) :: stratum(r) == name
  {
    ListingLists(quotas.Keys);
    forall name | name in quotas
      ensures var picks := Pick(h, records, stratum, quotas, seed);
        && picks(name).Ok? && |Value()(picks(name))| == quotas[name]
        && forall r | r in Value()(picks(name)) :: stratum(r) == name
    {
      InnerNeverFails(h, records, stratum, quotas, seed, name);
    }
  }

  lemma QuotasCoverSize(records: seq<Record>, stratum: Record -> string, size: nat)
    requires size <= |records|
    ensures var quotas := QuotasOf(records, stratum, size);
      (forall l | l in Listing(quotas.Keys) :: l in quotas) && SumOf(Listing(quotas.Keys), quotas) == size
  {
    CountsAllocate(records, stratum, size);
    QuotasSum(CountsOf(records, stratum), size);
  }

  /** Nothing is drawn twice. */
  lemma ChosenOccur(h: Hashing, records: seq<Record>, stratum: Record -> string, quotas: map<string, nat>, seed: int)
    requires h.Lawful() && Fits(quotas, records, stratum)
    ensures multiset(Chosen(Listing(quotas.Keys), Pick(h, records, stratum, quotas, seed))) <= multiset(records)
  {
    var picks, names := Pick(h, records, stratum, quotas, seed), Listing(quotas.Keys);
    var chosen := Chosen(names, picks);
    ListingLists(quotas.Keys);
    PicksFit(h, records, stratum, quotas, seed);
    forall r ensures multiset(chosen)[r] <= multiset(records)[r] {
      var name := stratum(r);
      ChosenMembers(names, picks, stratum, name);
      MembersOccur(chosen, stratum, name, r);
      MembersOccur(records, stratum, name, r);
      if name in names {
        SampleDraws(h, Members(records, stratum, name), quotas[name], h.stratumSeed(seed, name), r);
      }
    }
  }

  lemma SampleDraws(h: Hashing, records: seq<Record>, size: int, seed: int, r: Record)
    requires DeterministicSample(h, records, size, seed).Ok?
    ensures multiset(DeterministicSample(h, records, size, seed).value)[r] <= multiset(records)[r]
  {
    var rest := SampleIsBestRanked(h, records, size, seed);
  }

  lemma {:induction false} SamePicks(names: seq<string>, a: string -> Result<seq<Record>, SampleError>,
                                     b: string -> Result<seq<Record>, SampleError>)
    requires forall name | name in names :: a(name) == b(name)
    ensures Chosen(names, a) == Chosen(names, b)
  {
    if names != [] {
      assert names[|names| - 1] in names;
      SamePicks(names[..|names| - 1], a, b);
    }
  }

  lemma SameStrata(a: seq<Record>, b: seq<Record>, stratum: Record -> string)
    requires multiset(a) == multiset(b)
    ensures CountsOf(a, stratum) == CountsOf(b, stratum)
  {
    SameElements(a, b);
    forall name ensures |Members(a, stratum, name)| == |Members(b, stratum, name)| {
      MembersPermute(a, b, stratum, name);
      SameElements(Members(a, stratum, name), Members(b, stratum, name));
    }
    assert Names(a, stratum) == Names(b, stratum);
  }

  /** Import order does not matter when keys are distinct. */
  lemma StratifiedOrderIndependent(h: Hashing, a: seq<Record>, b: seq<Record>, stratum: Record -> string, size: int,
                                   seed: int)
    requires multiset(a) == multiset(b) && DistinctKeys(a)
    ensures StratifiedSample(h, a, stratum, size, seed) == StratifiedSample(h, b, stratum, size, seed)
  {
    SameElements(a, b);
    if 0 <= size <= |a| {
      SameStrata(a, b, stratum);
      var quotas := QuotasOf(a, stratum, size);
      forall name ensures Pick(h, a, stratum, quotas, seed)(name) == Pick(h, b, stratum, quotas, seed)(name) {
        MembersPermute(a, b, stratum, name);
        MembersDistinct(a, stratum, name);
        SampleOrderIndependent(h, Members(a, stratum, name), Members(b, stratum, name),
                               if name in quotas then quotas[name] else 0, h.stratumSeed(seed, name));
      }
      SamePicks(Listing(quotas.Keys), Pick(h, a, stratum, quotas, seed), Pick(h, b, stratum, quotas, seed));
    }
  }

  // ---------- the procedure ----------

  /** The first loop: records grouped by label. */
  method Group(records: seq<Record>, stratum: Record -> string) returns (strata: map<string, seq<Record>>)
    ensures strata == Strata(records, stratum)
  {
    strata := map[];
    for i := 0 to |records|
      invariant strata == Strata(records[..i], stratum)
    {
      var name := stratum(records[i]);
      GroupOneMore(records, stratum, i);
      strata := strata[name := (if name in strata then strata[name] else []) + [records[i]]];
    }
    assert records[..|records|] == records;
  }

  lemma GroupOneMore(records: seq<Record>, stratum: Record -> string, i: nat)
    requires i < |records|
    ensures var before, name := Strata(records[..i], stratum), stratum(records[i]);
      Strata(records[..i + 1], stratum) == before[name := (if name in before then before[name] else []) + [records[i]]]
  {
    var before, after, name := Strata(records[..i], stratum), Strata(records[..i + 1], stratum), stratum(records[i]);
    assert records[..i + 1] == records[..i] + [records[i]];
    NamesOneMore(records[..i], records[i], stratum);
    forall other | other in after
      ensures after[other] == if other == name then (if name in before then before[name] else []) + [records[i]]
                              else before[other]
    {
      assert records[..i + 1][..i] == records[..i];
      if other == name && name !in before {
        EmptyStratum(records[..i], stratum, name);
      }
    }
  }

  lemma NamesOneMore(records: seq<Record>, r: Record, stratum: Record -> string)
    ensures Names(records + [r], stratum) == Names(records, stratum) + {stratum(r)}
  {
    forall x ensures x in records + [r] <==> x in records || x == r {
    }
  }

  lemma {:induction false} EmptyStratum(records: seq<Record>, stratum: Record -> string, name: string)
    requires name !in Names(records, stratum)
    ensures Members(records, stratum, name) == []
  {
    if records != [] {
      assert records[|records| - 1] in records;
      EmptyStratum(records[..|records| - 1], stratum, name);
    }
  }

  /** `stratified_sample`. Its "no strata" error cannot occur: without strata there are no
      records, and then the size is zero. */
  method ComputeStratifiedSample(h: Hashing, records: seq<Record>, stratum: Record -> string, size: int, seed: int)
    returns (result: Result<seq<Record>, SampleError>)
    requires h.Lawful()
    ensures result == StratifiedSample(h, records, stratum, size, seed)
  {
    if !(0 <= size <= |records|) {
      return Err(SizeOutOfRange);
    }
    var strata := Group(records, stratum);
    if records != [] && !(0 <= seed < SEEDS) {
      return Err(SeedOutOfRange);
    }
    var quotas := Allot(records, strata, stratum, size);
    var chosen := Draw(h, records, strata, stratum, quotas, seed);
    result := Ok(Sort(KeyLeq(), chosen));
  }

  /** Quotas from the stratum sizes. */
  method Allot(records: seq<Record>, strata: map<string, seq<Record>>, ghost stratum: Record -> string, size: nat)
    returns (quotas: map<string, nat>)
    requires size <= |records| && strata == Strata(records, stratum)
    ensures quotas == QuotasOf(records, stratum, size)
  {
    var counts: Counts := map name | name in strata :: |strata[name]|;
    CountsAllocate(records, stratum, size);
    assert counts == CountsOf(records, stratum);
    quotas := Apportion(counts, size, |records|);
  }

  ghost predicate Draws(h: Hashing, strata: map<string, seq<Record>>, quotas: map<string, nat>, seed: int,
                        picks: string -> Result<seq<Record>, SampleError>, name: string)
  {
    && name in strata && name in quotas
    && var inner := DeterministicSample(h, strata[name], quotas[name], h.stratumSeed(seed, name));
      inner.Ok? && inner.value == Value()(picks(name))
  }

  /** The last loop: one inner sample per label, in label order. */
  method DrawAll(h: Hashing, strata: map<string, seq<Record>>, quotas: map<string, nat>, seed: int, names: seq<string>,
                 ghost picks: string -> Result<seq<Record>, SampleError>)
    returns (chosen: seq<Record>)
    requires forall name | name in names :: Draws(h, strata, quotas, seed, picks, name)
    ensures chosen == Chosen(names, picks)
  {
    chosen := [];
    for i := 0 to |names|
      invariant chosen == Chosen(names[..i], picks)
    {
      assert names[i] in names;
      assert names[..i + 1][..i] == names[..i];
      var drawn := DeterministicSample(h, strata[names[i]], quotas[names[i]], h.stratumSeed(seed, names[i]));
      chosen := chosen + drawn.value;
    }
    assert names[..|names|] == names;
  }

  method Draw(h: Hashing, ghost records: seq<Record>, strata: map<string, seq<Record>>, ghost stratum: Record -> string,
              quotas: map<string, nat>, seed: int)
    returns (chosen: seq<Record>)
    requires h.Lawful() && strata == Strata(records, stratum) && Fits(quotas, records, stratum)
    ensures chosen == Chosen(Listing(quotas.Keys), Pick(h, records, stratum, quotas, seed))
  {
    ghost var picks := Pick(h, records, stratum, quotas, seed);
    var names := SortedKeys(quotas.Keys);
    forall name | name in names ensures Draws(h, strata, quotas, seed, picks, name) {
      ListingLists(quotas.Keys);
      InnerNeverFails(h, records, stratum, quotas, seed, name);
    }
    chosen := DrawAll(h, strata, quotas, seed, names, picks);
  }
}
