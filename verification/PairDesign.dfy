/**
 The balanced pairwise design: which cells are compared, and which variant is
 shown first. The shuffle, the tie-breaking bits and the identifier hash are
 arbitrary functions.
 */
module PairDesign {
  import opened Averages
  import opened Counting
  import opened Ordering
  import opened Results

  datatype Cell = Cell(record: string, left: string, right: string, slot: nat, repetition: nat)

  datatype PairAssignment = PairAssignment(
    id: string,
    designId: string,
    record: string,
    variantA: string,
    variantB: string,
    slot: nat,
    repetition: nat,
    orientation: nat,
    orderSeed: int,
    reverseOf: Option<string>)

  datatype DesignError =
    | VariantsNotUnique
    | RecordsNotUnique
    | CountsNotPositive
    | SeedOutOfRange
    | SampleSizeOutOfRange
    | IdentityCollision

  const SEEDS := 0x1_0000_0000_0000_0000

  /** The random sources of a design, and the identifier hash. */
  datatype Randomness = Randomness(
    shuffle: (int, seq<Cell>) -> seq<Cell>,
    bit: (int, Cell, nat) -> bool,
    uuid: string -> string)
  {
    ghost predicate Lawful() {
      forall seed, cells :: multiset(shuffle(seed, cells)) == multiset(cells)
    }
  }

  // ---------- the cells ----------

  function PairWith(x: string): string -> (string, string) { (y: string) => (x, y) }

  /** `itertools.combinations(names, 2)` */
  function Pairs(names: seq<string>): seq<(string, string)> {
    if names == [] then [] else Map(PairWith(names[0]), names[1..]) + Pairs(names[1..])
  }

  function Range(n: nat): (r: seq<nat>)
    ensures |r| == n && forall i | 0 <= i < n :: r[i] == i
  {
    seq(n, i => i)
  }

  function RepetitionCells(record: string, pair: (string, string), slot: nat): nat -> seq<Cell> {
    (repetition: nat) => [Cell(record, pair.0, pair.1, slot, repetition)]
  }

  function SlotCells(record: string, pair: (string, string), repetitions: nat): nat -> seq<Cell> {
    (slot: nat) => FlatMap(Range(repetitions), RepetitionCells(record, pair, slot))
  }

  function PairCells(record: string, slots: nat, repetitions: nat): ((string, string)) -> seq<Cell> {
    (pair: (string, string)) => FlatMap(Range(slots), SlotCells(record, pair, repetitions))
  }

  function RecordCells(variants: seq<string>, slots: nat, repetitions: nat): string -> seq<Cell> {
    (record: string) => FlatMap(Pairs(Sort(StringLeq, variants)), PairCells(record, slots, repetitions))
  }

  /** The nested comprehension over records, pairs, slots and repetitions. */
  function Cells(records: seq<string>, variants: seq<string>, slots: nat, repetitions: nat): seq<Cell> {
    FlatMap(Sort(StringLeq, records), RecordCells(variants, slots, repetitions))
  }

  // ---------- every comparison once ----------

  lemma {:induction false} PairsMembers(names: seq<string>, x: string, y: string)
    ensures (x, y) in Pairs(names) <==> exists i, j :: 0 <= i < j < |names| && names[i] == x && names[j] == y
  {
    if names != [] {
      var rest, head := names[1..], Map(PairWith(names[0]), names[1..]);
      PairsMembers(rest, x, y);
      if (x, y) in head {
        var k :| 0 <= k < |head| && head[k] == (x, y);
        assert names[0] == x && names[k + 1] == y;
      } else if (x, y) in Pairs(rest) {
        var i, j :| 0 <= i < j < |rest| && rest[i] == x && rest[j] == y;
        assert names[i + 1] == x && names[j + 1] == y;
      }
      if i, j :| 0 <= i < j < |names| && names[i] == x && names[j] == y {
        if i == 0 {
          assert head[j - 1] == (x, y);
        } else {
          assert rest[i - 1] == x && rest[j - 1] == y;
        }
      }
    }
  }

  lemma {:induction false} PairsDistinct(names: seq<string>)
    requires Distinct(names)
    ensures Distinct(Pairs(names))
  {
    if names != [] {
      var head, tail := Map(PairWith(names[0]), names[1..]), Pairs(names[1..]);
      PairsDistinct(names[1..]);
      forall i, j | 0 <= i < |head| && 0 <= j < |tail| ensures head[i] != tail[j] {
        PairsMembers(names[1..], tail[j].0, tail[j].1);
        assert tail[j] in tail;
        assert tail[j].0 in names[1..];
      }
    }
  }

  /** The pairs of sorted distinct variants are in order, so a pair never occurs both ways round. */
  lemma {:induction false} PairsOrdered(variants: seq<string>, x: string, y: string)
    requires Distinct(variants)
    ensures (x, y) in Pairs(Sort(StringLeq, variants)) <==> x in variants && y in variants && x != y && StringLeq(x, y)
  {
    var names := Sort(StringLeq, variants);
    StringOrder();
    SortSorts(StringLeq, variants);
    DistinctPermutation(variants, names);
    PairsMembers(names, x, y);
    if x in variants && y in variants && x != y && StringLeq(x, y) {
      SmallerComesFirst(names, x, y);
    }
  }

  lemma SmallerComesFirst(names: seq<string>, x: string, y: string)
    requires TotalOrder(StringLeq) && SortedBy(StringLeq, names)
    requires x in names && y in names && x != y && StringLeq(x, y)
    ensures exists i, j :: 0 <= i < j < |names| && names[i] == x && names[j] == y
  {
    var i :| 0 <= i < |names| && names[i] == x;
    var j :| 0 <= j < |names| && names[j] == y;
    assert i != j;
  }

  /** The cell belongs to the design. */
  ghost predicate InDesign(cell: Cell, records: seq<string>, variants: seq<string>, slots: nat, repetitions: nat) {
    && cell.record in records
    && cell.left in variants && cell.right in variants && cell.left != cell.right && StringLeq(cell.left, cell.right)
    && cell.slot < slots && cell.repetition < repetitions
  }

  lemma RangeMembers(n: nat, k: nat)
    ensures k in Range(n) <==> k < n
  {
    if k < n {
      assert Range(n)[k] == k;
    }
  }

  lemma CellsSound(cell: Cell, records: seq<string>, variants: seq<string>, slots: nat, repetitions: nat)
    requires Distinct(variants) && cell in Cells(records, variants, slots, repetitions)
    ensures InDesign(cell, records, variants, slots, repetitions)
  {
    var record := FlatMapSource(Sort(StringLeq, records), RecordCells(variants, slots, repetitions), cell);
    SortPermutes(StringLeq, records);
    var pair := FlatMapSource(Pairs(Sort(StringLeq, variants)), PairCells(record, slots, repetitions), cell);
    PairsOrdered(variants, pair.0, pair.1);
    var slot := FlatMapSource(Range(slots), SlotCells(record, pair, repetitions), cell);
    RangeMembers(slots, slot);
    var repetition := FlatMapSource(Range(repetitions), RepetitionCells(record, pair, slot), cell);
    RangeMembers(repetitions, repetition);
  }

  lemma CellsComplete(cell: Cell, records: seq<string>, variants: seq<string>, slots: nat, repetitions: nat)
    requires Distinct(variants) && InDesign(cell, records, variants, slots, repetitions)
    ensures cell in Cells(records, variants, slots, repetitions)
  {
    var pair := (cell.left, cell.right);
    RangeMembers(repetitions, cell.repetition);
    FlatMapTarget(Range(repetitions), RepetitionCells(cell.record, pair, cell.slot), cell.repetition, cell);
    RangeMembers(slots, cell.slot);
    FlatMapTarget(Range(slots), SlotCells(cell.record, pair, repetitions), cell.slot, cell);
    PairsOrdered(variants, pair.0, pair.1);
    FlatMapTarget(Pairs(Sort(StringLeq, variants)), PairCells(cell.record, slots, repetitions), pair, cell);
    SortPermutes(StringLeq, records);
    FlatMapTarget(Sort(StringLeq, records), RecordCells(variants, slots, repetitions), cell.record, cell);
  }

  lemma CellsDistinct(records: seq<string>, variants: seq<string>, slots: nat, repetitions: nat)
    requires Distinct(records) && Distinct(variants)
    ensures Distinct(Cells(records, variants, slots, repetitions))
  {
    var sortedRecords, pairs := Sort(StringLeq, records), Pairs(Sort(StringLeq, variants));
    SortPermutes(StringLeq, records);
    DistinctPermutation(records, sortedRecords);
    SortPermutes(StringLeq, variants);
    DistinctPermutation(variants, Sort(StringLeq, variants));
    PairsDistinct(Sort(StringLeq, variants));
    forall record | record in sortedRecords ensures Distinct(RecordCells(variants, slots, repetitions)(record)) {
      forall pair | pair in pairs ensures Distinct(PairCells(record, slots, repetitions)(pair)) {
        PairCellsDistinct(record, pair, slots, repetitions);
      }
      forall p, q, cell | p in pairs && q in pairs && cell in PairCells(record, slots, repetitions)(p) &&
                          cell in PairCells(record, slots, repetitions)(q)
        ensures p == q
      {
        PairOfCell(record, p, slots, repetitions, cell);
        PairOfCell(record, q, slots, repetitions, cell);
      }
      FlatMapDistinct(pairs, PairCells(record, slots, repetitions));
    }
    forall r, s, cell | r in sortedRecords && s in sortedRecords &&
                        cell in RecordCells(variants, slots, repetitions)(r) &&
                        cell in RecordCells(variants, slots, repetitions)(s)
      ensures r == s
    {
      RecordOfCell(r, variants, slots, repetitions, cell);
      RecordOfCell(s, variants, slots, repetitions, cell);
    }
    FlatMapDistinct(sortedRecords, RecordCells(variants, slots, repetitions));
  }

  lemma RecordOfCell(record: string, variants: seq<string>, slots: nat, repetitions: nat, cell: Cell)
    requires cell in RecordCells(variants, slots, repetitions)(record)
    ensures cell.record == record
  {
    var pair := FlatMapSource(Pairs(Sort(StringLeq, variants)), PairCells(record, slots, repetitions), cell);
    PairOfCell(record, pair, slots, repetitions, cell);
  }

  lemma PairOfCell(record: string, pair: (string, string), slots: nat, repetitions: nat, cell: Cell)
    requires cell in PairCells(record, slots, repetitions)(pair)
    ensures cell.record == record && (cell.left, cell.right) == pair
  {
    var slot := FlatMapSource(Range(slots), SlotCells(record, pair, repetitions), cell);
    SlotOfCell(record, pair, slot, repetitions, cell);
  }

  lemma SlotOfCell(record: string, pair: (string, string), slot: nat, repetitions: nat, cell: Cell)
    requires cell in SlotCells(record, pair, repetitions)(slot)
    ensures cell.record == record && (cell.left, cell.right) == pair && cell.slot == slot
  {
    var repetition := FlatMapSource(Range(repetitions), RepetitionCells(record, pair, slot), cell);
  }

  lemma PairCellsDistinct(record: string, pair: (string, string), slots: nat, repetitions: nat)
    ensures Distinct(PairCells(record, slots, repetitions)(pair))
  {
    forall slot | slot in Range(slots) ensures Distinct(SlotCells(record, pair, repetitions)(slot)) {
      FlatMapDistinct(Range(repetitions), RepetitionCells(record, pair, slot));
    }
    forall s, t, cell | s in Range(slots) && t in Range(slots) && cell in SlotCells(record, pair, repetitions)(s) &&
                        cell in SlotCells(record, pair, repetitions)(t)
      ensures s == t
    {
      SlotOfCell(record, pair, s, repetitions, cell);
      SlotOfCell(record, pair, t, repetitions, cell);
    }
    FlatMapDistinct(Range(slots), SlotCells(record, pair, repetitions));
  }

  // ---------- which variant is shown first ----------

  /** How many of the cells compare this pair with the left variant first (or second). */
  function Shown(cells: seq<Cell>, leftFirst: seq<bool>, left: string, right: string, side: bool): nat
    requires |cells| == |leftFirst|
  {
    if cells == [] then 0
    else
      var n := |cells| - 1;
      Shown(cells[..n], leftFirst[..n], left, right, side)
        + if cells[n].left == left && cells[n].right == right && leftFirst[n] == side then 1 else 0
  }

  /** The order of each cell: the side shown less often so far, or the tie bit. */
  function Orders(cells: seq<Cell>, bit: (Cell, nat) -> bool): (r: seq<bool>)
    ensures |r| == |cells|
  {
    if cells == [] then []
    else
      var n := |cells| - 1;
      var earlier := Orders(cells[..n], bit);
      var first := Shown(cells[..n], earlier, cells[n].left, cells[n].right, true);
      var second := Shown(cells[..n], earlier, cells[n].left, cells[n].right, false);
      earlier + [if first == second then bit(cells[n], n) else first < second]
  }

  lemma {:induction false} OrdersPrefix(cells: seq<Cell>, bit: (Cell, nat) -> bool, k: nat)
    requires k <= |cells|
    ensures Orders(cells[..k], bit) == Orders(cells, bit)[..k]
  {
    if k < |cells| {
      var n := |cells| - 1;
      OrdersPrefix(cells[..n], bit, k);
      assert cells[..n][..k] == cells[..k];
    } else {
      assert cells[..k] == cells;
    }
  }

  lemma {:induction false} BalancedSoFar(cells: seq<Cell>, bit: (Cell, nat) -> bool, left: string, right: string)
    ensures var first := Shown(cells, Orders(cells, bit), left, right, true);
            var second := Shown(cells, Orders(cells, bit), left, right, false);
      -1 <= first - second <= 1
  {
    if cells != [] {
      var n := |cells| - 1;
      BalancedSoFar(cells[..n], bit, left, right);
      assert Orders(cells, bit)[..n] == Orders(cells[..n], bit);
    }
  }

  /** After every iteration, for every pair, the two display orders differ by at most one:
      whatever the shuffle and the tie bits were. */
  lemma {:induction false} BalancedAfterEveryCell(cells: seq<Cell>, bit: (Cell, nat) -> bool, k: nat, left: string,
                                                  right: string)
    requires k <= |cells|
    ensures var orders := Orders(cells, bit)[..k];
      -1 <= Shown(cells[..k], orders, left, right, true) - Shown(cells[..k], orders, left, right, false) <= 1
  {
    OrdersPrefix(cells, bit, k);
    BalancedSoFar(cells[..k], bit, left, right);
  }

  // ---------- assignments ----------

  function Digit(d: nat): char
    requires d < 10
  {
    "0123456789"[d]
  }

  /** `str(n)` */
  function Decimal(n: nat): string {
    if n < 10 then [Digit(n)] else Decimal(n / 10) + [Digit(n % 10)]
  }

  /** `"|".join(parts)` */
  function Join(parts: seq<string>): string {
    if parts == [] then ""
    else if |parts| == 1 then parts[0]
    else parts[0] + "|" + Join(parts[1..])
  }

  /** The text an assignment's identifier is derived from; it does not see the display order. */
  function IdentityParts(designId: string, record: string, a: string, b: string, slot: nat, repetition: nat,
                         orientation: nat): seq<string> {
    var pair := Sort(StringLeq, [a, b]);
    [designId, record] + pair + [Decimal(slot), Decimal(repetition), Decimal(orientation)]
  }

  datatype Request = Request(
    designId: string,
    records: seq<string>,
    variants: seq<string>,
    slots: int,
    repetitions: int,
    seed: int,
    sampleSize: Option<int>,
    reversedDuplicates: bool)

  /** `_assignment` */
  function Assign(uuid: string -> string, q: Request, cell: Cell, a: string, b: string, orientation: nat,
                  reverseOf: Option<string>)
    : PairAssignment
  {
    PairAssignment(uuid(Join(IdentityParts(q.designId, cell.record, a, b, cell.slot, cell.repetition, orientation))),
                   q.designId, cell.record, a, b, cell.slot, cell.repetition, orientation, q.seed, reverseOf)
  }

  function Original(uuid: string -> string, q: Request, cell: Cell, leftFirst: bool): PairAssignment {
    if leftFirst then Assign(uuid, q, cell, cell.left, cell.right, 0, None)
    else Assign(uuid, q, cell, cell.right, cell.left, 0, None)
  }

  /** The same comparison with A and B swapped, linked to the original. */
  function Duplicate(uuid: string -> string, q: Request, cell: Cell, original: PairAssignment): PairAssignment {
    Assign(uuid, q, cell, original.variantB, original.variantA, 1, Some(original.id))
  }

  /** What one turn of the loop appends. */
  function AssignmentsOf(uuid: string -> string, q: Request, cell: Cell, leftFirst: bool): seq<PairAssignment> {
    var original := Original(uuid, q, cell, leftFirst);
    if q.reversedDuplicates then [original, Duplicate(uuid, q, cell, original)] else [original]
  }

  function Assignments(uuid: string -> string, q: Request, cells: seq<Cell>, leftFirst: seq<bool>): seq<PairAssignment>
    requires |cells| == |leftFirst|
  {
    if cells == [] then []
    else
      var n := |cells| - 1;
      Assignments(uuid, q, cells[..n], leftFirst[..n]) + AssignmentsOf(uuid, q, cells[n], leftFirst[n])
  }

  function IdOf(): PairAssignment -> string { (a: PairAssignment) => a.id }

  ghost predicate Valid(q: Request) {
    && Distinct(q.variants) && |q.variants| >= 2
    && Distinct(q.records) && q.records != []
    && q.slots >= 1 && q.repetitions >= 1
    && 0 <= q.seed < SEEDS
  }

  /** All cells of the design, shuffled. */
  function Shuffled(rand: Randomness, q: Request): seq<Cell>
    requires q.slots >= 0 && q.repetitions >= 0
  {
    rand.shuffle(q.seed, Cells(q.records, q.variants, q.slots, q.repetitions))
  }

  /** The cells that are compared. */
  function Selected(rand: Randomness, q: Request): seq<Cell>
    requires q.slots >= 0 && q.repetitions >= 0
    requires q.sampleSize.Some? ==> 1 <= q.sampleSize.value <= |Shuffled(rand, q)|
  {
    if q.sampleSize.Some? then Shuffled(rand, q)[..q.sampleSize.value] else Shuffled(rand, q)
  }

  function TieBit(rand: Randomness, q: Request): (Cell, nat) -> bool {
    (cell: Cell, index: nat) => rand.bit(q.seed, cell, index)
  }

  /** `balanced_pair_assignments` */
  ghost function BalancedPairs(rand: Randomness, q: Request): Result<seq<PairAssignment>, DesignError> {
    if !Distinct(q.variants) || |q.variants| < 2 then Err(VariantsNotUnique)
    else if !Distinct(q.records) || q.records == [] then Err(RecordsNotUnique)
    else if q.slots < 1 || q.repetitions < 1 then Err(CountsNotPositive)
    else if !(0 <= q.seed < SEEDS) then Err(SeedOutOfRange)
    else if q.sampleSize.Some? && !(1 <= q.sampleSize.value <= |Shuffled(rand, q)|) then Err(SampleSizeOutOfRange)
    else
      var cells := Selected(rand, q);
      var assignments := Assignments(rand.uuid, q, cells, Orders(cells, TieBit(rand, q)));
      if !Distinct(Map(IdOf(), assignments)) then Err(IdentityCollision) else Ok(assignments)
  }

  // ---------- the procedure ----------

  lemma DistinctHead<T>(s: seq<T>)
    requires s != []
    ensures Distinct(s) <==> s[0] !in s[1..] && Distinct(s[1..])
  {
    var rest := s[1..];
    assert forall k | 0 <= k < |rest| :: rest[k] == s[k + 1];
    if s[0] in rest {
      var k :| 0 <= k < |rest| && rest[k] == s[0];
      assert s[k + 1] == s[0];
    }
  }

  ghost function Elements<T>(s: seq<T>): set<T> { set x | x in s }

  /** `len(set(s)) == len(s)` exactly when nothing repeats. */
  lemma {:induction false} SetSize<T>(s: seq<T>)
    ensures |Elements(s)| <= |s|
    ensures |Elements(s)| == |s| <==> Distinct(s)
  {
    if s != [] {
      SetSize(s[1..]);
      DistinctHead(s);
      assert Elements(s) == Elements(s[1..]) + {s[0]};
    }
  }

  function CountAt(counts: map<(string, string, string), nat>, key: (string, string, string)): nat {
    if key in counts then counts[key] else 0
  }

  /** The counter holds, for every pair, how often each side came first. */
  ghost predicate Tallies(counts: map<(string, string, string), nat>, cells: seq<Cell>, leftFirst: seq<bool>)
    requires |cells| == |leftFirst|
  {
    forall left, right | left != right ::
      && CountAt(counts, (left, right, left)) == Shown(cells, leftFirst, left, right, true)
      && CountAt(counts, (left, right, right)) == Shown(cells, leftFirst, left, right, false)
  }

  lemma TalliesStep(counts: map<(string, string, string), nat>, cells: seq<Cell>, leftFirst: seq<bool>)
    requires |cells| == |leftFirst| > 0
    requires Tallies(counts, cells[..|cells| - 1], leftFirst[..|cells| - 1])
    requires cells[|cells| - 1].left != cells[|cells| - 1].right
    ensures var cell, first := cells[|cells| - 1], leftFirst[|cells| - 1];
      var key := (cell.left, cell.right, if first then cell.left else cell.right);
      Tallies(counts[key := CountAt(counts, key) + 1], cells, leftFirst)
  {
    var cell, first := cells[|cells| - 1], leftFirst[|cells| - 1];
    var key := (cell.left, cell.right, if first then cell.left else cell.right);
    var next := counts[key := CountAt(counts, key) + 1];
    forall left, right | left != right
      ensures CountAt(next, (left, right, left)) == Shown(cells, leftFirst, left, right, true)
      ensures CountAt(next, (left, right, right)) == Shown(cells, leftFirst, left, right, false)
    {
      assert CountAt(counts, (left, right, left))
             == Shown(cells[..|cells| - 1], leftFirst[..|cells| - 1], left, right, true);
    }
  }

  /** The order of the i-th cell, read off the counter. */
  function LeftIsA(counts: map<(string, string, string), nat>, bit: (Cell, nat) -> bool, cell: Cell, i: nat): bool {
    var leftCount := CountAt(counts, (cell.left, cell.right, cell.left));
    var rightCount := CountAt(counts, (cell.left, cell.right, cell.right));
    if leftCount == rightCount then bit(cell, i) else leftCount < rightCount
  }

  /** The loop over the selected cells. */
  method AssignCells(rand: Randomness, q: Request, cells: seq<Cell>) returns (assignments: seq<PairAssignment>)
    requires forall cell | cell in cells :: cell.left != cell.right
    ensures assignments == Assignments(rand.uuid, q, cells, Orders(cells, TieBit(rand, q)))
  {
    ghost var bit := TieBit(rand, q);
    assignments := [];
    var counts: map<(string, string, string), nat> := map[];
    for i := 0 to |cells|
      invariant Tallies(counts, cells[..i], Orders(cells[..i], bit))
      invariant assignments == Assignments(rand.uuid, q, cells[..i], Orders(cells[..i], bit))
    {
      var batch;
      counts, batch := AssignCell(rand, q, cells, i, counts);
      assignments := assignments + batch;
    }
    assert cells[..|cells|] == cells;
  }

  /** One turn of the loop. */
  method AssignCell(rand: Randomness, q: Request, cells: seq<Cell>, i: nat, counts: map<(string, string, string), nat>)
    returns (updated: map<(string, string, string), nat>, batch: seq<PairAssignment>)
    requires i < |cells| && forall cell | cell in cells :: cell.left != cell.right
    requires Tallies(counts, cells[..i], Orders(cells[..i], TieBit(rand, q)))
    ensures Tallies(updated, cells[..i + 1], Orders(cells[..i + 1], TieBit(rand, q)))
    ensures Assignments(rand.uuid, q, cells[..i + 1], Orders(cells[..i + 1], TieBit(rand, q)))
         == Assignments(rand.uuid, q, cells[..i], Orders(cells[..i], TieBit(rand, q))) + batch
  {
    var cell := cells[i];
    var leftA := LeftIsA(counts, TieBit(rand, q), cell, i);
    OneMoreCell(rand, q, cells, TieBit(rand, q), i, counts);
    var key := (cell.left, cell.right, if leftA then cell.left else cell.right);
    updated := counts[key := CountAt(counts, key) + 1];
    batch := AssignmentsOf(rand.uuid, q, cell, leftA);
  }

  lemma {:induction false} OneMoreCell(rand: Randomness, q: Request, cells: seq<Cell>, bit: (Cell, nat) -> bool, i: nat,
                                       counts: map<(string, string, string), nat>)
    requires i < |cells| && forall cell | cell in cells :: cell.left != cell.right
    requires Tallies(counts, cells[..i], Orders(cells[..i], bit))
    ensures var cell, leftA := cells[i], LeftIsA(counts, bit, cells[i], i);
      var key := (cell.left, cell.right, if leftA then cell.left else cell.right);
      && Tallies(counts[key := CountAt(counts, key) + 1], cells[..i + 1], Orders(cells[..i + 1], bit))
      && Assignments(rand.uuid, q, cells[..i + 1], Orders(cells[..i + 1], bit))
         == Assignments(rand.uuid, q, cells[..i], Orders(cells[..i], bit)) + AssignmentsOf(rand.uuid, q, cell, leftA)
  {
    assert cells[i] in cells;
    OrdersStep(cells, bit, i, LeftIsA(counts, bit, cells[i], i));
    TalliesStep(counts, cells[..i + 1], Orders(cells[..i + 1], bit));
  }

  lemma OrdersStep(cells: seq<Cell>, bit: (Cell, nat) -> bool, i: nat, leftA: bool)
    requires i < |cells|
    requires var first := Shown(cells[..i], Orders(cells[..i], bit), cells[i].left, cells[i].right, true);
             var second := Shown(cells[..i], Orders(cells[..i], bit), cells[i].left, cells[i].right, false);
             leftA == if first == second then bit(cells[i], i) else first < second
    ensures cells[..i + 1][..i] == cells[..i]
    ensures Orders(cells[..i + 1], bit) == Orders(cells[..i], bit) + [leftA]
    ensures Orders(cells[..i + 1], bit)[..i] == Orders(cells[..i], bit)
  {
    assert cells[..i + 1][..i] == cells[..i];
  }

  method ComputeBalancedPairs(rand: Randomness, q: Request) returns (result: Result<seq<PairAssignment>, DesignError>)
    requires rand.Lawful()
    ensures result == BalancedPairs(rand, q)
  {
    SetSize(q.variants);
    SetSize(q.records);
    assert Elements(q.variants) == set v | v in q.variants;
    assert Elements(q.records) == set r | r in q.records;
    if |set v | v in q.variants| != |q.variants| || |q.variants| < 2 {
      return Err(VariantsNotUnique);
    }
    if |set r | r in q.records| != |q.records| || q.records == [] {
      return Err(RecordsNotUnique);
    }
    if q.slots < 1 || q.repetitions < 1 {
      return Err(CountsNotPositive);
    }
    if !(0 <= q.seed < SEEDS) {
      return Err(SeedOutOfRange);
    }
    var cells := Shuffled(rand, q);
    if q.sampleSize.Some? {
      if !(1 <= q.sampleSize.value <= |cells|) {
        return Err(SampleSizeOutOfRange);
      }
      cells := cells[..q.sampleSize.value];
    }
    SelectedCells(rand, q);
    var assignments := AssignCells(rand, q, cells);
    SetSize(Map(IdOf(), assignments));
    IdSet(assignments);
    if |set a | a in assignments :: a.id| != |assignments| {
      return Err(IdentityCollision);
    }
    result := Ok(assignments);
  }

  lemma IdSet(assignments: seq<PairAssignment>)
    ensures (set a | a in assignments :: a.id) == Elements(Map(IdOf(), assignments))
  {
    var ids := Map(IdOf(), assignments);
    forall a | a in assignments ensures a.id in ids {
      var i :| 0 <= i < |assignments| && assignments[i] == a;
      assert ids[i] == a.id;
    }
    forall x | x in ids ensures exists a :: a in assignments && a.id == x {
      var i :| 0 <= i < |ids| && ids[i] == x;
      assert assignments[i] in assignments;
    }
  }

  /** The selected cells belong to the design, and no cell is selected twice. */
  lemma SelectedCells(rand: Randomness, q: Request)
    requires rand.Lawful() && Valid(q)
    requires q.sampleSize.Some? ==> 1 <= q.sampleSize.value <= |Shuffled(rand, q)|
    ensures Distinct(Selected(rand, q))
    ensures forall cell | cell in Selected(rand, q) :: InDesign(cell, q.records, q.variants, q.slots, q.repetitions)
    ensures q.sampleSize.None? ==>
              forall cell :: InDesign(cell, q.records, q.variants, q.slots, q.repetitions) ==> cell in Selected(rand, q)
  {
    var all := Cells(q.records, q.variants, q.slots, q.repetitions);
    var shuffled, selected := Shuffled(rand, q), Selected(rand, q);
    CellsDistinct(q.records, q.variants, q.slots, q.repetitions);
    DistinctPermutation(all, shuffled);
    forall cell | cell in selected ensures InDesign(cell, q.records, q.variants, q.slots, q.repetitions) {
      assert cell in shuffled;
      assert cell in multiset(shuffled);
      assert cell in multiset(all);
      CellsSound(cell, q.records, q.variants, q.slots, q.repetitions);
    }
    forall cell | InDesign(cell, q.records, q.variants, q.slots, q.repetitions) ensures cell in shuffled {
      CellsComplete(cell, q.records, q.variants, q.slots, q.repetitions);
      assert cell in multiset(all);
      assert cell in multiset(shuffled);
    }
  }

  // ---------- balance of the finished design ----------

  function OriginalShows(a: string, b: string): PairAssignment -> bool {
    (x: PairAssignment) => x.orientation == 0 && x.variantA == a && x.variantB == b
  }

  function Shows(a: string, b: string): PairAssignment -> bool {
    (x: PairAssignment) => x.variantA == a && x.variantB == b
  }

  /** The variants of a cell come in string order, as combinations of sorted names do. */
  predicate InOrder(cell: Cell) { cell.left != cell.right && StringLeq(cell.left, cell.right) }

  lemma {:induction false} HitsBatch(batch: seq<PairAssignment>, p: PairAssignment -> bool)
    ensures |batch| == 1 ==> Hits(batch, p) == if p(batch[0]) then 1 else 0
    ensures |batch| == 2 ==> Hits(batch, p) == (if p(batch[0]) then 1 else 0) + if p(batch[1]) then 1 else 0
  {
    if |batch| == 2 {
      HitsBatch(batch[..1], p);
    }
  }

  lemma OneOrder(cell: Cell, left: string, right: string)
    requires InOrder(cell) && left != right && StringLeq(left, right)
    ensures !(cell.left == right && cell.right == left)
  {
    LexTotal(CharLeq, left, right);
  }

  /** One turn adds one to the count of its own pair and order. */
  lemma BatchCounted(uuid: string -> string, q: Request, cell: Cell, first: bool, left: string, right: string)
    requires InOrder(cell) && left != right && StringLeq(left, right)
    ensures var batch := AssignmentsOf(uuid, q, cell, first);
      && Hits(batch, OriginalShows(left, right)) == (if cell.left == left && cell.right == right && first then 1 else 0)
      && Hits(batch, OriginalShows(right, left))
         == (if cell.left == left && cell.right == right && !first then 1 else 0)
  {
    var batch := AssignmentsOf(uuid, q, cell, first);
    HitsBatch(batch, OriginalShows(left, right));
    HitsBatch(batch, OriginalShows(right, left));
    OneOrder(cell, left, right);
  }

  lemma {:induction false} OriginalsCounted(uuid: string -> string, q: Request, cells: seq<Cell>,
                                            leftFirst: seq<bool>, left: string, right: string)
    requires |cells| == |leftFirst| && forall cell | cell in cells :: InOrder(cell)
    requires left != right && StringLeq(left, right)
    ensures var all := Assignments(uuid, q, cells, leftFirst);
      && Hits(all, OriginalShows(left, right)) == Shown(cells, leftFirst, left, right, true)
      && Hits(all, OriginalShows(right, left)) == Shown(cells, leftFirst, left, right, false)
  {
    if cells != [] {
      var n := |cells| - 1;
      var batch := AssignmentsOf(uuid, q, cells[n], leftFirst[n]);
      var earlier := Assignments(uuid, q, cells[..n], leftFirst[..n]);
      assert cells[n] in cells;
      OriginalsCounted(uuid, q, cells[..n], leftFirst[..n], left, right);
      BatchCounted(uuid, q, cells[n], leftFirst[n], left, right);
      HitsConcat(earlier, batch, OriginalShows(left, right));
      HitsConcat(earlier, batch, OriginalShows(right, left));
    }
  }

  lemma {:induction false} DuplicatesCounted(uuid: string -> string, q: Request, cells: seq<Cell>,
                                             leftFirst: seq<bool>, a: string, b: string)
    requires |cells| == |leftFirst| && q.reversedDuplicates
    ensures var all := Assignments(uuid, q, cells, leftFirst);
      Hits(all, Shows(a, b)) == Hits(all, Shows(b, a))
  {
    if cells != [] {
      var n := |cells| - 1;
      var batch := AssignmentsOf(uuid, q, cells[n], leftFirst[n]);
      var earlier := Assignments(uuid, q, cells[..n], leftFirst[..n]);
      DuplicatesCounted(uuid, q, cells[..n], leftFirst[..n], a, b);
      HitsConcat(earlier, batch, Shows(a, b));
      HitsConcat(earlier, batch, Shows(b, a));
      HitsBatch(batch, Shows(a, b));
      HitsBatch(batch, Shows(b, a));
    }
  }

  /** For any two variants, the two display orders of the original assignments differ by at most
      one; with reversed duplicates they are exactly as frequent. */
  lemma DesignIsBalanced(rand: Randomness, q: Request, a: string, b: string)
    requires rand.Lawful() && a != b && BalancedPairs(rand, q).Ok?
    ensures var all := BalancedPairs(rand, q).value;
      && -1 <= Hits(all, OriginalShows(a, b)) - Hits(all, OriginalShows(b, a)) <= 1
      && (q.reversedDuplicates ==> Hits(all, Shows(a, b)) == Hits(all, Shows(b, a)))
  {
    var cells := Selected(rand, q);
    var orders := Orders(cells, TieBit(rand, q));
    SelectedCells(rand, q);
    LexTotal(CharLeq, a, b);
    var left, right := if StringLeq(a, b) then a else b, if StringLeq(a, b) then b else a;
    OriginalsCounted(rand.uuid, q, cells, orders, left, right);
    BalancedSoFar(cells, TieBit(rand, q), left, right);
    if q.reversedDuplicates {
      DuplicatesCounted(rand.uuid, q, cells, orders, a, b);
    }
  }

  // ---------- one assignment per cell ----------

  /** The cell an assignment compares. */
  function CellOf(x: PairAssignment): Cell {
    if StringLeq(x.variantA, x.variantB) then Cell(x.record, x.variantA, x.variantB, x.slot, x.repetition)
    else Cell(x.record, x.variantB, x.variantA, x.slot, x.repetition)
  }

  predicate IsReversal(original: PairAssignment, d: PairAssignment) {
    && original.orientation == 0 && original.reverseOf == None
    && d.orientation == 1 && d.reverseOf == Some(original.id)
    && d.variantA == original.variantB && d.variantB == original.variantA
    && d.record == original.record && d.slot == original.slot && d.repetition == original.repetition
    && d.designId == original.designId && d.orderSeed == original.orderSeed
  }

  lemma BatchCells(uuid: string -> string, q: Request, cell: Cell, leftFirst: bool)
    requires InOrder(cell)
    ensures forall x | x in AssignmentsOf(uuid, q, cell, leftFirst) :: CellOf(x) == cell
  {
    LexTotal(CharLeq, cell.left, cell.right);
  }

  lemma {:induction false} SingleAssignments(uuid: string -> string, q: Request, cells: seq<Cell>, leftFirst: seq<bool>)
    requires |cells| == |leftFirst| && !q.reversedDuplicates && forall cell | cell in cells :: InOrder(cell)
    ensures var all := Assignments(uuid, q, cells, leftFirst);
      |all| == |cells| && forall i | 0 <= i < |cells| :: CellOf(all[i]) == cells[i]
  {
    if cells != [] {
      var n := |cells| - 1;
      assert cells[n] in cells;
      SingleAssignments(uuid, q, cells[..n], leftFirst[..n]);
      BatchCells(uuid, q, cells[n], leftFirst[n]);
      assert AssignmentsOf(uuid, q, cells[n], leftFirst[n])[0] in AssignmentsOf(uuid, q, cells[n], leftFirst[n]);
    }
  }

  lemma {:induction false} DoubleAssignments(uuid: string -> string, q: Request, cells: seq<Cell>, leftFirst: seq<bool>)
    requires |cells| == |leftFirst| && q.reversedDuplicates && forall cell | cell in cells :: InOrder(cell)
    ensures var all := Assignments(uuid, q, cells, leftFirst);
      |all| == 2 * |cells| &&
      forall i | 0 <= i < |cells| :: CellOf(all[2 * i]) == cells[i] && IsReversal(all[2 * i], all[2 * i + 1])
  {
    if cells != [] {
      var n := |cells| - 1;
      assert cells[n] in cells;
      DoubleAssignments(uuid, q, cells[..n], leftFirst[..n]);
      BatchIsReversal(uuid, q, cells[n], leftFirst[n]);
      ExtendPairs(Assignments(uuid, q, cells[..n], leftFirst[..n]), cells,
                  AssignmentsOf(uuid, q, cells[n], leftFirst[n]));
    }
  }

  lemma BatchIsReversal(uuid: string -> string, q: Request, cell: Cell, leftFirst: bool)
    requires InOrder(cell) && q.reversedDuplicates
    ensures var batch := AssignmentsOf(uuid, q, cell, leftFirst);
      |batch| == 2 && CellOf(batch[0]) == cell && IsReversal(batch[0], batch[1])
  {
    BatchCells(uuid, q, cell, leftFirst);
    assert AssignmentsOf(uuid, q, cell, leftFirst)[0] in AssignmentsOf(uuid, q, cell, leftFirst);
  }

  lemma ExtendPairs(earlier: seq<PairAssignment>, cells: seq<Cell>, batch: seq<PairAssignment>)
    requires cells != [] && |batch| == 2 && |earlier| == 2 * (|cells| - 1)
    requires CellOf(batch[0]) == cells[|cells| - 1] && IsReversal(batch[0], batch[1])
    requires forall i | 0 <= i < |cells| - 1 ::
               CellOf(earlier[2 * i]) == cells[i] && IsReversal(earlier[2 * i], earlier[2 * i + 1])
    ensures var all := earlier + batch;
      forall i | 0 <= i < |cells| :: CellOf(all[2 * i]) == cells[i] && IsReversal(all[2 * i], all[2 * i + 1])
  {
  }

  /** Every selected cell gets exactly one original, in order; every duplicate follows its original,
      links to it and swaps A and B; without sampling every comparison of the design is there. */
  lemma DesignCoversCells(rand: Randomness, q: Request)
    requires rand.Lawful() && BalancedPairs(rand, q).Ok?
    ensures var all, cells := BalancedPairs(rand, q).value, Selected(rand, q);
      && Distinct(cells)
      && (forall cell | cell in cells :: InDesign(cell, q.records, q.variants, q.slots, q.repetitions))
      && (q.sampleSize.None? ==>
            forall cell :: InDesign(cell, q.records, q.variants, q.slots, q.repetitions) ==> cell in cells)
      && cells <= Shuffled(rand, q)
      && (q.sampleSize.Some? ==> |cells| == q.sampleSize.value)
      && (!q.reversedDuplicates ==> |all| == |cells| && forall i | 0 <= i < |cells| :: CellOf(all[i]) == cells[i])
      && (q.reversedDuplicates ==>
            |all| == 2 * |cells| &&
            forall i | 0 <= i < |cells| :: CellOf(all[2 * i]) == cells[i] && IsReversal(all[2 * i], all[2 * i + 1]))
  {
    SelectedCells(rand, q);
    if q.reversedDuplicates {
      DoubleAssignments(rand.uuid, q, Selected(rand, q), Orders(Selected(rand, q), TieBit(rand, q)));
    } else {
      SingleAssignments(rand.uuid, q, Selected(rand, q), Orders(Selected(rand, q), TieBit(rand, q)));
    }
  }

  // ---------- the rule behind the balance ----------

  /** The assignments without the duplicates between them. */
  function Originals(all: seq<PairAssignment>, duplicated: bool, n: nat): seq<PairAssignment>
    requires |all| == if duplicated then 2 * n else n
  {
    seq(n, i requires 0 <= i < n => all[if duplicated then 2 * i else i])
  }

  lemma {:induction false} AssignmentsLength(uuid: string -> string, q: Request, cells: seq<Cell>,
                                             leftFirst: seq<bool>)
    requires |cells| == |leftFirst|
    ensures |Assignments(uuid, q, cells, leftFirst)| == if q.reversedDuplicates then 2 * |cells| else |cells|
  {
    if cells != [] {
      AssignmentsLength(uuid, q, cells[..|cells| - 1], leftFirst[..|cells| - 1]);
    }
  }

  lemma {:induction false} OriginalAt(uuid: string -> string, q: Request, cells: seq<Cell>, leftFirst: seq<bool>,
                                      i: nat, at: nat)
    requires |cells| == |leftFirst| && i < |cells| && at == if q.reversedDuplicates then 2 * i else i
    ensures at < |Assignments(uuid, q, cells, leftFirst)|
    ensures Assignments(uuid, q, cells, leftFirst)[at] == Original(uuid, q, cells[i], leftFirst[i])
  {
    var n := |cells| - 1;
    var earlier := Assignments(uuid, q, cells[..n], leftFirst[..n]);
    AssignmentsLength(uuid, q, cells[..n], leftFirst[..n]);
    if i < n {
      OriginalAt(uuid, q, cells[..n], leftFirst[..n], i, at);
      assert cells[..n][i] == cells[i] && leftFirst[..n][i] == leftFirst[i];
    } else {
      assert at == |earlier|;
    }
  }

  /** What the counters of the loop count: originals that show this pair in this order. */
  lemma {:induction false} CountersCountOriginals(originals: seq<PairAssignment>, uuid: string -> string, q: Request,
                                                  cells: seq<Cell>, leftFirst: seq<bool>, left: string, right: string)
    requires |cells| == |leftFirst| == |originals| && forall cell | cell in cells :: InOrder(cell)
    requires forall i | 0 <= i < |cells| :: originals[i] == Original(uuid, q, cells[i], leftFirst[i])
    requires left != right && StringLeq(left, right)
    ensures Hits(originals, Shows(left, right)) == Shown(cells, leftFirst, left, right, true)
    ensures Hits(originals, Shows(right, left)) == Shown(cells, leftFirst, left, right, false)
  {
    if cells != [] {
      var n := |cells| - 1;
      assert cells[n] in cells;
      LexTotal(CharLeq, left, right);
      CountersCountOriginals(originals[..n], uuid, q, cells[..n], leftFirst[..n], left, right);
    }
  }

  /** Assignment x shows its cell in the order that fewer of the earlier originals have; on a tie the bit
      decides. */
  ghost predicate FollowsRule(earlier: seq<PairAssignment>, cell: Cell, bit: bool, x: PairAssignment) {
    var asListed, swapped := Hits(earlier, Shows(cell.left, cell.right)), Hits(earlier, Shows(cell.right, cell.left));
    if asListed < swapped || (asListed == swapped && bit) then x.variantA == cell.left && x.variantB == cell.right
    else x.variantA == cell.right && x.variantB == cell.left
  }

  /** An original of the design for this cell. */
  ghost predicate IsOriginalOf(q: Request, cell: Cell, x: PairAssignment) {
    && x.orientation == 0 && x.reverseOf == None && x.designId == q.designId && x.orderSeed == q.seed
    && x.record == cell.record && x.slot == cell.slot && x.repetition == cell.repetition
  }

  lemma {:induction false} RuleAt(originals: seq<PairAssignment>, uuid: string -> string, q: Request, cells: seq<Cell>,
                                  bit: (Cell, nat) -> bool, k: nat)
    requires |originals| == |cells| && k < |cells| && forall cell | cell in cells :: InOrder(cell)
    requires forall i | 0 <= i < |cells| :: originals[i] == Original(uuid, q, cells[i], Orders(cells, bit)[i])
    ensures FollowsRule(originals[..k], cells[k], bit(cells[k], k), originals[k])
    ensures IsOriginalOf(q, cells[k], originals[k])
  {
    var orders := Orders(cells, bit);
    assert cells[k] in cells;
    OrdersPrefix(cells, bit, k);
    OrdersPrefix(cells, bit, k + 1);
    assert cells[..k + 1][..k] == cells[..k] && orders[..k + 1][k] == orders[k];
    CountersCountOriginals(originals[..k], uuid, q, cells[..k], orders[..k], cells[k].left, cells[k].right);
  }

  /** Every original shows its pair in the order that fewer of the originals before it have; on a tie the
      bit drawn for this seed, cell and position decides. It belongs to the design and links to nothing. */
  lemma OriginalsFollowTheRule(rand: Randomness, q: Request)
    requires rand.Lawful() && BalancedPairs(rand, q).Ok?
    ensures var all, cells := BalancedPairs(rand, q).value, Selected(rand, q);
      && |all| == (if q.reversedDuplicates then 2 * |cells| else |cells|)
      && var originals := Originals(all, q.reversedDuplicates, |cells|);
        forall k | 0 <= k < |cells| ::
          && FollowsRule(originals[..k], cells[k], rand.bit(q.seed, cells[k], k), originals[k])
          && IsOriginalOf(q, cells[k], originals[k])
  {
    var cells, bit := Selected(rand, q), TieBit(rand, q);
    SelectedCells(rand, q);
    AssignmentsLength(rand.uuid, q, cells, Orders(cells, bit));
    var originals := Originals(BalancedPairs(rand, q).value, q.reversedDuplicates, |cells|);
    forall i | 0 <= i < |cells| ensures originals[i] == Original(rand.uuid, q, cells[i], Orders(cells, bit)[i]) {
      OriginalAt(rand.uuid, q, cells, Orders(cells, bit), i, if q.reversedDuplicates then 2 * i else i);
    }
    forall k | 0 <= k < |cells|
      ensures FollowsRule(originals[..k], cells[k], rand.bit(q.seed, cells[k], k), originals[k])
      ensures IsOriginalOf(q, cells[k], originals[k])
    {
      RuleAt(originals, rand.uuid, q, cells, bit, k);
    }
  }

  /** Which requests are refused, and how: the checks in order. */
  lemma RequestsFailExactly(rand: Randomness, q: Request)
    requires rand.Lawful()
    ensures var design := BalancedPairs(rand, q);
      if |q.variants| < 2 || exists i, j :: 0 <= i < j < |q.variants| && q.variants[i] == q.variants[j] then
        design == Err(VariantsNotUnique)
      else if |q.records| < 1 || exists i, j :: 0 <= i < j < |q.records| && q.records[i] == q.records[j] then
        design == Err(RecordsNotUnique)
      else if q.slots <= 0 || q.repetitions <= 0 then design == Err(CountsNotPositive)
      else if q.seed < 0 || q.seed > 18_446_744_073_709_551_615 then design == Err(SeedOutOfRange)
      else if q.sampleSize.Some? && (q.sampleSize.value < 1 ||
                q.sampleSize.value > |Cells(q.records, q.variants, q.slots, q.repetitions)|) then
        design == Err(SampleSizeOutOfRange)
      else design.Ok? || design == Err(IdentityCollision)
  {
    if q.slots >= 0 && q.repetitions >= 0 {
      SameElements(Cells(q.records, q.variants, q.slots, q.repetitions), Shuffled(rand, q));
    }
  }

  // ---------- verdicts ----------

  datatype Verdict = A | B | Tie | Abstain

  /** `winner_variant` */
  function Winner(x: PairAssignment, verdict: Verdict): Option<string> {
    match verdict
    case A => Some(x.variantA)
    case B => Some(x.variantB)
    case _ => None
  }

  datatype JudgmentError = NotLinked | UnknownAssignment

  /** `reversed_order_consistency` */
  function ReversedOrderConsistency(original: PairAssignment, verdict: Verdict, d: PairAssignment,
                                    reversedVerdict: Verdict)
    : Result<Option<bool>, JudgmentError>
  {
    if d.reverseOf != Some(original.id) then Err(NotLinked)
    else if verdict in {Abstain, Tie} || reversedVerdict in {Abstain, Tie} then Ok(None)
    else Ok(Some(Winner(original, verdict) == Winner(d, reversedVerdict)))
  }

  /** Only a pair that is linked is compared. */
  lemma UnlinkedIsRefused(original: PairAssignment, verdict: Verdict, d: PairAssignment, reversedVerdict: Verdict)
    ensures ReversedOrderConsistency(original, verdict, d, reversedVerdict) == Err(NotLinked) <==>
            d.reverseOf != Some(original.id)
  {
  }

  /** On a linked reversal, decisive verdicts are consistent exactly when the letters differ. */
  lemma ConsistentMeansOtherLetter(original: PairAssignment, verdict: Verdict, d: PairAssignment,
                                   reversedVerdict: Verdict)
    requires IsReversal(original, d) && original.variantA != original.variantB
    ensures var c := ReversedOrderConsistency(original, verdict, d, reversedVerdict);
      && c.Ok?
      && (c.value == Some(true) <==> (verdict == A && reversedVerdict == B) || (verdict == B && reversedVerdict == A))
      && (c.value == None <==> verdict in {Tie, Abstain} || reversedVerdict in {Tie, Abstain})
  {
  }

  datatype Judgment = Judgment(assignmentId: string, verdict: Verdict)

  function Says(v: Verdict): Judgment -> bool { (j: Judgment) => j.verdict == v }

  /** How often the displayed A and the displayed B won, and how far A's share is from one half. */
  datatype Bias = Bias(winsA: nat, winsB: nat, decisive: nat, winRate: real, effect: real)

  /** A's share of the decisive judgments, or one half without any. */
  function WinRate(winsA: nat, winsB: nat): real {
    if winsA + winsB == 0 then 0.5 else winsA as real / (winsA + winsB) as real
  }

  function BiasOf(judgments: seq<Judgment>): Bias {
    var winsA, winsB := Hits(judgments, Says(A)), Hits(judgments, Says(B));
    var rate := WinRate(winsA, winsB);
    Bias(winsA, winsB, winsA + winsB, rate, if rate >= 0.5 then rate - 0.5 else 0.5 - rate)
  }

  /** The share multiplied out: decisive times rate is A's wins. */
  lemma RateTimesDecisive(winsA: nat, winsB: nat)
    ensures WinRate(winsA, winsB) * (winsA + winsB) as real == winsA as real
  {
  }

  /** The rate is a share, the effect is at most one half, and it vanishes exactly when A and B won
      equally often. */
  lemma NoEffectExactlyOnEqualWins(judgments: seq<Judgment>)
    ensures var bias := BiasOf(judgments);
      && 0.0 <= bias.winRate <= 1.0 && 0.0 <= bias.effect <= 0.5
      && (bias.effect == 0.0 <==> bias.winsA == bias.winsB)
      && (bias.winRate > 0.5 <==> bias.winsA > bias.winsB)
  {
    var bias := BiasOf(judgments);
    if bias.decisive > 0 {
      RateTimesDecisive(bias.winsA, bias.winsB);
      Share(bias.winRate, bias.winsA as real, bias.decisive as real);
    }
  }

  /** `position_bias` */
  method PositionBias(assignments: map<string, PairAssignment>, judgments: seq<Judgment>)
    returns (result: Result<Bias, JudgmentError>)
    ensures result.Ok? <==> forall j | j in judgments :: j.assignmentId in assignments
    ensures result == if result.Ok? then Ok(BiasOf(judgments)) else Err(UnknownAssignment)
  {
    var winsA, winsB := 0, 0;
    for i := 0 to |judgments|
      invariant forall j | j in judgments[..i] :: j.assignmentId in assignments
      invariant winsA == Hits(judgments[..i], Says(A)) && winsB == Hits(judgments[..i], Says(B))
    {
      var judgment := judgments[i];
      assert judgments[..i + 1] == judgments[..i] + [judgment];
      HitsAppend(judgments[..i], judgment, Says(A));
      HitsAppend(judgments[..i], judgment, Says(B));
      if judgment.assignmentId !in assignments {
        assert judgment in judgments;
        return Err(UnknownAssignment);
      }
      if judgment.verdict == A {
        winsA := winsA + 1;
      } else if judgment.verdict == B {
        winsB := winsB + 1;
      }
    }
    assert judgments[..|judgments|] == judgments;
    var decisive := winsA + winsB;
    var rate := if decisive > 0 then winsA as real / decisive as real else 0.5;
    result := Ok(Bias(winsA, winsB, decisive, rate, if rate >= 0.5 then rate - 0.5 else 0.5 - rate));
  }

  /** The judgments of every assignment of a design, in order. */
  function JudgeAll(verdict: PairAssignment -> Verdict): PairAssignment -> Judgment {
    (x: PairAssignment) => Judgment(x.id, verdict(x))
  }

  /** A judge that is consistent on every linked pair wins as often from A as from B, so its rate is
      one half and its position effect vanishes. */
  lemma ConsistentJudgeHasNoBias(all: seq<PairAssignment>, m: nat, verdict: PairAssignment -> Verdict)
    requires |all| == 2 * m
    requires forall i | 0 <= i < m :: ConsistentAt(all, verdict, i)
    ensures var bias := BiasOf(Map(JudgeAll(verdict), all));
      bias.winsA == bias.winsB == m && bias.winRate == 0.5 && bias.effect == 0.0
  {
    ConsistentWins(all, m, verdict);
    NoEffectExactlyOnEqualWins(Map(JudgeAll(verdict), all));
  }

  /** Assignments 2i and 2i + 1 are linked, and judged consistently. */
  ghost predicate ConsistentAt(all: seq<PairAssignment>, verdict: PairAssignment -> Verdict, i: nat)
    requires 2 * i + 1 < |all|
  {
    var original, d := all[2 * i], all[2 * i + 1];
    && IsReversal(original, d) && original.variantA != original.variantB
    && ReversedOrderConsistency(original, verdict(original), d, verdict(d)) == Ok(Some(true))
  }

  lemma {:induction false} ConsistentWins(all: seq<PairAssignment>, m: nat, verdict: PairAssignment -> Verdict)
    requires |all| == 2 * m
    requires forall i | 0 <= i < m :: ConsistentAt(all, verdict, i)
    ensures Hits(Map(JudgeAll(verdict), all), Says(A)) == Hits(Map(JudgeAll(verdict), all), Says(B)) == m
  {
    if m > 0 {
      var judgments := Map(JudgeAll(verdict), all);
      var earlier, x, y := all[..2 * m - 2], judgments[2 * m - 2], judgments[2 * m - 1];
      var front := Map(JudgeAll(verdict), earlier);
      forall i | 0 <= i < m - 1 ensures ConsistentAt(earlier, verdict, i) {
        assert ConsistentAt(all, verdict, i);
      }
      ConsistentWins(earlier, m - 1, verdict);
      assert ConsistentAt(all, verdict, m - 1);
      ConsistentMeansOtherLetter(all[2 * m - 2], x.verdict, all[2 * m - 1], y.verdict);
      assert judgments == front + [x] + [y];
      HitsAppend(front, x, Says(A));
      HitsAppend(front, x, Says(B));
      HitsAppend(front + [x], y, Says(A));
      HitsAppend(front + [x], y, Says(B));
    }
  }
}
