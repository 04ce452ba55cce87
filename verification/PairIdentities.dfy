/**
 When the identifiers of a pair design can collide. The identity text joins its
 parts with a bar and does not escape bars inside them.
 */
module PairIdentities {
  import opened Ordering
  import opened PairDesign
  import opened Results

  predicate BarFree(s: string) { '|' !in s }

  // ---------- joining bar-free parts loses nothing ----------

  /** The first bar of the joined text comes right after the first part. */
  lemma FirstBar(a: string, rest: string)
    requires BarFree(a)
    ensures var text := a + "|" + rest;
      text[|a|] == '|' && text[..|a|] == a && text[|a| + 1..] == rest && forall i | 0 <= i < |a| :: text[i] != '|'
  {
    forall i | 0 <= i < |a| ensures (a + "|" + rest)[i] != '|' {
      assert a[i] in a;
    }
  }

  lemma SplitAtBar(a: string, restA: string, b: string, restB: string)
    requires BarFree(a) && BarFree(b)
    requires a + "|" + restA == b + "|" + restB
    ensures a == b && restA == restB
  {
    FirstBar(a, restA);
    FirstBar(b, restB);
    assert |a| == |b|;
  }

  lemma {:induction false} JoinInjective(a: seq<string>, b: seq<string>)
    requires |a| == |b| > 0
    requires (forall p | p in a :: BarFree(p)) && (forall p | p in b :: BarFree(p))
    requires Join(a) == Join(b)
    ensures a == b
  {
    assert BarFree(a[0]) && BarFree(b[0]);
    if |a| > 1 {
      SplitAtBar(a[0], Join(a[1..]), b[0], Join(b[1..]));
      JoinInjective(a[1..], b[1..]);
      assert a == [a[0]] + a[1..] && b == [b[0]] + b[1..];
    }
  }

  lemma DigitInjective(x: nat, y: nat)
    requires x < 10 && y < 10 && Digit(x) == Digit(y)
    ensures x == y && Digit(x) != '|'
  {
    var d := "0123456789";
    assert forall i, j | 0 <= i < j < 10 :: d[i] != d[j];
    assert forall i | 0 <= i < 10 :: d[i] != '|';
  }

  lemma {:induction false} DecimalLength(n: nat)
    ensures |Decimal(n)| >= 1 && (|Decimal(n)| == 1 <==> n < 10)
    ensures BarFree(Decimal(n))
  {
    DigitInjective(n % 10, n % 10);
    if n >= 10 {
      DecimalLength(n / 10);
    }
  }

  lemma {:induction false} DecimalInjective(x: nat, y: nat)
    requires Decimal(x) == Decimal(y)
    ensures x == y
    decreases x
  {
    DecimalLength(x);
    DecimalLength(y);
    var n := |Decimal(x)| - 1;
    assert Decimal(x)[n] == Digit(x % 10) && Decimal(y)[n] == Digit(y % 10);
    DigitInjective(x % 10, y % 10);
    if x >= 10 {
      assert Decimal(x)[..n] == Decimal(x / 10) && Decimal(y)[..n] == Decimal(y / 10);
      DecimalInjective(x / 10, y / 10);
    }
  }

  // ---------- identities of a design ----------

  function Identity(q: Request, cell: Cell, orientation: nat): seq<string> {
    [q.designId, cell.record, cell.left, cell.right, Decimal(cell.slot), Decimal(cell.repetition), Decimal(orientation)]
  }

  lemma SortOne(x: string)
    ensures Sort(StringLeq, [x]) == [x]
  {
    assert [x][1..] == [];
  }

  lemma SortPair(x: string, y: string)
    requires x != y && StringLeq(x, y)
    ensures Sort(StringLeq, [x, y]) == [x, y]
    ensures Sort(StringLeq, [y, x]) == [x, y]
  {
    LexTotal(CharLeq, x, y);
    SortOne(x);
    SortOne(y);
    assert [x, y][1..] == [y] && [y, x][1..] == [x];
    assert [x][1..] == [] && Insert(StringLeq, y, []) == [y];
    assert [x] + [y] == [x, y];
  }

  lemma PartsOfCell(q: Request, cell: Cell, orientation: nat)
    requires InOrder(cell)
    ensures IdentityParts(q.designId, cell.record, cell.left, cell.right, cell.slot, cell.repetition, orientation)
         == Identity(q, cell, orientation)
         == IdentityParts(q.designId, cell.record, cell.right, cell.left, cell.slot, cell.repetition, orientation)
  {
    SortPair(cell.left, cell.right);
  }

  /** Both display orders of a cell have the same identity text, apart from the orientation. */
  lemma BatchIdentities(uuid: string -> string, q: Request, cell: Cell, leftFirst: bool)
    requires InOrder(cell)
    ensures forall x | x in AssignmentsOf(uuid, q, cell, leftFirst) ::
              x.id == uuid(Join(Identity(q, cell, x.orientation)))
    ensures var batch := AssignmentsOf(uuid, q, cell, leftFirst);
      |batch| <= 2 && forall i | 0 <= i < |batch| :: batch[i].orientation == i && CellOf(batch[i]) == cell
  {
    PartsOfCell(q, cell, 0);
    PartsOfCell(q, cell, 1);
    BatchCells(uuid, q, cell, leftFirst);
    var batch := AssignmentsOf(uuid, q, cell, leftFirst);
    assert forall i | 0 <= i < |batch| :: batch[i] in batch;
  }

  /** Names that appear in identity texts hold no bar. */
  ghost predicate BarFreeNames(q: Request) {
    && BarFree(q.designId)
    && (forall r | r in q.records :: BarFree(r))
    && (forall v | v in q.variants :: BarFree(v))
  }

  ghost predicate BarFreeCell(cell: Cell) { BarFree(cell.record) && BarFree(cell.left) && BarFree(cell.right) }

  lemma IdentityInjective(q: Request, a: Cell, orientationA: nat, b: Cell, orientationB: nat)
    requires BarFree(q.designId) && BarFreeCell(a) && BarFreeCell(b)
    requires Join(Identity(q, a, orientationA)) == Join(Identity(q, b, orientationB))
    ensures a == b && orientationA == orientationB
  {
    var x, y := Identity(q, a, orientationA), Identity(q, b, orientationB);
    DecimalLength(a.slot);
    DecimalLength(a.repetition);
    DecimalLength(orientationA);
    DecimalLength(b.slot);
    DecimalLength(b.repetition);
    DecimalLength(orientationB);
    JoinInjective(x, y);
    assert x[1] == y[1] && x[2] == y[2] && x[3] == y[3] && x[4] == y[4] && x[5] == y[5] && x[6] == y[6];
    DecimalInjective(a.slot, b.slot);
    DecimalInjective(a.repetition, b.repetition);
    DecimalInjective(orientationA, orientationB);
  }

  /** Different identity texts of the design get different identifiers. */
  ghost predicate NoHashCollision(uuid: string -> string, q: Request, cells: seq<Cell>) {
    forall a, b, m, n | a in cells && b in cells && m in {0, 1} && n in {0, 1} &&
        uuid(Join(Identity(q, a, m))) == uuid(Join(Identity(q, b, n))) ::
      Join(Identity(q, a, m)) == Join(Identity(q, b, n))
  }

  lemma {:induction false} AssignmentIdentities(uuid: string -> string, q: Request, cells: seq<Cell>,
                                                leftFirst: seq<bool>)
    requires |cells| == |leftFirst| && forall cell | cell in cells :: InOrder(cell)
    ensures forall x | x in Assignments(uuid, q, cells, leftFirst) :: Identified(uuid, q, cells, x)
  {
    if cells != [] {
      var n := |cells| - 1;
      assert cells[n] in cells;
      AssignmentIdentities(uuid, q, cells[..n], leftFirst[..n]);
      BatchIdentities(uuid, q, cells[n], leftFirst[n]);
    }
  }

  /** Different cells have different identity texts. */
  ghost predicate DistinctTexts(q: Request, cells: seq<Cell>) {
    forall a, b | a in cells && b in cells && a != b :: Join(Identity(q, a, 0)) != Join(Identity(q, b, 0))
  }

  lemma {:induction false} JoinLast(parts: seq<string>, last: string)
    requires parts != []
    ensures Join(parts + [last]) == Join(parts) + "|" + last
  {
    if |parts| == 1 {
      assert (parts + [last])[1..] == [last];
    } else {
      assert (parts + [last])[1..] == parts[1..] + [last];
      JoinLast(parts[1..], last);
    }
  }

  /** The orientation is the text's last character, so equal texts have it in common, and the rest. */
  lemma SameStem(q: Request, a: Cell, m: nat, b: Cell, n: nat)
    requires m <= 1 && n <= 1 && Join(Identity(q, a, m)) == Join(Identity(q, b, n))
    ensures m == n && Join(Identity(q, a, 0)) == Join(Identity(q, b, 0))
  {
    var x := [q.designId, a.record, a.left, a.right, Decimal(a.slot), Decimal(a.repetition)];
    var y := [q.designId, b.record, b.left, b.right, Decimal(b.slot), Decimal(b.repetition)];
    assert Identity(q, a, m) == x + [[Digit(m)]] && Identity(q, b, n) == y + [[Digit(n)]];
    assert Identity(q, a, 0) == x + [[Digit(0)]] && Identity(q, b, 0) == y + [[Digit(0)]];
    JoinLast(x, [Digit(m)]);
    JoinLast(y, [Digit(n)]);
    JoinLast(x, [Digit(0)]);
    JoinLast(y, [Digit(0)]);
    SameEnd(Join(x) + "|", Digit(m), Join(y) + "|", Digit(n));
    DigitInjective(m, n);
  }

  lemma SameEnd(a: string, c: char, b: string, d: char)
    requires a + [c] == b + [d]
    ensures a == b && c == d
  {
    var text := a + [c];
    assert text[|text| - 1] == c && (b + [d])[|text| - 1] == d;
    assert text[..|text| - 1] == a && (b + [d])[..|text| - 1] == b;
  }

  /** The assignment is one of these cells', with the identifier its identity text hashes to. */
  ghost predicate Identified(uuid: string -> string, q: Request, cells: seq<Cell>, x: PairAssignment) {
    CellOf(x) in cells && x.orientation in {0, 1} && x.id == uuid(Join(Identity(q, CellOf(x), x.orientation)))
  }

  lemma {:induction false} DistinctIdentities(uuid: string -> string, q: Request, cells: seq<Cell>,
                                              leftFirst: seq<bool>)
    requires |cells| == |leftFirst| && Distinct(cells)
    requires forall cell | cell in cells :: InOrder(cell)
    requires DistinctTexts(q, cells) && NoHashCollision(uuid, q, cells)
    ensures Distinct(Map(IdOf(), Assignments(uuid, q, cells, leftFirst)))
  {
    if cells != [] {
      var n := |cells| - 1;
      var earlier := Assignments(uuid, q, cells[..n], leftFirst[..n]);
      var batch := AssignmentsOf(uuid, q, cells[n], leftFirst[n]);
      assert cells[n] in cells && cells[n] !in cells[..n];
      DistinctIdentities(uuid, q, cells[..n], leftFirst[..n]);
      AssignmentIdentities(uuid, q, cells[..n], leftFirst[..n]);
      BatchIdentities(uuid, q, cells[n], leftFirst[n]);
      forall x | x in earlier + batch ensures Identified(uuid, q, cells, x) {
        if x in batch {
          assert CellOf(x) == cells[n];
        }
      }
      IdsSeparate(uuid, q, cells, earlier + batch);
      JoinIds(earlier, batch, cells[n]);
    }
  }

  lemma IdsSeparate(uuid: string -> string, q: Request, cells: seq<Cell>, all: seq<PairAssignment>)
    requires DistinctTexts(q, cells) && NoHashCollision(uuid, q, cells)
    requires forall x | x in all :: Identified(uuid, q, cells, x)
    ensures forall x, y | x in all && y in all && (CellOf(x), x.orientation) != (CellOf(y), y.orientation) ::
              x.id != y.id
  {
    forall x, y | x in all && y in all && (CellOf(x), x.orientation) != (CellOf(y), y.orientation)
      ensures x.id != y.id
    {
      assert Identified(uuid, q, cells, x) && Identified(uuid, q, cells, y);
      if x.id == y.id {
        SameStem(q, CellOf(x), x.orientation, CellOf(y), y.orientation);
      }
    }
  }

  lemma JoinIds(earlier: seq<PairAssignment>, batch: seq<PairAssignment>, cell: Cell)
    requires Distinct(Map(IdOf(), earlier))
    requires forall x | x in earlier :: CellOf(x) != cell
    requires |batch| <= 2 && forall i | 0 <= i < |batch| :: batch[i].orientation == i && CellOf(batch[i]) == cell
    requires forall x, y | x in earlier + batch && y in batch &&
                             (CellOf(x), x.orientation) != (CellOf(y), y.orientation) ::
               x.id != y.id
    ensures Distinct(Map(IdOf(), earlier + batch))
  {
    var all := earlier + batch;
    forall i, j | 0 <= i < j < |all| ensures all[i].id != all[j].id {
      if j < |earlier| {
        assert Map(IdOf(), earlier)[i] != Map(IdOf(), earlier)[j];
      } else {
        assert all[i] in all && all[j] in batch;
        assert i < |earlier| ==> all[i] in earlier;
      }
    }
  }

  // ---------- exactly when a request fails ----------

  /** As long as the hash does not collide, a valid request succeeds if and only if the cells it
      compares have different identity texts; else it ends in the identity-collision error. */
  lemma CollidesExactlyOnSharedTexts(rand: Randomness, q: Request)
    requires rand.Lawful() && Valid(q)
    requires q.sampleSize.Some? ==> 1 <= q.sampleSize.value <= |Shuffled(rand, q)|
    requires NoHashCollision(rand.uuid, q, Selected(rand, q))
    ensures BalancedPairs(rand, q).Ok? <==> DistinctTexts(q, Selected(rand, q))
    ensures BalancedPairs(rand, q).Err? ==> BalancedPairs(rand, q) == Err(IdentityCollision)
  {
    if DistinctTexts(q, Selected(rand, q)) {
      DistinctTextsSucceed(rand, q);
    } else {
      SharedTextsFail(rand, q);
    }
  }

  lemma DistinctTextsSucceed(rand: Randomness, q: Request)
    requires rand.Lawful() && Valid(q)
    requires q.sampleSize.Some? ==> 1 <= q.sampleSize.value <= |Shuffled(rand, q)|
    requires NoHashCollision(rand.uuid, q, Selected(rand, q)) && DistinctTexts(q, Selected(rand, q))
    ensures BalancedPairs(rand, q).Ok?
  {
    SelectedCells(rand, q);
    DistinctIdentities(rand.uuid, q, Selected(rand, q), Orders(Selected(rand, q), TieBit(rand, q)));
  }

  lemma SharedTextsFail(rand: Randomness, q: Request)
    requires rand.Lawful() && Valid(q)
    requires q.sampleSize.Some? ==> 1 <= q.sampleSize.value <= |Shuffled(rand, q)|
    requires !DistinctTexts(q, Selected(rand, q))
    ensures BalancedPairs(rand, q) == Err(IdentityCollision)
  {
    var cells := Selected(rand, q);
    var a, b :| a in cells && b in cells && a != b && Join(Identity(q, a, 0)) == Join(Identity(q, b, 0));
    SharedTextCollides(rand, q, a, b);
  }

  /** When no name holds a bar and the hash does not collide, a valid request never ends in the
      identity-collision error. */
  lemma BarFreeNamesNeverCollide(rand: Randomness, q: Request)
    requires rand.Lawful() && Valid(q) && BarFreeNames(q)
    requires q.sampleSize.Some? ==> 1 <= q.sampleSize.value <= |Shuffled(rand, q)|
    requires NoHashCollision(rand.uuid, q, Selected(rand, q))
    ensures BalancedPairs(rand, q).Ok?
  {
    var cells := Selected(rand, q);
    SelectedCells(rand, q);
    forall a, b | a in cells && b in cells && a != b ensures Join(Identity(q, a, 0)) != Join(Identity(q, b, 0)) {
      if Join(Identity(q, a, 0)) == Join(Identity(q, b, 0)) {
        IdentityInjective(q, a, 0, b, 0);
      }
    }
    CollidesExactlyOnSharedTexts(rand, q);
  }

  /** Two cells that are compared and share their identity text make the request fail, whatever the
      hash, the shuffle and the tie bits. */
  lemma SharedTextCollides(rand: Randomness, q: Request, a: Cell, b: Cell)
    requires rand.Lawful() && Valid(q)
    requires q.sampleSize.Some? ==> 1 <= q.sampleSize.value <= |Shuffled(rand, q)|
    requires a in Selected(rand, q) && b in Selected(rand, q)
    requires a != b && Join(Identity(q, a, 0)) == Join(Identity(q, b, 0))
    ensures BalancedPairs(rand, q) == Err(IdentityCollision)
  {
    SelectedCells(rand, q);
    var k := IndexOf(Selected(rand, q), a);
    var l := IndexOf(Selected(rand, q), b);
    SharedTextRepeatsId(rand.uuid, q, Selected(rand, q), Orders(Selected(rand, q), TieBit(rand, q)), k, l);
  }

  // ---------- bars collide ----------

  lemma {:induction false} OriginalsPresent(uuid: string -> string, q: Request, cells: seq<Cell>,
                                            leftFirst: seq<bool>, k: nat)
    returns (i: nat)
    requires |cells| == |leftFirst| && k < |cells| && forall cell | cell in cells :: InOrder(cell)
    ensures var all := Assignments(uuid, q, cells, leftFirst);
      i < |all| && CellOf(all[i]) == cells[k] && all[i].id == uuid(Join(Identity(q, cells[k], 0)))
  {
    var n := |cells| - 1;
    if k < n {
      i := OriginalsPresent(uuid, q, cells[..n], leftFirst[..n], k);
    } else {
      assert cells[n] in cells;
      i := |Assignments(uuid, q, cells[..n], leftFirst[..n])|;
      BatchIdentities(uuid, q, cells[n], leftFirst[n]);
      var batch := AssignmentsOf(uuid, q, cells[n], leftFirst[n]);
      assert batch[0] in batch;
    }
  }

  /** In a full design every cell is compared, so any two that share their text make it fail. */
  lemma SameIdentityCollides(rand: Randomness, q: Request, a: Cell, b: Cell)
    requires rand.Lawful() && Valid(q) && q.sampleSize.None?
    requires InDesign(a, q.records, q.variants, q.slots, q.repetitions)
    requires InDesign(b, q.records, q.variants, q.slots, q.repetitions)
    requires a != b && Join(Identity(q, a, 0)) == Join(Identity(q, b, 0))
    ensures BalancedPairs(rand, q) == Err(IdentityCollision)
  {
    SelectedCells(rand, q);
    SharedTextCollides(rand, q, a, b);
  }

  lemma IndexOf(cells: seq<Cell>, cell: Cell) returns (k: nat)
    requires cell in cells
    ensures k < |cells| && cells[k] == cell
  {
    k :| k < |cells| && cells[k] == cell;
  }

  lemma {:induction false} SharedTextRepeatsId(uuid: string -> string, q: Request, cells: seq<Cell>,
                                               leftFirst: seq<bool>, k: nat, l: nat)
    requires |cells| == |leftFirst| && k < |cells| && l < |cells| && forall cell | cell in cells :: InOrder(cell)
    requires cells[k] != cells[l] && Join(Identity(q, cells[k], 0)) == Join(Identity(q, cells[l], 0))
    ensures !Distinct(Map(IdOf(), Assignments(uuid, q, cells, leftFirst)))
  {
    var i := OriginalsPresent(uuid, q, cells, leftFirst, k);
    var j := OriginalsPresent(uuid, q, cells, leftFirst, l);
    RepeatedId(Assignments(uuid, q, cells, leftFirst), i, j);
  }

  lemma RepeatedId(all: seq<PairAssignment>, i: nat, j: nat)
    requires i < |all| && j < |all| && i != j && all[i].id == all[j].id
    ensures !Distinct(Map(IdOf(), all))
  {
    assert Map(IdOf(), all)[i] == Map(IdOf(), all)[j];
  }

  const BARRED := ["a", "b|c", "a|b", "c"]

  lemma BarredVariants()
    ensures Distinct(BARRED)
    ensures "a" in BARRED && "b|c" in BARRED && "a|b" in BARRED && "c" in BARRED
    ensures "a" != "b|c" && "a|b" != "c" && StringLeq("a", "b|c") && StringLeq("a|b", "c")
  {
    assert "a"[0] != "c"[0] && "b|c"[0] != "a|b"[0] && |"a"| != |"a|b"| && |"c"| != |"b|c"|;
    assert BARRED[0] == "a" && BARRED[1] == "b|c" && BARRED[2] == "a|b" && BARRED[3] == "c";
  }

  /** For instance the variants a, b|c, a|b and c: the pairs (a, b|c) and (a|b, c) read the same. */
  lemma BarsCollide(rand: Randomness, designId: string, record: string, seed: int, reversed: bool)
    requires rand.Lawful() && 0 <= seed < SEEDS
    ensures BalancedPairs(rand, Request(designId, [record], BARRED, 1, 1, seed, None, reversed))
            == Err(IdentityCollision)
  {
    var q := Request(designId, [record], BARRED, 1, 1, seed, None, reversed);
    var x, y := Cell(record, "a", "b|c", 0, 0), Cell(record, "a|b", "c", 0, 0);
    BarredVariants();
    SameText(q, x, y);
    SameIdentityCollides(rand, q, x, y);
  }

  lemma SameText(q: Request, x: Cell, y: Cell)
    requires x.left == "a" && x.right == "b|c" && y.left == "a|b" && y.right == "c"
    requires x.record == y.record && x.slot == y.slot && x.repetition == y.repetition
    ensures Join(Identity(q, x, 0)) == Join(Identity(q, y, 0))
  {
    var tail := [Decimal(x.slot), Decimal(x.repetition), Decimal(0)];
    JoinFour(q.designId, x.record, x.left, x.right, tail);
    JoinFour(q.designId, y.record, y.left, y.right, tail);
    assert Identity(q, x, 0) == [q.designId, x.record, x.left, x.right] + tail;
    assert Identity(q, y, 0) == [q.designId, y.record, y.left, y.right] + tail;
    assert "a" + "|" + "b|c" == "a|b" + "|" + "c";
  }

  lemma {:induction false} JoinHead(x: string, rest: seq<string>)
    requires rest != []
    ensures Join([x] + rest) == x + "|" + Join(rest)
  {
    assert ([x] + rest)[1..] == rest;
  }

  lemma {:induction false} JoinPair(c: string, d: string, tail: seq<string>)
    requires tail != []
    ensures Join([c, d] + tail) == c + "|" + d + "|" + Join(tail)
  {
    assert [c, d] + tail == [c] + ([d] + tail);
    JoinHead(d, tail);
    JoinHead(c, [d] + tail);
    Regroup(c, d, Join(tail));
  }

  lemma {:induction false} JoinFour(a: string, b: string, c: string, d: string, tail: seq<string>)
    requires tail != []
    ensures Join([a, b, c, d] + tail) == a + "|" + (b + "|" + (c + "|" + d + "|" + Join(tail)))
  {
    var rest := [c, d] + tail;
    assert [a, b, c, d] + tail == [a] + ([b] + rest);
    JoinPair(c, d, tail);
    JoinHead(b, rest);
    JoinHead(a, [b] + rest);
  }

  lemma Regroup(c: string, d: string, rest: string)
    ensures c + "|" + (d + "|" + rest) == c + "|" + d + "|" + rest
  {
  }
}
