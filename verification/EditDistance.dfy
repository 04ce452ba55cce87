/** Levenshtein distance: the two-row loop, what it computes, and that it is a metric. */
module EditDistance {

  function Min(a: nat, b: nat): nat { if a <= b then a else b }

  function Differ<T(==)>(x: T, y: T): nat { if x == y then 0 else 1 }

  /** The textbook recursion, on last elements. */
  function Lev<T(==)>(a: seq<T>, b: seq<T>): nat
    decreases |a| + |b|
  {
    if a == [] then |b|
    else if b == [] then |a|
    else
      var a', b' := a[..|a| - 1], b[..|b| - 1];
      Min(Min(Lev(a, b') + 1, Lev(a', b) + 1), Lev(a', b') + Differ(a[|a| - 1], b[|b| - 1]))
  }

  // ---------- an independent reading: cheapest edit scripts ----------

  datatype Edit<T> = Keep | Substitute(with: T) | Insert(item: T) | Delete

  /** What a script turns `a` into, reading both from the right; None if it does not fit. */
  ghost predicate Turns<T>(a: seq<T>, script: seq<Edit<T>>, b: seq<T>)
    decreases |script|
  {
    if script == [] then a == [] && b == []
    else
      var rest := script[..|script| - 1];
      match script[|script| - 1]
      case Keep => a != [] && b != [] && a[|a| - 1] == b[|b| - 1] && Turns(a[..|a| - 1], rest, b[..|b| - 1])
      case Substitute(x) => a != [] && b != [] && b[|b| - 1] == x && Turns(a[..|a| - 1], rest, b[..|b| - 1])
      case Insert(x) => b != [] && b[|b| - 1] == x && Turns(a, rest, b[..|b| - 1])
      case Delete => a != [] && Turns(a[..|a| - 1], rest, b)
  }

  /** Keeping is free; every other edit costs one. */
  function Cost<T>(script: seq<Edit<T>>): nat {
    if script == [] then 0
    else Cost(script[..|script| - 1]) + if script[|script| - 1].Keep? then 0 else 1
  }

  lemma {:induction false} DropLast<T>(a: seq<T>, b: seq<T>)
    ensures a != [] ==> Lev(a, b) <= Lev(a[..|a| - 1], b) + 1
    ensures b != [] ==> Lev(a, b) <= Lev(a, b[..|b| - 1]) + 1
    ensures a != [] && b != [] ==> Lev(a, b) <= Lev(a[..|a| - 1], b[..|b| - 1]) + Differ(a[|a| - 1], b[|b| - 1])
  {
  }

  /** No script is cheaper. */
  lemma {:induction false} NoCheaperScript<T>(a: seq<T>, script: seq<Edit<T>>, b: seq<T>)
    requires Turns(a, script, b)
    ensures Lev(a, b) <= Cost(script)
    decreases |script|
  {
    if script != [] {
      var rest := script[..|script| - 1];
      DropLast(a, b);
      match script[|script| - 1]
      case Keep => NoCheaperScript(a[..|a| - 1], rest, b[..|b| - 1]);
      case Substitute(_) => NoCheaperScript(a[..|a| - 1], rest, b[..|b| - 1]);
      case Insert(_) => NoCheaperScript(a, rest, b[..|b| - 1]);
      case Delete => NoCheaperScript(a[..|a| - 1], rest, b);
    }
  }

  /** Some script costs exactly the distance. */
  lemma {:induction false} CheapestScript<T>(a: seq<T>, b: seq<T>) returns (script: seq<Edit<T>>)
    ensures Turns(a, script, b) && Cost(script) == Lev(a, b)
    decreases |a| + |b|
  {
    if a == [] && b == [] {
      return [];
    }
    var rest, last;
    if a != [] && (b == [] || Lev(a, b) == Lev(a[..|a| - 1], b) + 1) {
      rest := CheapestScript(a[..|a| - 1], b);
      last := Delete;
    } else if a == [] || Lev(a, b) == Lev(a, b[..|b| - 1]) + 1 {
      rest := CheapestScript(a, b[..|b| - 1]);
      last := Insert(b[|b| - 1]);
    } else {
      rest := CheapestScript(a[..|a| - 1], b[..|b| - 1]);
      last := if a[|a| - 1] == b[|b| - 1] then Keep else Substitute(b[|b| - 1]);
    }
    script := rest + [last];
    assert script[..|script| - 1] == rest;
  }

  /** The distance is the least cost of any edit script. */
  lemma {:induction false} LevIsLeastCost<T>(a: seq<T>, b: seq<T>)
    ensures exists script :: Turns(a, script, b) && Cost(script) == Lev(a, b)
    ensures forall script :: Turns(a, script, b) ==> Lev(a, b) <= Cost(script)
  {
    var best := CheapestScript(a, b);
    forall script | Turns(a, script, b) ensures Lev(a, b) <= Cost(script) {
      NoCheaperScript(a, script, b);
    }
  }

  // ---------- the metric laws ----------

  lemma {:induction false} LevSymmetric<T>(a: seq<T>, b: seq<T>)
    ensures Lev(a, b) == Lev(b, a)
    decreases |a| + |b|
  {
    if a != [] && b != [] {
      LevSymmetric(a, b[..|b| - 1]);
      LevSymmetric(a[..|a| - 1], b);
      LevSymmetric(a[..|a| - 1], b[..|b| - 1]);
    }
  }

  lemma {:induction false} LevZero<T>(a: seq<T>, b: seq<T>)
    ensures Lev(a, b) == 0 <==> a == b
    decreases |a| + |b|
  {
    if a != [] && b != [] {
      var a', b' := a[..|a| - 1], b[..|b| - 1];
      LevZero(a', b');
      assert a == a' + [a[|a| - 1]] && b == b' + [b[|b| - 1]];
    }
  }

  /** At least the difference, at most the larger, of the lengths. */
  lemma {:induction false} LevBounds<T>(a: seq<T>, b: seq<T>)
    ensures |a| - |b| <= Lev(a, b) && |b| - |a| <= Lev(a, b)
    ensures Lev(a, b) <= |a| || Lev(a, b) <= |b|
    decreases |a| + |b|
  {
    if a != [] && b != [] {
      LevBounds(a, b[..|b| - 1]);
      LevBounds(a[..|a| - 1], b);
      LevBounds(a[..|a| - 1], b[..|b| - 1]);
    }
  }

  lemma {:induction false} LevTriangle<T>(a: seq<T>, b: seq<T>, c: seq<T>)
    ensures Lev(a, c) <= Lev(a, b) + Lev(b, c)
    decreases |a| + |b| + |c|
  {
    LevBounds(a, b);
    LevBounds(b, c);
    LevBounds(a, c);
    if a != [] && b != [] && c != [] {
      var a', b', c' := a[..|a| - 1], b[..|b| - 1], c[..|c| - 1];
      DropLast(a, c);
      if Lev(a, b) == Lev(a', b) + 1 {
        LevTriangle(a', b, c);
      } else if Lev(b, c) == Lev(b, c') + 1 {
        LevTriangle(a, b, c');
      } else if Lev(a, b) == Lev(a, b') + 1 && Lev(b, c) == Lev(b', c) + 1 {
        LevTriangle(a, b', c);
      } else if Lev(a, b) == Lev(a, b') + 1 {
        LevTriangle(a, b', c');
      } else if Lev(b, c) == Lev(b', c) + 1 {
        LevTriangle(a', b', c);
      } else {
        LevTriangle(a', b', c');
      }
    }
  }

  // ---------- the loop ----------

  /** Row i of the table: distances from the first i items of `a` to each prefix of `b`. */
  ghost predicate IsRow<T>(row: seq<nat>, a: seq<T>, b: seq<T>) {
    |row| == |b| + 1 && forall j | 0 <= j <= |b| :: row[j] == Lev(a, b[..j])
  }

  /** One more cell of the current row, from its left, upper and diagonal neighbours. */
  lemma {:induction false} CellRule<T>(a: seq<T>, x: T, b: seq<T>, y: T)
    ensures Lev(a + [x], b + [y])
            == Min(Min(Lev(a + [x], b) + 1, Lev(a, b + [y]) + 1), Lev(a, b) + Differ(x, y))
  {
    assert (a + [x])[..|a|] == a;
    assert (b + [y])[..|b|] == b;
  }

  lemma {:induction false} RowAt<T>(row: seq<nat>, a: seq<T>, b: seq<T>, j: nat, prefix: seq<T>)
    requires IsRow(row, a, b) && j <= |b| && prefix == b[..j]
    ensures row[j] == Lev(a, prefix)
  {
  }

  lemma {:induction false} CellValue<T>(previous: seq<nat>, current: seq<nat>, a: seq<T>, x: T, b: seq<T>, j: nat)
    requires j < |b| && IsRow(previous, a, b) && IsRow(current, a + [x], b[..j])
    ensures Min(Min(current[j] + 1, previous[j + 1] + 1), previous[j] + Differ(x, b[j])) == Lev(a + [x], b[..j + 1])
  {
    var p, q := b[..j], b[..j + 1];
    assert q == p + [b[j]] && p == b[..j][..j];
    RowAt(current, a + [x], b[..j], j, p);
    RowAt(previous, a, b, j, p);
    RowAt(previous, a, b, j + 1, p + [b[j]]);
    CellRule(a, x, p, b[j]);
  }

  lemma {:induction false} RowExtends<T>(row: seq<nat>, a: seq<T>, b: seq<T>, j: nat, cell: nat)
    requires j < |b| && IsRow(row, a, b[..j]) && cell == Lev(a, b[..j + 1])
    ensures IsRow(row + [cell], a, b[..j + 1])
  {
    forall k | 0 <= k <= j + 1 ensures (row + [cell])[k] == Lev(a, b[..j + 1][..k]) {
      if k <= j {
        assert b[..j + 1][..k] == b[..j][..k];
      } else {
        assert b[..j + 1][..k] == b[..j + 1];
      }
    }
  }

  lemma {:induction false} WholeRow<T>(row: seq<nat>, a: seq<T>, b: seq<T>)
    requires IsRow(row, a, b)
    ensures row[|row| - 1] == Lev(a, b)
  {
    assert b[..|b|] == b;
  }

  /** The inner loop: the row of `a + [x]` from the row of `a`. */
  method NextRow<T(==)>(previous: seq<nat>, ghost a: seq<T>, x: T, b: seq<T>) returns (current: seq<nat>)
    requires IsRow(previous, a, b)
    ensures IsRow(current, a + [x], b)
  {
    current := [previous[0] + 1];
    assert IsRow(current, a + [x], b[..0]) by {
      assert previous[0] == Lev(a, b[..0]);
      assert b[..0] == [];
    }
    for j := 0 to |b|
      invariant |current| == j + 1 && IsRow(current, a + [x], b[..j])
    {
      var cell := Min(Min(current[|current| - 1] + 1, previous[j + 1] + 1), previous[j] + Differ(x, b[j]));
      CellValue(previous, current, a, x, b, j);
      RowExtends(current, a + [x], b, j, cell);
      current := current + [cell];
    }
    assert b[..|b|] == b;
  }

  method EditDistance<T(==)>(left: seq<T>, right: seq<T>) returns (distance: nat)
    ensures distance == Lev(left, right)
  {
    var longer, shorter := left, right;
    if |left| < |right| {
      longer, shorter := right, left;
      LevSymmetric(left, right);
    }
    var previous: seq<nat> := seq(|shorter| + 1, i => i);
    assert longer[..0] == [];
    for i := 0 to |longer|
      invariant IsRow(previous, longer[..i], shorter)
    {
      assert longer[..i + 1] == longer[..i] + [longer[i]];
      previous := NextRow(previous, longer[..i], longer[i], shorter);
    }
    assert longer[..|longer|] == longer;
    WholeRow(previous, longer, shorter);
    distance := previous[|previous| - 1];
  }

  // ---------- error rates ----------

  lemma Quotient(d: nat, n: nat)
    requires n > 0
    ensures var q := d as real / n as real;
            q >= 0.0 && (q == 0.0 <==> d == 0) && (d <= n ==> q <= 1.0)
  {
  }

  /** `character_error_rate` on characters and `word_error_rate` on words. */
  method ErrorRate<T(==)>(prediction: seq<T>, reference: seq<T>) returns (rate: real)
    ensures rate >= 0.0
    ensures rate == 0.0 <==> prediction == reference
    ensures reference != [] ==> rate == Lev(prediction, reference) as real / |reference| as real
    ensures reference == [] && prediction != [] ==> rate == 1.0
    ensures |prediction| <= |reference| ==> rate <= 1.0
  {
    if reference == [] {
      return if prediction == [] then 0.0 else 1.0;
    }
    var distance := EditDistance(prediction, reference);
    LevZero(prediction, reference);
    LevBounds(prediction, reference);
    Quotient(distance, |reference|);
    rate := distance as real / |reference| as real;
  }
}
