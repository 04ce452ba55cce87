/** Counting the items of a sequence that satisfy a predicate. */
module Counting {

  /** How many items satisfy p. */
  function Hits<T>(rows: seq<T>, p: T -> bool): nat {
    if rows == [] then 0
    else Hits(rows[..|rows| - 1], p) + if p(rows[|rows| - 1]) then 1 else 0
  }

  lemma {:induction false} HitsAppend<T>(rows: seq<T>, x: T, p: T -> bool)
    ensures Hits(rows + [x], p) == Hits(rows, p) + if p(x) then 1 else 0
  {
    assert (rows + [x])[..|rows|] == rows;
  }

  lemma {:induction false} HitsConcat<T>(a: seq<T>, b: seq<T>, p: T -> bool)
    ensures Hits(a + b, p) == Hits(a, p) + Hits(b, p)
  {
    if b == [] {
      assert a + b == a;
    } else {
      var n := |b| - 1;
      assert (a + b)[..|a + b| - 1] == a + b[..n];
      HitsConcat(a, b[..n], p);
    }
  }

  lemma {:induction false} HitsUpdate<T>(rows: seq<T>, i: nat, x: T, p: T -> bool)
    requires i < |rows|
    ensures Hits(rows[i := x], p) + (if p(rows[i]) then 1 else 0) == Hits(rows, p) + if p(x) then 1 else 0
  {
    var n := |rows| - 1;
    if i == n {
      assert rows[i := x][..n] == rows[..n];
    } else {
      assert rows[i := x][..n] == rows[..n][i := x];
      HitsUpdate(rows[..n], i, x, p);
    }
  }

  lemma {:induction false} HitsPositive<T>(rows: seq<T>, i: nat, p: T -> bool)
    requires i < |rows| && p(rows[i])
    ensures Hits(rows, p) > 0
  {
    if i < |rows| - 1 {
      HitsPositive(rows[..|rows| - 1], i, p);
    }
  }

  lemma {:induction false} HitsZero<T>(rows: seq<T>, p: T -> bool)
    ensures Hits(rows, p) == 0 <==> forall i | 0 <= i < |rows| :: !p(rows[i])
  {
    if rows != [] {
      HitsZero(rows[..|rows| - 1], p);
    }
  }
}
