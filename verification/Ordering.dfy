/**
 Total orders, a stable insertion sort standing for Python's `sorted`, and the
 code-point order on strings. Everything that sorts in this project relies on
 one fact: two sorted sequences with the same elements are the same sequence.
 */
module Ordering {

  /** `leq` orders the elements of `s` totally. */
  ghost predicate TotalOn<T>(leq: (T, T) -> bool, s: seq<T>) {
    && (forall x, y | x in s && y in s :: leq(x, y) || leq(y, x))
    && (forall x, y, z | x in s && y in s && z in s && leq(x, y) && leq(y, z) :: leq(x, z))
  }

  /** No two different elements of `s` tie. */
  ghost predicate AntisymmetricOn<T>(leq: (T, T) -> bool, s: seq<T>) {
    forall x, y | x in s && y in s && leq(x, y) && leq(y, x) :: x == y
  }

  ghost predicate SortedBy<T>(leq: (T, T) -> bool, s: seq<T>) {
    forall i, j | 0 <= i < j < |s| :: leq(s[i], s[j])
  }

  ghost predicate Distinct<T>(s: seq<T>) {
    forall i, j | 0 <= i < j < |s| :: s[i] != s[j]
  }

  function Insert<T>(leq: (T, T) -> bool, x: T, s: seq<T>): seq<T> {
    if s == [] then [x]
    else if leq(x, s[0]) then [x] + s
    else [s[0]] + Insert(leq, x, s[1..])
  }

  /** Stable: an element goes before the later elements that tie with it. */
  function Sort<T>(leq: (T, T) -> bool, s: seq<T>): seq<T> {
    if s == [] then [] else Insert(leq, s[0], Sort(leq, s[1..]))
  }

  lemma SameElements<T>(a: seq<T>, b: seq<T>)
    requires multiset(a) == multiset(b)
    ensures |a| == |b|
    ensures forall x :: x in a <==> x in b
  {
    assert |multiset(a)| == |a| && |multiset(b)| == |b|;
    forall x ensures x in a <==> x in b {
      assert x in multiset(a) <==> x in multiset(b);
    }
  }

  lemma {:induction false} SortPermutes<T>(leq: (T, T) -> bool, s: seq<T>)
    ensures multiset(Sort(leq, s)) == multiset(s)
    ensures |Sort(leq, s)| == |s|
    ensures forall x :: x in Sort(leq, s) <==> x in s
  {
    if s != [] {
      SortPermutes(leq, s[1..]);
      InsertPermutes(leq, s[0], Sort(leq, s[1..]));
      assert s == [s[0]] + s[1..];
    }
    SameElements(Sort(leq, s), s);
  }

  lemma {:induction false} InsertPermutes<T>(leq: (T, T) -> bool, x: T, s: seq<T>)
    ensures multiset(Insert(leq, x, s)) == multiset{x} + multiset(s)
  {
    if s != [] && !leq(x, s[0]) {
      InsertPermutes(leq, x, s[1..]);
      assert multiset([s[0]] + s[1..]) == multiset{s[0]} + multiset(s[1..]);
      assert s == [s[0]] + s[1..];
    }
  }

  lemma TotalOnPart<T>(leq: (T, T) -> bool, s: seq<T>, part: seq<T>)
    requires TotalOn(leq, s)
    requires forall x | x in part :: x in s
    ensures TotalOn(leq, part)
  {
  }

  lemma {:induction false} SortSorts<T>(leq: (T, T) -> bool, s: seq<T>)
    requires TotalOn(leq, s)
    ensures SortedBy(leq, Sort(leq, s))
    ensures multiset(Sort(leq, s)) == multiset(s)
    ensures |Sort(leq, s)| == |s|
    ensures forall x :: x in Sort(leq, s) <==> x in s
  {
    SortPermutes(leq, s);
    if s != [] {
      TotalOnPart(leq, s, s[1..]);
      SortSorts(leq, s[1..]);
      var rest := Sort(leq, s[1..]);
      SameElements(rest, s[1..]);
      forall x | x in [s[0]] + rest ensures x in s {
        if x != s[0] {
          assert x in rest;
          assert x in multiset(rest);
          assert x in multiset(s[1..]);
          assert x in s[1..];
        }
      }
      TotalOnPart(leq, s, [s[0]] + rest);
      InsertSorts(leq, s[0], rest);
    }
  }

  lemma {:induction false} InsertSorts<T>(leq: (T, T) -> bool, x: T, s: seq<T>)
    requires TotalOn(leq, [x] + s) && SortedBy(leq, s)
    ensures SortedBy(leq, Insert(leq, x, s))
  {
    if s != [] {
      assert x in [x] + s && forall y | y in s :: y in [x] + s;
      if leq(x, s[0]) {
        forall j | 0 <= j < |s| ensures leq(x, s[j]) {
          assert s[j] in s && s[0] in s;
        }
      } else {
        var rest := Insert(leq, x, s[1..]);
        InsertSorts(leq, x, s[1..]);
        InsertPermutes(leq, x, s[1..]);
        assert s[0] in s;
        forall j | 0 <= j < |rest| ensures leq(s[0], rest[j]) {
          assert rest[j] in multiset(rest);
          assert rest[j] == x || rest[j] in s[1..];
        }
      }
    }
  }

  lemma SortedHead<T>(leq: (T, T) -> bool, a: seq<T>, b: seq<T>)
    requires |a| == |b| > 0 && a[0] in b && b[0] in a
    requires SortedBy(leq, a) && SortedBy(leq, b)
    requires AntisymmetricOn(leq, a)
    ensures a[0] == b[0]
  {
    var i :| 0 <= i < |b| && b[i] == a[0];
    var j :| 0 <= j < |a| && a[j] == b[0];
    if i != 0 && j != 0 {
      assert leq(b[0], b[i]) && leq(a[0], a[j]);
    }
  }

  /** The reason every sorted result is independent of the input order. */
  lemma {:induction false} SortedUnique<T>(leq: (T, T) -> bool, a: seq<T>, b: seq<T>)
    requires multiset(a) == multiset(b)
    requires SortedBy(leq, a) && SortedBy(leq, b)
    requires AntisymmetricOn(leq, a)
    ensures a == b
  {
    SameElements(a, b);
    if a != [] {
      assert a[0] in b && b[0] in a;
      SortedHead(leq, a, b);
      SameTails(a, b);
      AntisymmetricTail(leq, a);
      SortedUnique(leq, a[1..], b[1..]);
      assert a == [a[0]] + a[1..] && b == [b[0]] + b[1..];
    }
  }

  lemma SameTails<T>(a: seq<T>, b: seq<T>)
    requires multiset(a) == multiset(b) && a != [] && b != [] && a[0] == b[0]
    ensures multiset(a[1..]) == multiset(b[1..])
  {
    assert a == [a[0]] + a[1..] && b == [b[0]] + b[1..];
    assert multiset(a[1..]) == multiset(a) - multiset{a[0]};
    assert multiset(b[1..]) == multiset(b) - multiset{b[0]};
  }

  lemma AntisymmetricTail<T>(leq: (T, T) -> bool, a: seq<T>)
    requires AntisymmetricOn(leq, a) && a != []
    ensures AntisymmetricOn(leq, a[1..])
  {
  }

  /** Sorting forgets the input order whenever distinct elements never tie. */
  lemma {:induction false} SortOrderIndependent<T>(leq: (T, T) -> bool, a: seq<T>, b: seq<T>)
    requires multiset(a) == multiset(b)
    requires TotalOn(leq, a) && AntisymmetricOn(leq, a)
    ensures Sort(leq, a) == Sort(leq, b)
  {
    SameElements(a, b);
    SortSorts(leq, a);
    TotalOnPart(leq, a, b);
    SortSorts(leq, b);
    assert AntisymmetricOn(leq, Sort(leq, a));
    SortedUnique(leq, Sort(leq, a), Sort(leq, b));
  }

  lemma DistinctFromMultiset<T>(s: seq<T>)
    requires forall x :: multiset(s)[x] <= 1
    ensures Distinct(s)
  {
    forall i, j | 0 <= i < j < |s| ensures s[i] != s[j] {
      assert s == s[..j] + [s[j]] + s[j + 1..];
      assert s[i] in s[..j];
      assert multiset(s)[s[j]] == multiset(s[..j])[s[j]] + 1 + multiset(s[j + 1..])[s[j]];
    }
  }

  lemma {:induction false} MultisetFromDistinct<T>(s: seq<T>)
    requires Distinct(s)
    ensures forall x :: multiset(s)[x] <= 1
  {
    if s != [] {
      assert s == [s[0]] + s[1..];
      MultisetFromDistinct(s[1..]);
      assert s[0] !in s[1..];
    }
  }

  lemma DistinctPermutation<T>(a: seq<T>, b: seq<T>)
    requires multiset(a) == multiset(b) && Distinct(a)
    ensures Distinct(b)
  {
    MultisetFromDistinct(a);
    DistinctFromMultiset(b);
  }

  // ---------- lexicographic order ----------

  function LexLeq<T(==)>(leq: (T, T) -> bool, a: seq<T>, b: seq<T>): bool {
    if a == [] then true
    else if b == [] then false
    else if a[0] == b[0] then LexLeq(leq, a[1..], b[1..])
    else leq(a[0], b[0])
  }

  ghost predicate TotalOrder<T(!new)>(leq: (T, T) -> bool) {
    && (forall x, y :: leq(x, y) || leq(y, x))
    && (forall x, y :: leq(x, y) && leq(y, x) ==> x == y)
    && (forall x, y, z :: leq(x, y) && leq(y, z) ==> leq(x, z))
  }

  lemma {:induction false} LexTotal<T(!new)>(leq: (T, T) -> bool, a: seq<T>, b: seq<T>)
    requires TotalOrder(leq)
    ensures LexLeq(leq, a, b) || LexLeq(leq, b, a)
    ensures LexLeq(leq, a, b) && LexLeq(leq, b, a) ==> a == b
  {
    if a != [] && b != [] && a[0] == b[0] {
      LexTotal(leq, a[1..], b[1..]);
      assert a == [a[0]] + a[1..] && b == [b[0]] + b[1..];
    }
  }

  lemma {:induction false} LexTransitive<T(!new)>(leq: (T, T) -> bool, a: seq<T>, b: seq<T>, c: seq<T>)
    requires TotalOrder(leq)
    requires LexLeq(leq, a, b) && LexLeq(leq, b, c)
    ensures LexLeq(leq, a, c)
  {
    if a != [] && b != [] && c != [] && a[0] == b[0] && b[0] == c[0] {
      LexTransitive(leq, a[1..], b[1..], c[1..]);
    }
  }

  lemma LexIsTotalOrder<T(!new)>(leq: (T, T) -> bool)
    requires TotalOrder(leq)
    ensures TotalOrder((a: seq<T>, b: seq<T>) => LexLeq(leq, a, b))
  {
    forall a: seq<T>, b: seq<T>
      ensures LexLeq(leq, a, b) || LexLeq(leq, b, a)
      ensures LexLeq(leq, a, b) && LexLeq(leq, b, a) ==> a == b
    {
      LexTotal(leq, a, b);
    }
    forall a: seq<T>, b: seq<T>, c: seq<T> | LexLeq(leq, a, b) && LexLeq(leq, b, c)
      ensures LexLeq(leq, a, c)
    {
      LexTransitive(leq, a, b, c);
    }
  }

  predicate CharLeq(a: char, b: char) { a <= b }

  /** Python compares strings by code point. */
  predicate StringLeq(a: string, b: string) { LexLeq(CharLeq, a, b) }

  lemma StringOrder()
    ensures TotalOrder(StringLeq)
  {
    LexIsTotalOrder(CharLeq);
    forall a, b
      ensures StringLeq(a, b) || StringLeq(b, a)
      ensures StringLeq(a, b) && StringLeq(b, a) ==> a == b
    {
      LexTotal(CharLeq, a, b);
    }
    forall a, b, c | StringLeq(a, b) && StringLeq(b, c) ensures StringLeq(a, c) {
      LexTransitive(CharLeq, a, b, c);
    }
  }

  /** The first place where two sequences differ. */
  ghost predicate DifferFirstAt<T>(a: seq<T>, b: seq<T>, k: nat) {
    k < |a| && k < |b| && a[..k] == b[..k] && a[k] != b[k]
  }

  /** Lexicographic order without the recursion: a prefix comes first, otherwise the first difference decides. */
  lemma {:induction false} LexLeqExactly<T(!new)>(leq: (T, T) -> bool, a: seq<T>, b: seq<T>)
    requires TotalOrder(leq)
    ensures LexLeq(leq, a, b) <==> a <= b || exists k: nat :: DifferFirstAt(a, b, k) && leq(a[k], b[k])
  {
    if a != [] && b != [] {
      if a[0] != b[0] {
        assert DifferFirstAt(a, b, 0);
      } else {
        LexLeqExactly(leq, a[1..], b[1..]);
        assert a == [a[0]] + a[1..] && b == [b[0]] + b[1..];
        if k: nat :| DifferFirstAt(a[1..], b[1..], k) && leq(a[1..][k], b[1..][k]) {
          assert a[..k + 1] == [a[0]] + a[1..][..k] && b[..k + 1] == [b[0]] + b[1..][..k];
          assert DifferFirstAt(a, b, k + 1);
        }
        if k: nat :| DifferFirstAt(a, b, k) && leq(a[k], b[k]) {
          assert a[1..][..k - 1] == a[..k][1..] && b[1..][..k - 1] == b[..k][1..];
          assert DifferFirstAt(a[1..], b[1..], k - 1);
        }
      }
    }
  }

  /** Strings compare by the code points at their first difference; a prefix comes first. */
  lemma StringLeqExactly(a: string, b: string)
    ensures StringLeq(a, b) <==> a <= b || exists k: nat :: DifferFirstAt(a, b, k) && a[k] < b[k]
  {
    LexLeqExactly(CharLeq, a, b);
    forall k: nat | DifferFirstAt(a, b, k) ensures CharLeq(a[k], b[k]) <==> a[k] < b[k] {
    }
  }

  // ---------- a finite set listed in order ----------

  /** `sorted(set)`: the members of `keys`, ascending. */
  ghost predicate Lists<T>(leq: (T, T) -> bool, keys: set<T>, s: seq<T>) {
    && SortedBy(leq, s)
    && Distinct(s)
    && (forall k | k in s :: k in keys)
    && (forall k | k in keys :: k in s)
  }

  lemma ListsUnique<T>(leq: (T, T) -> bool, keys: set<T>, a: seq<T>, b: seq<T>)
    requires Lists(leq, keys, a) && Lists(leq, keys, b)
    requires AntisymmetricOn(leq, a)
    ensures a == b
  {
    MultisetFromDistinct(a);
    MultisetFromDistinct(b);
    forall x ensures multiset(a)[x] == multiset(b)[x] {
      assert x in multiset(a) <==> x in a;
      assert x in multiset(b) <==> x in b;
    }
    assert multiset(a) == multiset(b);
    SortedUnique(leq, a, b);
  }

  ghost function Enumerate(keys: set<string>): (r: seq<string>)
    ensures Distinct(r)
    ensures forall k :: k in r <==> k in keys
  {
    if keys == {} then []
    else
      var k :| k in keys;
      [k] + Enumerate(keys - {k})
  }

  /** `sorted(keys)` */
  ghost function Listing(keys: set<string>): seq<string> { Sort(StringLeq, Enumerate(keys)) }

  lemma ListingLists(keys: set<string>)
    ensures Lists(StringLeq, keys, Listing(keys))
  {
    StringOrder();
    SortSorts(StringLeq, Enumerate(keys));
    DistinctPermutation(Enumerate(keys), Listing(keys));
  }

  lemma ListingUnique(keys: set<string>, listed: seq<string>)
    requires Lists(StringLeq, keys, listed)
    ensures listed == Listing(keys)
  {
    StringOrder();
    ListingLists(keys);
    ListsUnique(StringLeq, keys, listed, Listing(keys));
  }

  method SortedKeys(keys: set<string>) returns (listed: seq<string>)
    ensures listed == Listing(keys)
  {
    var rest, found := keys, [];
    while rest != {}
      invariant rest <= keys && Distinct(found)
      invariant forall k :: k in found <==> k in keys - rest
      decreases |rest|
    {
      var k :| k in rest;
      assert forall j | 0 <= j < |found| :: found[j] in found;
      found := found + [k];
      rest := rest - {k};
    }
    listed := Sort(StringLeq, found);
    StringOrder();
    SortSorts(StringLeq, found);
    DistinctPermutation(found, listed);
    ListingUnique(keys, listed);
  }

  // ---------- nested comprehensions ----------

  /** `[y for x in xs for y in f(x)]` */
  function FlatMap<X, Y>(xs: seq<X>, f: X -> seq<Y>): seq<Y> {
    if xs == [] then [] else f(xs[0]) + FlatMap(xs[1..], f)
  }

  lemma {:induction false} FlatMapSource<X, Y>(xs: seq<X>, f: X -> seq<Y>, y: Y) returns (x: X)
    requires y in FlatMap(xs, f)
    ensures x in xs && y in f(x)
  {
    if y in f(xs[0]) {
      x := xs[0];
    } else {
      x := FlatMapSource(xs[1..], f, y);
    }
  }

  lemma {:induction false} FlatMapTarget<X, Y>(xs: seq<X>, f: X -> seq<Y>, x: X, y: Y)
    requires x in xs && y in f(x)
    ensures y in FlatMap(xs, f)
  {
    if x != xs[0] {
      FlatMapTarget(xs[1..], f, x, y);
    }
  }

  /** Nested comprehensions over distinct items yield distinct items. */
  lemma {:induction false} FlatMapDistinct<X, Y>(xs: seq<X>, f: X -> seq<Y>)
    requires Distinct(xs)
    requires forall x | x in xs :: Distinct(f(x))
    requires forall x, x', y | x in xs && x' in xs && y in f(x) && y in f(x') :: x == x'
    ensures Distinct(FlatMap(xs, f))
  {
    if xs != [] {
      FlatMapDistinct(xs[1..], f);
      var head, tail := f(xs[0]), FlatMap(xs[1..], f);
      forall i, j | 0 <= i < |head| && 0 <= j < |tail| ensures head[i] != tail[j] {
        var x := FlatMapSource(xs[1..], f, tail[j]);
        assert head[i] in f(xs[0]);
      }
    }
  }

  lemma {:induction false} FlatMapLength<X, Y>(xs: seq<X>, f: X -> seq<Y>, n: nat)
    requires forall x | x in xs :: |f(x)| == n
    ensures |FlatMap(xs, f)| == |xs| * n
  {
    if xs != [] {
      FlatMapLength(xs[1..], f, n);
      assert |xs| * n == (|xs| - 1) * n + n;
    }
  }

  lemma {:induction false} FlatMapAppend<X, Y>(xs: seq<X>, x: X, f: X -> seq<Y>)
    ensures FlatMap(xs + [x], f) == FlatMap(xs, f) + f(x)
  {
    if xs == [] {
      assert xs + [x] == [x] && [x][1..] == [];
      assert FlatMap([x], f) == f(x) + FlatMap([x][1..], f);
    } else {
      assert (xs + [x])[1..] == xs[1..] + [x] && (xs + [x])[0] == xs[0];
      FlatMapAppend(xs[1..], x, f);
    }
  }

  // ---------- pointwise images ----------

  /** `[f(x) for x in s]` */
  function Map<X, Y>(f: X -> Y, s: seq<X>): (r: seq<Y>)
    ensures |r| == |s|
    ensures forall i | 0 <= i < |s| :: r[i] == f(s[i])
  {
    seq(|s|, i requires 0 <= i < |s| => f(s[i]))
  }

  lemma MapOneMore<X, Y>(f: X -> Y, s: seq<X>, i: nat)
    requires i < |s|
    ensures Map(f, s[..i + 1]) == Map(f, s[..i]) + [f(s[i])]
  {
  }

  lemma MapSplit<X, Y>(f: X -> Y, a: seq<X>, b: seq<X>)
    ensures Map(f, a + b) == Map(f, a) + Map(f, b)
  {
  }

  lemma RemoveItem<T>(s: seq<T>, i: nat)
    requires i < |s|
    ensures multiset(s[..i] + s[i + 1..]) == multiset(s) - multiset{s[i]}
    ensures multiset(s) == multiset(s[..i] + s[i + 1..]) + multiset{s[i]}
  {
    assert s == s[..i] + [s[i]] + s[i + 1..];
  }

  lemma MapRemove<X, Y>(f: X -> Y, s: seq<X>, i: nat)
    requires i < |s|
    ensures multiset(Map(f, s)) == multiset(Map(f, s[..i] + s[i + 1..])) + multiset{f(s[i])}
  {
    var m := Map(f, s);
    RemoveItem(m, i);
    assert m[..i] + m[i + 1..] == Map(f, s[..i] + s[i + 1..]);
  }

  /** Taking a matching item out of two permutations leaves permutations. */
  lemma SameRest<T>(a: seq<T>, b: seq<T>, i: nat)
    requires multiset(a) == multiset(b) && a != [] && i < |b| && b[i] == a[0]
    ensures multiset(a[..0] + a[1..]) == multiset(b[..i] + b[i + 1..])
  {
    RemoveItem(a, 0);
    RemoveItem(b, i);
  }

  /** Permuted arguments have permuted images. */
  lemma {:induction false} MapPermutes<X, Y>(f: X -> Y, a: seq<X>, b: seq<X>)
    requires multiset(a) == multiset(b)
    ensures multiset(Map(f, a)) == multiset(Map(f, b))
  {
    SameElements(a, b);
    if a != [] {
      assert a[0] in b;
      var i :| 0 <= i < |b| && b[i] == a[0];
      SameRest(a, b, i);
      MapPermutes(f, a[..0] + a[1..], b[..i] + b[i + 1..]);
      MapRemove(f, a, 0);
      MapRemove(f, b, i);
    }
  }
}
