/** JSON values, and the equality Python gives them. */
module JsonValues {

  /** Integers and finite floats are one constructor: Python compares them by value. */
  datatype Json =
    | Null
    | Bool(flag: bool)
    | Num(value: real)
    | Str(text: string)
    | Arr(items: seq<Json>)
    | Obj(members: map<string, Json>)

  /** Booleans read as the numbers 1 and 0, everywhere in the value. */
  function Canon(j: Json): Json {
    match j
    case Bool(b) => Num(if b then 1.0 else 0.0)
    case Arr(s) => Arr(seq(|s|, i requires 0 <= i < |s| => Canon(s[i])))
    case Obj(m) => Obj(map k | k in m :: Canon(m[k]))
    case _ => j
  }

  /** Python's `==`, for which True is 1 and False is 0. */
  predicate PyEqual(a: Json, b: Json) { Canon(a) == Canon(b) }

  lemma ObjectsPyEqual(a: map<string, Json>, b: map<string, Json>)
    ensures PyEqual(Obj(a), Obj(b)) <==> a.Keys == b.Keys && forall k | k in a && k in b :: PyEqual(a[k], b[k])
  {
    var x, y := Canon(Obj(a)).members, Canon(Obj(b)).members;
    assert x.Keys == a.Keys && y.Keys == b.Keys;
    if a.Keys == b.Keys && forall k | k in a && k in b :: PyEqual(a[k], b[k]) {
      assert x == y;
    }
  }

  /** Equality as Python's documentation has it, case by case: booleans are the integers 1 and 0,
      numbers and strings compare by value, lists item by item, mappings member by member, and values
      of different kinds are never equal. */
  ghost predicate SameValue(a: Json, b: Json)
    decreases a
  {
    match (a, b)
    case (Null, Null) => true
    case (Bool(p), Bool(q)) => p == q
    case (Bool(p), Num(y)) => y == if p then 1.0 else 0.0
    case (Num(x), Bool(q)) => x == if q then 1.0 else 0.0
    case (Num(x), Num(y)) => x == y
    case (Str(s), Str(u)) => s == u
    case (Arr(s), Arr(u)) => |s| == |u| && forall i | 0 <= i < |s| :: SameValue(s[i], u[i])
    case (Obj(m), Obj(n)) => m.Keys == n.Keys && forall k | k in m && k in n :: SameValue(m[k], n[k])
    case _ => false
  }

  /** The comparison of canonical forms is that equality. */
  lemma {:induction false} PyEqualIsSameValue(a: Json, b: Json)
    ensures PyEqual(a, b) <==> SameValue(a, b)
    decreases a
  {
    match (a, b)
    case (Arr(s), Arr(u)) => ArraysCompare(s, u);
    case (Obj(m), Obj(n)) =>
      ObjectsPyEqual(m, n);
      forall k | k in m && k in n ensures PyEqual(m[k], n[k]) <==> SameValue(m[k], n[k]) {
        PyEqualIsSameValue(m[k], n[k]);
      }
    case _ =>
  }

  lemma {:induction false} ArraysCompare(a: seq<Json>, b: seq<Json>)
    ensures PyEqual(Arr(a), Arr(b)) <==> SameValue(Arr(a), Arr(b))
    decreases Arr(a), 0
  {
    ArraysPyEqual(a, b);
    forall i | 0 <= i < |a| && i < |b| ensures PyEqual(a[i], b[i]) <==> SameValue(a[i], b[i]) {
      PyEqualIsSameValue(a[i], b[i]);
    }
  }

  lemma ArraysPyEqual(a: seq<Json>, b: seq<Json>)
    ensures PyEqual(Arr(a), Arr(b)) <==> |a| == |b| && forall i | 0 <= i < |a| && i < |b| :: PyEqual(a[i], b[i])
  {
    var x, y := Canon(Arr(a)).items, Canon(Arr(b)).items;
    assert |x| == |a| && |y| == |b|;
    if |a| == |b| {
      if forall i | 0 <= i < |a| && i < |b| :: PyEqual(a[i], b[i]) {
        assert x == y;
      } else {
        var i :| 0 <= i < |a| && i < |b| && !PyEqual(a[i], b[i]);
        assert x[i] != y[i];
      }
    }
  }

  lemma EverywhereSameValue()
    ensures forall a, b :: PyEqual(a, b) <==> SameValue(a, b)
  {
    forall a, b ensures PyEqual(a, b) <==> SameValue(a, b) {
      PyEqualIsSameValue(a, b);
    }
  }
}
