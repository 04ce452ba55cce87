/**
 What a normalized value says, compared with the value it came from, and which
 values cannot be normalized. Both are stated without the procedure.
 */
module NormalMeaning {
  import opened Canonicalization
  import opened Renormalization
  import opened Results
  import opened Strings

  // ---------- reading a schema ----------

  /** A mapping without repeated keys holds under a key exactly what its members say. */
  lemma GetExactly(v: Value, key: string, x: Value)
    requires v.Dict? && DistinctMembers(v.members)
    ensures Get(v, key) == Some(x) <==> (Text(key), x) in v.members
  {
    if Get(v, key).Some? {
      var j := LookupFinds(v, 0, key);
    }
    if (Text(key), x) in v.members {
      var i :| 0 <= i < |v.members| && v.members[i] == (Text(key), x);
      LookupAt(v, 0, i);
    }
  }

  /** Null is allowed by the type "null", or by a list of types that names it. */
  lemma AllowsNullExactly(schema: Value)
    requires schema.Dict? && DistinctMembers(schema.members)
    ensures AllowsNull(schema) <==>
            || (Text("type"), Str("null")) in schema.members
            || exists types :: (Text("type"), Arr(types)) in schema.members && Str("null") in types
  {
    GetExactly(schema, "type", Str("null"));
    forall types ensures Get(schema, "type") == Some(Arr(types)) <==> (Text("type"), Arr(types)) in schema.members {
      GetExactly(schema, "type", Arr(types));
    }
    if AllowsNull(schema) && Get(schema, "type") != Some(Str("null")) {
      var types := Get(schema, "type").value.items;
      assert (Text("type"), Arr(types)) in schema.members && Str("null") in types;
    }
  }

  /** Python's falsy values. */
  lemma FalsyExactly(v: Value)
    ensures !Truthy(v) <==> v in {Null, Bool(false), Int(0), Float(0.0), Str(""), Arr([]), Dict([])}
  {
  }

  /** A default is materialized when it is there and the flag is truthy. */
  lemma DefaultExactly(schema: Value, d: Value)
    requires schema.Dict? && DistinctMembers(schema.members)
    ensures Default(schema) == Some(d) <==>
            && (Text("default"), d) in schema.members
            && exists flag :: (Text("x-materialize-default"), flag) in schema.members && Truthy(flag)
  {
    GetExactly(schema, "default", d);
    forall flag
      ensures Get(schema, "x-materialize-default") == Some(flag) <==>
              (Text("x-materialize-default"), flag) in schema.members
    {
      GetExactly(schema, "x-materialize-default", flag);
    }
  }

  /** A property's schema is the mapping listed for it, and the empty one when there is none. */
  lemma ChildExactly(schema: Value, key: string, child: Value)
    requires schema.Dict? && DistinctMembers(schema.members) && child.Dict? && child != EMPTY
    requires forall properties | (Text("properties"), Dict(properties)) in schema.members :: DistinctMembers(properties)
    ensures Child(schema, key) == child <==>
            exists properties ::
              (Text("properties"), Dict(properties)) in schema.members && (Text(key), child) in properties
  {
    forall properties
      ensures Get(schema, "properties") == Some(Dict(properties)) <==>
              (Text("properties"), Dict(properties)) in schema.members
    {
      GetExactly(schema, "properties", Dict(properties));
    }
    if (exists p :: (Text("properties"), Dict(p)) in schema.members) || Child(schema, key) == child {
      var properties := Properties(schema).members;
      if Get(schema, "properties") == Some(Dict(properties)) {
        GetExactly(Dict(properties), key, child);
      }
    }
  }

  // ---------- what is kept ----------

  function NumberOf(v: Value): Option<real> {
    match v
    case Int(n) => Some(n as real)
    case Float(x) => Some(x)
    case _ => None
  }

  /** NFC of the text with every line end as a single newline. */
  function CleanText(t: TextRules, s: string): string { t.nfc(OneLineEndEach(s)) }

  lemma CleanIsCleanText(t: TextRules)
    ensures forall s :: t.Clean(s) == CleanText(t, s)
  {
    forall s ensures t.Clean(s) == CleanText(t, s) {
      NewlinesInOnePass(s);
    }
  }

  predicate IsDateTime(schema: Value)
    requires schema.Dict?
  {
    Get(schema, "format") == Some(Str("date-time"))
  }

  /** The normalized value says what the value says. Null and booleans are themselves; numbers have the
      same numeric value; strings are the cleaned text, or its timestamp; sequences correspond item
      by item, and mappings member by member apart from what the schema fills in. */
  ghost predicate Means(t: TextRules, schema: Value, value: Value, normal: Value)
    requires schema.Dict?
    decreases Weight(schema), schema, 1, value, 2
  {
    match value
    case Null => normal == Null
    case Bool(b) => normal == Bool(b)
    case Int(n) => NumberOf(normal) == Some(n as real)
    case Float(x) => NumberOf(normal) == Some(x)
    case Str(s) =>
      && normal.Str?
      && if IsDateTime(schema) then t.timestamp(CleanText(t, s)) == Some(normal.text)
         else normal.text == CleanText(t, s)
    case Arr(items) =>
      && normal.Arr? && |normal.items| == |items|
      && forall i | 0 <= i < |items| :: Means(t, SubMapping(schema, "items"), items[i], normal.items[i])
    case Dict(members) =>
      && normal.Dict? && |members| <= |normal.members|
      && (forall i | 0 <= i < |members| :: MemberMeans(t, schema, members, i, normal.members[i]))
      && DistinctMembers(normal.members)
      && (forall j | |members| <= j < |normal.members| ::
            IsFilledIn(t, schema, members, normal.members[j]))
      && (forall p: nat | Fillable(schema, p) :: Has(normal.members, Properties(schema).members[p].0.text))
    case _ => false
  }

  /** A member: the cleaned key, with what the value means under the schema of that key. */
  ghost predicate MemberMeans(t: TextRules, schema: Value, members: seq<Member>, i: nat, normal: Member)
    requires schema.Dict? && i < |members|
    decreases Weight(schema), schema, 1, Dict(members), 1
  {
    && members[i].0.Text? && normal.0 == Text(CleanText(t, members[i].0.text))
    && Means(t, Child(schema, CleanText(t, members[i].0.text)), members[i].1, normal.1)
  }

  ghost predicate IsFilledIn(t: TextRules, schema: Value, members: seq<Member>, normal: Member)
    requires schema.Dict?
    decreases Weight(schema), schema, 1, Dict(members), 1
  {
    exists p | 0 <= p < |Properties(schema).members| && Fillable(schema, p) :: Fills(t, schema, members, p, normal)
  }

  /** What is filled in for property p: null where it is allowed, otherwise what the default means. */
  ghost predicate Fills(t: TextRules, schema: Value, members: seq<Member>, p: nat, normal: Member)
    requires schema.Dict? && Fillable(schema, p)
    decreases Weight(schema), schema, 1, Dict(members), 0
  {
    var (key, child) := Properties(schema).members[p];
    && normal.0 == key
    && if AllowsNull(child) then normal.1 == Null else Means(t, child, Default(child).value, normal.1)
  }

  /** A successful normalization keeps the meaning, at every depth. */
  lemma {:induction false} NormalizationKeepsMeaning(t: TextRules, value: Value, schema: Value)
    requires schema.Dict? && DistinctNames(schema) && Normalize(t, value, schema).Ok?
    ensures Means(t, schema, value, Normalize(t, value, schema).value)
    decreases Weight(schema), schema, 1, value, 2
  {
    CleanIsCleanText(t);
    match value
    case Arr(items) =>
      var itemSchema := SubMapping(schema, "items");
      SubschemasDistinct(schema, "");
      ItemsPointwise(t, value, itemSchema, schema, |items|);
      forall i | 0 <= i < |items|
        ensures Means(t, itemSchema, items[i], Normalize(t, value, schema).value.items[i])
      {
        NormalizationKeepsMeaning(t, items[i], itemSchema);
      }
    case Dict(members) =>
      MappingKeepsMeaning(t, members, schema);
    case _ =>
  }

  lemma {:induction false} MappingKeepsMeaning(t: TextRules, members: seq<Member>, schema: Value)
    requires schema.Dict? && DistinctNames(schema) && Normalize(t, Dict(members), schema).Ok?
    ensures Means(t, schema, Dict(members), Normalize(t, Dict(members), schema).value)
    decreases Weight(schema), schema, 1, Dict(members), 1
  {
    var items, normal := Items(t, members, schema), Normalize(t, Dict(members), schema).value.members;
    MappingShape(t, members, schema);
    forall i | 0 <= i < |members| ensures MemberMeans(t, schema, members, i, normal[i]) {
      CleanIsCleanText(t);
      assert Becomes(t, schema, members[i], items[i]);
      assert normal[i] == items[i];
      SubschemasDistinct(schema, t.Clean(members[i].0.text));
      NormalizationKeepsMeaning(t, members[i].1, Child(schema, t.Clean(members[i].0.text)));
    }
    forall j | |members| <= j < |normal|
      ensures IsFilledIn(t, schema, members, normal[j])
    {
      assert IsFilling(t, schema, normal[j]);
      var p: nat :| p < |Properties(schema).members| && Properties(schema).members[p].0 == normal[j].0 &&
                    Filling(t, schema, p) == Some(normal[j].1);
      var child := Properties(schema).members[p].1;
      if !AllowsNull(child) {
        NormalizationKeepsMeaning(t, Default(child).value, child);
      }
      assert Fillable(schema, p) && Fills(t, schema, members, p, normal[j]);
    }
    forall p: nat | Fillable(schema, p) ensures Has(normal, Properties(schema).members[p].0.text) {
      assert Complete(schema, p, normal);
    }
  }

  // ---------- what cannot be normalized ----------

  /** Somewhere the value, or a default that is filled in for it, deserves this error. */
  ghost predicate HasFault(t: TextRules, schema: Value, value: Value, e: JsonError)
    requires schema.Dict?
    decreases Weight(schema), schema, 1, value, 2
  {
    match value
    case Int(n) => e == IntegerOutOfRange && (n > 9_007_199_254_740_991 || n < -9_007_199_254_740_991)
    case NonFinite => e == NumberNotFinite
    case Unsupported => e == UnsupportedType
    case Str(s) => e == BadTimestamp && IsDateTime(schema) && t.timestamp(CleanText(t, s)).None?
    case Arr(items) => exists i | 0 <= i < |items| :: HasFault(t, SubMapping(schema, "items"), items[i], e)
    case Dict(members) =>
      || (exists i | 0 <= i < |members| :: KeyFault(t, members, i, e))
      || (exists i | 0 <= i < |members| && members[i].0.Text? ::
            HasFault(t, Child(schema, CleanText(t, members[i].0.text)), members[i].1, e))
      || (exists p | 0 <= p < |Properties(schema).members| && Fillable(schema, p) ::
            DefaultFault(t, schema, members, p, e))
    case _ => false
  }

  /** A key that is no text, or one that is cleaned to the same text as an earlier key. */
  ghost predicate KeyFault(t: TextRules, members: seq<Member>, i: nat, e: JsonError)
    requires i < |members|
  {
    if members[i].0.NotText? then e == KeyNotText
    else
      && e == DuplicateKey(CleanText(t, members[i].0.text))
      && exists k :: 0 <= k < i && members[k].0.Text? &&
                     CleanText(t, members[k].0.text) == CleanText(t, members[i].0.text)
  }

  /** The default of a missing property has the fault. */
  ghost predicate DefaultFault(t: TextRules, schema: Value, members: seq<Member>, p: nat, e: JsonError)
    requires schema.Dict? && Fillable(schema, p)
    decreases Weight(schema), schema, 1, Dict(members), 0
  {
    var (key, child) := Properties(schema).members[p];
    !Given(t, members, key.text) && !AllowsNull(child) && HasFault(t, child, Default(child).value, e)
  }

  /** An error is raised for a reason. */
  lemma {:induction false} FailureHasFault(t: TextRules, value: Value, schema: Value)
    requires schema.Dict? && Normalize(t, value, schema).Err?
    ensures HasFault(t, schema, value, Normalize(t, value, schema).error)
    decreases Weight(schema), schema, 1, value, 3
  {
    CleanIsCleanText(t);
    match value
    case Arr(items) =>
      ItemsHaveFault(t, value, SubMapping(schema, "items"), schema, |items|);
    case Dict(members) =>
      if NormalizeMembers(t, value, schema, 0, []).Err? {
        MembersHaveFault(t, members, schema, 0, []);
      } else {
        var items := NormalizeMembers(t, value, schema, 0, []).value;
        MembersBecome(t, members, schema);
        var p := FillHasFault(t, schema, 0, items);
        HasOnlyGiven(t, schema, members, items, Properties(schema).members[p].0.text);
        FailureHasFault(t, Default(Properties(schema).members[p].1).value, Properties(schema).members[p].1);
        assert DefaultFault(t, schema, members, p, Normalize(t, value, schema).error);
      }
    case _ =>
  }

  lemma {:induction false} ItemsHaveFault(t: TextRules, value: Value, itemSchema: Value, schema: Value, n: nat)
    requires schema.Dict? && value.Arr? && n <= |value.items| && itemSchema == SubMapping(schema, "items")
    requires NormalizeItems(t, value, itemSchema, schema, n).Err?
    ensures exists i :: 0 <= i < n &&
              HasFault(t, itemSchema, value.items[i], NormalizeItems(t, value, itemSchema, schema, n).error)
    decreases Weight(schema), schema, 1, value, 0, n
  {
    if NormalizeItems(t, value, itemSchema, schema, n - 1).Err? {
      ItemsHaveFault(t, value, itemSchema, schema, n - 1);
    } else {
      FailureHasFault(t, value.items[n - 1], itemSchema);
    }
  }

  lemma {:induction false} MembersHaveFault(t: TextRules, members: seq<Member>, schema: Value, i: nat,
                                            done: seq<Member>)
    requires schema.Dict? && i <= |members| && |done| == i
    requires forall k | 0 <= k < i :: members[k].0.Text? && done[k].0 == Text(t.Clean(members[k].0.text))
    requires NormalizeMembers(t, Dict(members), schema, i, done).Err?
    ensures HasFault(t, schema, Dict(members), NormalizeMembers(t, Dict(members), schema, i, done).error)
    decreases Weight(schema), schema, 1, Dict(members), 1, |members| - i
  {
    CleanIsCleanText(t);
    var e := NormalizeMembers(t, Dict(members), schema, i, done).error;
    if members[i].0.NotText? {
      assert KeyFault(t, members, i, e);
    } else {
      var key := t.Clean(members[i].0.text);
      if Has(done, key) {
        assert KeyFault(t, members, i, e);
      } else if Normalize(t, members[i].1, Child(schema, key)).Err? {
        FailureHasFault(t, members[i].1, Child(schema, key));
      } else {
        MembersHaveFault(t, members, schema, i + 1,
                         done + [(Text(key), Normalize(t, members[i].1, Child(schema, key)).value)]);
      }
    }
  }

  lemma {:induction false} FillHasFault(t: TextRules, schema: Value, i: nat, items: seq<Member>) returns (p: nat)
    requires schema.Dict? && i <= |Properties(schema).members| && Fill(t, schema, i, items).Err?
    ensures Fillable(schema, p) && !Has(items, Properties(schema).members[p].0.text)
    ensures var child := Properties(schema).members[p].1;
      !AllowsNull(child) && Normalize(t, Default(child).value, child) == Err(Fill(t, schema, i, items).error)
    decreases |Properties(schema).members| - i
  {
    if Fillable(schema, i) && !Has(items, Properties(schema).members[i].0.text) {
      var (key, child) := Properties(schema).members[i];
      if !AllowsNull(child) && Normalize(t, Default(child).value, child).Err? {
        return i;
      }
      var m := (key, Filling(t, schema, i).value);
      p := FillHasFault(t, schema, i + 1, items + [m]);
      if Has(items, Properties(schema).members[p].0.text) {
        HasAppend(items, m, Properties(schema).members[p].0.text);
      }
    } else {
      p := FillHasFault(t, schema, i + 1, items);
    }
  }

  /** What normalizes has no fault. */
  lemma {:induction false} SuccessHasNoFault(t: TextRules, value: Value, schema: Value, e: JsonError)
    requires schema.Dict? && DistinctNames(schema) && Normalize(t, value, schema).Ok?
    ensures !HasFault(t, schema, value, e)
    decreases Weight(schema), schema, 1, value, 2
  {
    CleanIsCleanText(t);
    match value
    case Arr(items) =>
      var itemSchema := SubMapping(schema, "items");
      SubschemasDistinct(schema, "");
      ItemsPointwise(t, value, itemSchema, schema, |items|);
      forall i | 0 <= i < |items| ensures !HasFault(t, itemSchema, items[i], e) {
        SuccessHasNoFault(t, items[i], itemSchema, e);
      }
    case Dict(members) =>
      MappingHasNoFault(t, members, schema, e);
    case _ =>
  }

  lemma {:induction false} MappingHasNoFault(t: TextRules, members: seq<Member>, schema: Value, e: JsonError)
    requires schema.Dict? && DistinctNames(schema) && Normalize(t, Dict(members), schema).Ok?
    ensures !HasFault(t, schema, Dict(members), e)
    decreases Weight(schema), schema, 1, Dict(members), 1
  {
    CleanIsCleanText(t);
    var items := Items(t, members, schema);
    MembersBecome(t, members, schema);
    forall i | 0 <= i < |members| ensures !KeyFault(t, members, i, e) {
      assert Becomes(t, schema, members[i], items[i]);
      forall k | 0 <= k < i && members[k].0.Text?
        ensures CleanText(t, members[k].0.text) != CleanText(t, members[i].0.text)
      {
        DistinctSpellings(t, members, schema, k, i);
      }
    }
    forall i | 0 <= i < |members| && members[i].0.Text?
      ensures !HasFault(t, Child(schema, CleanText(t, members[i].0.text)), members[i].1, e)
    {
      assert Becomes(t, schema, members[i], items[i]);
      SubschemasDistinct(schema, t.Clean(members[i].0.text));
      SuccessHasNoFault(t, members[i].1, Child(schema, t.Clean(members[i].0.text)), e);
    }
    forall p | 0 <= p < |Properties(schema).members| && Fillable(schema, p)
      ensures !DefaultFault(t, schema, members, p, e)
    {
      var (key, child) := Properties(schema).members[p];
      if !Given(t, members, key.text) && !AllowsNull(child) {
        var j := MissingIsWritten(t, members, schema, p);
        SuccessHasNoFault(t, Default(child).value, child, e);
      }
    }
  }

  /** A value normalizes if and only if it has no fault, and the error raised is one of its faults. */
  lemma {:induction false} NormalizesExactlyWithoutFault(t: TextRules, value: Value, schema: Value)
    requires schema.Dict? && DistinctNames(schema)
    ensures Normalize(t, value, schema).Ok? <==> forall e :: !HasFault(t, schema, value, e)
    ensures Normalize(t, value, schema).Err? ==> HasFault(t, schema, value, Normalize(t, value, schema).error)
  {
    if Normalize(t, value, schema).Ok? {
      forall e ensures !HasFault(t, schema, value, e) {
        SuccessHasNoFault(t, value, schema, e);
      }
    } else {
      FailureHasFault(t, value, schema);
      var e := Normalize(t, value, schema).error;
      assert HasFault(t, schema, value, e);
    }
  }
}
