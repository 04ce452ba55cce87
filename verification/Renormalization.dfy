/**
 Normalizing twice: exactly when a normalized value is normalized for good, and
 exactly which schemas make normalization idempotent.
 */
module Renormalization {
  import opened Canonicalization
  import opened Results

  // ---------- names that are not clean ----------

  /** Normalizing the value writes, at some depth, a property name that is not clean. The cleaned
      keys of the value never are; the names the fill loop adds may be. */
  ghost predicate WritesRawName(t: TextRules, schema: Value, value: Value)
    requires schema.Dict?
    decreases Weight(schema), schema, 1, value, 1
  {
    match value
    case Dict(members) =>
      || (exists i | 0 <= i < |members| && members[i].0.Text? ::
            WritesRawName(t, Child(schema, t.Clean(members[i].0.text)), members[i].1))
      || (exists p | 0 <= p < |Properties(schema).members| && Fillable(schema, p) :: RawAt(t, schema, members, p))
    case Arr(items) => exists i | 0 <= i < |items| :: WritesRawName(t, SubMapping(schema, "items"), items[i])
    case _ => false
  }

  /** At a fillable property: its name is not clean, or it is filled with a default that writes one. */
  ghost predicate RawAt(t: TextRules, schema: Value, members: seq<Member>, p: nat)
    requires schema.Dict? && Fillable(schema, p)
    decreases Weight(schema), schema, 1, Dict(members), 0
  {
    var (key, child) := Properties(schema).members[p];
    CleanName(t, schema, p) ==>
      !Given(t, members, key.text) && !AllowsNull(child) && WritesRawName(t, child, Default(child).value)
  }

  // ---------- what a normalization returns ----------

  /** A successful normalization is final if and only if it writes no name that is not clean. */
  lemma {:induction false} FinalExactlyWithoutRawNames(t: TextRules, value: Value, schema: Value)
    requires t.Lawful() && schema.Dict? && DistinctNames(schema) && Normalize(t, value, schema).Ok?
    ensures Normal(t, schema, Normalize(t, value, schema).value) <==> !WritesRawName(t, schema, value)
    decreases Weight(schema), schema, 1, value, 2
  {
    match value
    case Str(s) =>
      CleanIdempotent(t, s);
      CleanIdempotent(t, t.Clean(s));
    case Dict(members) =>
      MappingExact(t, members, schema);
    case Arr(items) =>
      ArrayExact(t, items, schema);
    case _ =>
  }

  lemma {:induction false} ArrayExact(t: TextRules, items: seq<Value>, schema: Value)
    requires t.Lawful() && schema.Dict? && DistinctNames(schema) && Normalize(t, Arr(items), schema).Ok?
    ensures Normal(t, schema, Normalize(t, Arr(items), schema).value) <==> !WritesRawName(t, schema, Arr(items))
    decreases Weight(schema), schema, 1, Arr(items), 1
  {
    var itemSchema := SubMapping(schema, "items");
    SubschemasDistinct(schema, "");
    ItemsPointwise(t, Arr(items), itemSchema, schema, |items|);
    var normal := NormalizeItems(t, Arr(items), itemSchema, schema, |items|).value;
    forall i | 0 <= i < |items|
      ensures Normal(t, itemSchema, normal[i]) <==> !WritesRawName(t, itemSchema, items[i])
    {
      assert Normalize(t, items[i], itemSchema) == Ok(normal[i]);
      FinalExactlyWithoutRawNames(t, items[i], itemSchema);
    }
  }

  /** Each member has become a normal one exactly when it writes no raw name. */
  ghost predicate MembersExact(t: TextRules, schema: Value, members: seq<Member>, items: seq<Member>)
    requires schema.Dict?
  {
    && |items| == |members|
    && forall i | 0 <= i < |members| :: Becomes(t, schema, members[i], items[i]) &&
         (Normal(t, Child(schema, items[i].0.text), items[i].1) <==>
          !WritesRawName(t, Child(schema, items[i].0.text), members[i].1))
  }

  /** The same for the defaults the fill loop materializes under clean names. */
  ghost predicate DefaultsExact(t: TextRules, schema: Value)
    requires schema.Dict?
  {
    forall p | 0 <= p < |Properties(schema).members| && Fillable(schema, p) && CleanName(t, schema, p) ::
      var child := Properties(schema).members[p].1;
      AllowsNull(child) || Normalize(t, Default(child).value, child).Err? ||
      (Normal(t, child, Normalize(t, Default(child).value, child).value) <==>
       !WritesRawName(t, child, Default(child).value))
  }

  lemma {:induction false} MappingExact(t: TextRules, members: seq<Member>, schema: Value)
    requires t.Lawful() && schema.Dict? && DistinctNames(schema) && Normalize(t, Dict(members), schema).Ok?
    ensures Normal(t, schema, Normalize(t, Dict(members), schema).value) <==> !WritesRawName(t, schema, Dict(members))
    decreases Weight(schema), schema, 1, Dict(members), 1
  {
    var items := NormalizeMembers(t, Dict(members), schema, 0, []).value;
    MembersBecome(t, members, schema);
    forall i | 0 <= i < |members|
      ensures Normal(t, Child(schema, items[i].0.text), items[i].1) <==>
              !WritesRawName(t, Child(schema, items[i].0.text), members[i].1)
    {
      assert Becomes(t, schema, members[i], items[i]);
      SubschemasDistinct(schema, items[i].0.text);
      FinalExactlyWithoutRawNames(t, members[i].1, Child(schema, items[i].0.text));
    }
    forall p | 0 <= p < |Properties(schema).members| && Fillable(schema, p)
      ensures var child := Properties(schema).members[p].1;
        AllowsNull(child) || Normalize(t, Default(child).value, child).Err? ||
        (Normal(t, child, Normalize(t, Default(child).value, child).value) <==>
         !WritesRawName(t, child, Default(child).value))
    {
      var child := Properties(schema).members[p].1;
      if !AllowsNull(child) && Normalize(t, Default(child).value, child).Ok? {
        FinalExactlyWithoutRawNames(t, Default(child).value, child);
      }
    }
    MappingShape(t, members, schema);
    if WritesRawName(t, schema, Dict(members)) {
      RawIsNotNormal(t, members, schema);
    } else {
      NotRawIsNormal(t, members, schema);
    }
  }

  /** The first loop's part of a normalized mapping. */
  function Items(t: TextRules, members: seq<Member>, schema: Value): seq<Member>
    requires schema.Dict? && Normalize(t, Dict(members), schema).Ok?
  {
    NormalizeMembers(t, Dict(members), schema, 0, []).value
  }

  /** A normalized mapping: the members that became of the input's, then the missing fillable
      properties, no key twice. */
  lemma {:induction false} MappingShape(t: TextRules, members: seq<Member>, schema: Value)
    requires schema.Dict? && DistinctNames(schema) && Normalize(t, Dict(members), schema).Ok?
    ensures var items, filled := Items(t, members, schema), Normalize(t, Dict(members), schema).value.members;
      && |items| == |members| && items <= filled && DistinctMembers(filled)
      && (forall i | 0 <= i < |members| :: Becomes(t, schema, members[i], items[i]))
      && (forall j | |items| <= j < |filled| :: IsFilling(t, schema, filled[j]))
      && (forall p | 0 <= p < |Properties(schema).members| :: Complete(schema, p, filled))
      && (forall p | 0 <= p < |Properties(schema).members| && Fillable(schema, p) ::
            !Given(t, members, Properties(schema).members[p].0.text) ==> Written(t, schema, p, filled))
  {
    var items := Items(t, members, schema);
    MembersBecome(t, members, schema);
    NoRepeatedKeys(t, Dict(members), schema, 0, []);
    FillWrites(t, schema, 0, items);
    FillExtends(t, schema, 0, items);
    forall p | 0 <= p < |Properties(schema).members| && Fillable(schema, p)
      ensures Has(items, Properties(schema).members[p].0.text) ==>
              Given(t, members, Properties(schema).members[p].0.text)
    {
      HasOnlyGiven(t, schema, members, items, Properties(schema).members[p].0.text);
    }
  }

  lemma HasOnlyGiven(t: TextRules, schema: Value, members: seq<Member>, items: seq<Member>, name: string)
    requires schema.Dict? && |items| == |members|
    requires forall i | 0 <= i < |members| :: Becomes(t, schema, members[i], items[i])
    ensures Has(items, name) <==> Given(t, members, name)
  {
    if Has(items, name) {
      var i :| 0 <= i < |items| && items[i].0 == Text(name);
      assert Becomes(t, schema, members[i], items[i]);
    }
    if Given(t, members, name) {
      var i :| 0 <= i < |members| && members[i].0.Text? && t.Clean(members[i].0.text) == name;
      assert Becomes(t, schema, members[i], items[i]);
      assert items[i].0 == Text(name);
    }
  }

  lemma {:induction false} RawIsNotNormal(t: TextRules, members: seq<Member>, schema: Value)
    requires t.Lawful() && schema.Dict? && DistinctNames(schema) && Normalize(t, Dict(members), schema).Ok?
    requires MembersExact(t, schema, members, Items(t, members, schema)) && DefaultsExact(t, schema)
    requires WritesRawName(t, schema, Dict(members))
    ensures !Normal(t, schema, Normalize(t, Dict(members), schema).value)
  {
    if i :| 0 <= i < |members| && members[i].0.Text? &&
            WritesRawName(t, Child(schema, t.Clean(members[i].0.text)), members[i].1) {
      RawMemberIsNotNormal(t, members, schema, i);
    } else {
      var p :| 0 <= p < |Properties(schema).members| && Fillable(schema, p) && RawAt(t, schema, members, p);
      RawFillingIsNotNormal(t, members, schema, p);
    }
  }

  lemma {:induction false} RawMemberIsNotNormal(t: TextRules, members: seq<Member>, schema: Value, i: nat)
    requires schema.Dict? && DistinctNames(schema) && Normalize(t, Dict(members), schema).Ok?
    requires MembersExact(t, schema, members, Items(t, members, schema))
    requires i < |members| && members[i].0.Text?
    requires WritesRawName(t, Child(schema, t.Clean(members[i].0.text)), members[i].1)
    ensures !Normal(t, schema, Normalize(t, Dict(members), schema).value)
  {
    MappingShape(t, members, schema);
    var items, filled := Items(t, members, schema), Normalize(t, Dict(members), schema).value.members;
    assert Becomes(t, schema, members[i], items[i]);
    assert filled[i] == items[i];
  }

  lemma {:induction false} RawFillingIsNotNormal(t: TextRules, members: seq<Member>, schema: Value, p: nat)
    requires t.Lawful() && schema.Dict? && DistinctNames(schema) && Normalize(t, Dict(members), schema).Ok?
    requires DefaultsExact(t, schema) && Fillable(schema, p) && RawAt(t, schema, members, p)
    ensures !Normal(t, schema, Normalize(t, Dict(members), schema).value)
  {
    if !CleanName(t, schema, p) {
      RawNotGiven(t, schema, members, p);
    }
    var j := MissingIsWritten(t, members, schema, p);
    ChildOfProperty(schema, p);
  }

  /** A fillable property that is not given is in the normalized mapping. */
  lemma MissingIsWritten(t: TextRules, members: seq<Member>, schema: Value, p: nat) returns (j: nat)
    requires schema.Dict? && DistinctNames(schema) && Normalize(t, Dict(members), schema).Ok?
    requires Fillable(schema, p) && !Given(t, members, Properties(schema).members[p].0.text)
    ensures j < |Normalize(t, Dict(members), schema).value.members| && Filling(t, schema, p).Some?
    ensures Normalize(t, Dict(members), schema).value.members[j]
            == (Properties(schema).members[p].0, Filling(t, schema, p).value)
  {
    var filled := Normalize(t, Dict(members), schema).value.members;
    MappingShape(t, members, schema);
    assert Written(t, schema, p, filled);
    j :| 0 <= j < |filled| && filled[j] == (Properties(schema).members[p].0, Filling(t, schema, p).value);
  }

  /** Cleaned keys are clean. */
  lemma RawNotGiven(t: TextRules, schema: Value, members: seq<Member>, p: nat)
    requires t.Lawful() && schema.Dict? && Fillable(schema, p) && !CleanName(t, schema, p)
    ensures !Given(t, members, Properties(schema).members[p].0.text)
  {
    forall i | 0 <= i < |members| && members[i].0.Text?
      ensures t.Clean(members[i].0.text) != Properties(schema).members[p].0.text
    {
      CleanIdempotent(t, members[i].0.text);
    }
  }

  lemma {:induction false} NotRawIsNormal(t: TextRules, members: seq<Member>, schema: Value)
    requires t.Lawful() && schema.Dict? && DistinctNames(schema) && Normalize(t, Dict(members), schema).Ok?
    requires MembersExact(t, schema, members, Items(t, members, schema)) && DefaultsExact(t, schema)
    requires !WritesRawName(t, schema, Dict(members))
    ensures Normal(t, schema, Normalize(t, Dict(members), schema).value)
  {
    MappingShape(t, members, schema);
    var items, filled := Items(t, members, schema), Normalize(t, Dict(members), schema).value.members;
    forall j | 0 <= j < |filled|
      ensures filled[j].0.Text? && t.Clean(filled[j].0.text) == filled[j].0.text
      ensures Normal(t, Child(schema, filled[j].0.text), filled[j].1)
    {
      if j < |items| {
        assert Becomes(t, schema, members[j], items[j]);
        CleanIdempotent(t, members[j].0.text);
        assert filled[j] == items[j];
      } else {
        assert IsFilling(t, schema, filled[j]);
        FillingIsNormal(t, members, schema, j);
      }
    }
  }

  lemma AppendedIsNew(items: seq<Member>, filled: seq<Member>, j: nat)
    requires items <= filled && DistinctMembers(filled) && |items| <= j < |filled| && filled[j].0.Text?
    ensures !Has(items, filled[j].0.text)
  {
    forall i | 0 <= i < |items| ensures items[i].0 != filled[j].0 {
      assert filled[i] == items[i];
    }
  }

  lemma {:induction false} FillingIsNormal(t: TextRules, members: seq<Member>, schema: Value, j: nat)
    requires t.Lawful() && schema.Dict? && DistinctNames(schema) && Normalize(t, Dict(members), schema).Ok?
    requires DefaultsExact(t, schema) && !WritesRawName(t, schema, Dict(members))
    requires |Items(t, members, schema)| <= j < |Normalize(t, Dict(members), schema).value.members|
    ensures var m := Normalize(t, Dict(members), schema).value.members[j];
      m.0.Text? && t.Clean(m.0.text) == m.0.text && Normal(t, Child(schema, m.0.text), m.1)
  {
    MappingShape(t, members, schema);
    var items, filled := Items(t, members, schema), Normalize(t, Dict(members), schema).value.members;
    assert IsFilling(t, schema, filled[j]);
    var p :| 0 <= p < |Properties(schema).members| && Properties(schema).members[p].0 == filled[j].0 &&
             Filling(t, schema, p) == Some(filled[j].1);
    assert Fillable(schema, p);
    ChildOfProperty(schema, p);
    AppendedIsNew(items, filled, j);
    HasOnlyGiven(t, schema, members, items, filled[j].0.text);
    assert CleanName(t, schema, p);
  }

  // ---------- at once or never ----------

  /** When the default of a fillable property with a raw name is in error, no mapping normalizes. */
  lemma {:induction false} ErringDefaultBlocks(t: TextRules, members: seq<Member>, schema: Value, p: nat)
    requires t.Lawful() && schema.Dict? && DistinctNames(schema) && Fillable(schema, p) && !CleanName(t, schema, p)
    requires Filling(t, schema, p).None?
    ensures Normalize(t, Dict(members), schema).Err?
  {
    if Normalize(t, Dict(members), schema).Ok? {
      RawNotGiven(t, schema, members, p);
      var j := MissingIsWritten(t, members, schema, p);
    }
  }

  /** The same keys at every level; what other values there are does not matter. */
  ghost predicate SameKeys(a: Value, b: Value)
    decreases a
  {
    if a.Dict? && b.Dict? then
      forall key :: Held(a.members, key).Some? == Held(b.members, key).Some? &&
        (Held(a.members, key).Some? && Held(b.members, key).Some? ==>
           SameKeys(Held(a.members, key).value, Held(b.members, key).value))
    else if a.Arr? && b.Arr? then
      |a.items| == |b.items| && forall i | 0 <= i < |a.items| :: SameKeys(a.items[i], b.items[i])
    else !a.Dict? && !b.Dict? && !a.Arr? && !b.Arr?
  }

  /** Normalizing the normalized value adds no key, or can be repeated once more. */
  ghost predicate Settles(t: TextRules, schema: Value, normal: Value)
    requires schema.Dict?
  {
    var again := Normalize(t, normal, schema);
    again.Ok? && (SameKeys(normal, again.value) || Normalize(t, again.value, schema).Ok?)
  }

  /** A normalization that writes a raw name never settles: the next one fails or adds the cleaned
      name beside the raw one, and the one after that finds the two names to be the same key. */
  lemma {:induction false} RawNeverSettles(t: TextRules, value: Value, schema: Value)
    requires t.Lawful() && schema.Dict? && DistinctNames(schema) && Normalize(t, value, schema).Ok?
    requires WritesRawName(t, schema, value)
    ensures !Settles(t, schema, Normalize(t, value, schema).value)
    decreases Weight(schema), schema, 1, value, 2
  {
    match value
    case Arr(items) =>
      var itemSchema := SubMapping(schema, "items");
      SubschemasDistinct(schema, "");
      var i :| 0 <= i < |items| && WritesRawName(t, itemSchema, items[i]);
      ItemsPointwise(t, value, itemSchema, schema, |items|);
      RawNeverSettles(t, items[i], itemSchema);
      ItemSettles(t, Normalize(t, value, schema).value.items, schema, i);
    case Dict(members) =>
      MappingNeverSettles(t, members, schema);
  }

  lemma ItemSettles(t: TextRules, normal: seq<Value>, schema: Value, i: nat)
    requires schema.Dict? && i < |normal|
    ensures Settles(t, schema, Arr(normal)) ==> Settles(t, SubMapping(schema, "items"), normal[i])
  {
    var itemSchema := SubMapping(schema, "items");
    if Settles(t, schema, Arr(normal)) {
      ItemsPointwise(t, Arr(normal), itemSchema, schema, |normal|);
      var again := Normalize(t, Arr(normal), schema).value;
      if Normalize(t, again, schema).Ok? {
        ItemsPointwise(t, again, itemSchema, schema, |again.items|);
      }
    }
  }

  lemma {:induction false} MappingNeverSettles(t: TextRules, members: seq<Member>, schema: Value)
    requires t.Lawful() && schema.Dict? && DistinctNames(schema) && Normalize(t, Dict(members), schema).Ok?
    requires WritesRawName(t, schema, Dict(members))
    ensures !Settles(t, schema, Normalize(t, Dict(members), schema).value)
    decreases Weight(schema), schema, 1, Dict(members), 1
  {
    if i :| 0 <= i < |members| && members[i].0.Text? &&
            WritesRawName(t, Child(schema, t.Clean(members[i].0.text)), members[i].1) {
      MappingShape(t, members, schema);
      var items, filled := Items(t, members, schema), Normalize(t, Dict(members), schema).value.members;
      assert Becomes(t, schema, members[i], items[i]);
      assert filled[i] == items[i];
      CleanIdempotent(t, members[i].0.text);
      SubschemasDistinct(schema, filled[i].0.text);
      RawNeverSettles(t, members[i].1, Child(schema, filled[i].0.text));
      MemberSettles(t, filled, schema, i);
    } else {
      var p :| 0 <= p < |Properties(schema).members| && Fillable(schema, p) && RawAt(t, schema, members, p);
      FillingNeverSettles(t, members, schema, p);
    }
  }

  lemma {:induction false} FillingNeverSettles(t: TextRules, members: seq<Member>, schema: Value, p: nat)
    requires t.Lawful() && schema.Dict? && DistinctNames(schema) && Normalize(t, Dict(members), schema).Ok?
    requires Fillable(schema, p) && RawAt(t, schema, members, p)
    ensures !Settles(t, schema, Normalize(t, Dict(members), schema).value)
    decreases Weight(schema), schema, 1, Dict(members), 0
  {
    var filled, child := Normalize(t, Dict(members), schema).value.members, Properties(schema).members[p].1;
    MappingShape(t, members, schema);
    if CleanName(t, schema, p) {
      var j := MissingIsWritten(t, members, schema, p);
      ChildOfProperty(schema, p);
      RawNeverSettles(t, Default(child).value, child);
      MemberSettles(t, filled, schema, j);
    } else {
      RawNotGiven(t, schema, members, p);
      var j := MissingIsWritten(t, members, schema, p);
      RawKeyNeverSettles(t, filled, schema, p, j);
    }
  }

  /** A mapping that settles settles member by member. */
  lemma {:induction false} MemberSettles(t: TextRules, normal: seq<Member>, schema: Value, i: nat)
    requires t.Lawful() && schema.Dict? && DistinctNames(schema) && DistinctMembers(normal) && i < |normal|
    requires normal[i].0.Text? && t.Clean(normal[i].0.text) == normal[i].0.text
    ensures Settles(t, schema, Dict(normal)) ==> Settles(t, Child(schema, normal[i].0.text), normal[i].1)
  {
    if Settles(t, schema, Dict(normal)) {
      MappingShape(t, normal, schema);
      var key, again := normal[i].0.text, Normalize(t, Dict(normal), schema).value.members;
      assert Becomes(t, schema, normal[i], Items(t, normal, schema)[i]);
      assert again[i] == Items(t, normal, schema)[i];
      if SameKeys(Dict(normal), Dict(again)) {
        LookupAt(Dict(normal), 0, i);
        LookupAt(Dict(again), 0, i);
        assert Held(normal, key) == Some(normal[i].1) && Held(again, key) == Some(again[i].1);
      } else {
        MappingShape(t, again, schema);
        assert Becomes(t, schema, again[i], Items(t, again, schema)[i]);
      }
    }
  }

  /** A mapping that holds the raw name of a fillable property does not settle. */
  lemma {:induction false} RawKeyNeverSettles(t: TextRules, normal: seq<Member>, schema: Value, p: nat, j: nat)
    requires t.Lawful() && schema.Dict? && DistinctNames(schema) && Fillable(schema, p) && !CleanName(t, schema, p)
    requires DistinctMembers(normal) && j < |normal| && normal[j].0 == Properties(schema).members[p].0
    ensures !Settles(t, schema, Dict(normal))
  {
    if Settles(t, schema, Dict(normal)) {
      MappingShape(t, normal, schema);
      var clean, again := t.Clean(normal[j].0.text), Normalize(t, Dict(normal), schema).value.members;
      CleanIdempotent(t, normal[j].0.text);
      assert Becomes(t, schema, normal[j], Items(t, normal, schema)[j]);
      assert again[j] == Items(t, normal, schema)[j];
      if SameKeys(Dict(normal), Dict(again)) {
        LookupReaches(again, 0, j, clean);
        assert Held(again, clean).Some? && Held(normal, clean).Some?;
        var k := LookupFinds(Dict(normal), 0, clean);
        DistinctSpellings(t, normal, schema, j, k);
      } else {
        RawNotGiven(t, schema, normal, p);
        var k := MissingIsWritten(t, normal, schema, p);
        DistinctSpellings(t, again, schema, j, k);
      }
    }
  }

  /** Keys that clean alike are refused. */
  lemma {:induction false} DistinctSpellings(t: TextRules, members: seq<Member>, schema: Value, j: nat, k: nat)
    requires schema.Dict? && Normalize(t, Dict(members), schema).Ok?
    requires j < |members| && k < |members| && j != k && members[j].0.Text? && members[k].0.Text?
    ensures t.Clean(members[j].0.text) != t.Clean(members[k].0.text)
  {
    var items := Items(t, members, schema);
    MembersBecome(t, members, schema);
    NoRepeatedKeys(t, Dict(members), schema, 0, []);
    assert Becomes(t, schema, members[j], items[j]) && Becomes(t, schema, members[k], items[k]);
    assert items[j].0 != items[k].0;
  }

  /** Normalization settles at once or never: when three passes succeed, the first was final. */
  lemma {:induction false} SettlesAtOnceOrNever(t: TextRules, value: Value, schema: Value)
    requires t.Lawful() && schema.Dict? && DistinctNames(schema)
    requires Normalize(t, value, schema).Ok?
    requires Normalize(t, Normalize(t, value, schema).value, schema).Ok?
    ensures var second := Normalize(t, Normalize(t, value, schema).value, schema).value;
      Normalize(t, second, schema).Ok? <==> second == Normalize(t, value, schema).value
  {
    FinalExactlyWithoutRawNames(t, value, schema);
    FixedExactlyWhenNormal(t, Normalize(t, value, schema).value, schema);
    if WritesRawName(t, schema, value) {
      RawNeverSettles(t, value, schema);
    }
  }

  /** Whatever the schema and the mapping: with a fillable property whose name is not clean, what a
      successful normalization returns is not left alone by the next one, and the one after that fails. */
  lemma {:induction false} UncleanNameNeverSettles(t: TextRules, members: seq<Member>, schema: Value, p: nat)
    requires t.Lawful() && schema.Dict? && DistinctNames(schema) && Fillable(schema, p) && !CleanName(t, schema, p)
    requires Normalize(t, Dict(members), schema).Ok?
    ensures var second := Normalize(t, Normalize(t, Dict(members), schema).value, schema);
      && second != Normalize(t, Dict(members), schema)
      && (second.Ok? ==> Normalize(t, second.value, schema).Err?)
  {
    assert RawAt(t, schema, members, p);
    FinalExactlyWithoutRawNames(t, Dict(members), schema);
    FixedExactlyWhenNormal(t, Normalize(t, Dict(members), schema).value, schema);
    RawNeverSettles(t, Dict(members), schema);
  }

  // ---------- the schemas that normalize for good ----------

  /** A missing property with a raw name whose default is in error: no mapping normalizes. */
  ghost predicate Blocked(t: TextRules, schema: Value)
    requires schema.Dict?
  {
    exists p | 0 <= p < |Properties(schema).members| && Fillable(schema, p) ::
      !CleanName(t, schema, p) && Filling(t, schema, p).None?
  }

  /** At every level that normalization reaches, the properties the fill loop may write have clean
      names, unless no mapping normalizes there. */
  ghost predicate StableSchema(t: TextRules, schema: Value)
    requires schema.Dict?
    decreases schema
  {
    && (Blocked(t, schema) ||
        forall p | 0 <= p < |Properties(schema).members| && Properties(schema).members[p].0.Text? &&
                   Properties(schema).members[p].1.Dict? ::
          if CleanName(t, schema, p) then StableSchema(t, Properties(schema).members[p].1)
          else !Fillable(schema, p))
    && (SubMapping(schema, "items") != EMPTY ==> StableSchema(t, SubMapping(schema, "items")))
  }

  lemma {:induction false} EmptyIsStable(t: TextRules)
    ensures StableSchema(t, EMPTY) && DistinctNames(EMPTY)
  {
  }

  lemma {:induction false} ChildIsStable(t: TextRules, schema: Value, key: string)
    requires schema.Dict? && StableSchema(t, schema) && !Blocked(t, schema) && t.Clean(key) == key
    ensures StableSchema(t, Child(schema, key))
  {
    EmptyIsStable(t);
    if Lookup(Properties(schema), 0, key).Some? {
      var j := LookupFinds(Properties(schema), 0, key);
    }
  }

  lemma {:induction false} StableWritesNoRawName(t: TextRules, value: Value, schema: Value)
    requires t.Lawful() && schema.Dict? && DistinctNames(schema) && StableSchema(t, schema)
    requires Normalize(t, value, schema).Ok?
    ensures !WritesRawName(t, schema, value)
    decreases Weight(schema), schema, 1, value, 1
  {
    match value
    case Arr(items) =>
      var itemSchema := SubMapping(schema, "items");
      SubschemasDistinct(schema, "");
      EmptyIsStable(t);
      ItemsPointwise(t, value, itemSchema, schema, |items|);
      forall i | 0 <= i < |items| ensures !WritesRawName(t, itemSchema, items[i]) {
        StableWritesNoRawName(t, items[i], itemSchema);
      }
    case Dict(members) =>
      StableMapping(t, members, schema);
    case _ =>
  }

  lemma {:induction false} BlockedNeverNormalizes(t: TextRules, members: seq<Member>, schema: Value)
    requires t.Lawful() && schema.Dict? && DistinctNames(schema) && Blocked(t, schema)
    ensures Normalize(t, Dict(members), schema).Err?
  {
    var p :| 0 <= p < |Properties(schema).members| && Fillable(schema, p) &&
             !CleanName(t, schema, p) && Filling(t, schema, p).None?;
    ErringDefaultBlocks(t, members, schema, p);
  }

  lemma {:induction false} StableMapping(t: TextRules, members: seq<Member>, schema: Value)
    requires t.Lawful() && schema.Dict? && DistinctNames(schema) && StableSchema(t, schema)
    requires Normalize(t, Dict(members), schema).Ok?
    ensures !WritesRawName(t, schema, Dict(members))
    decreases Weight(schema), schema, 1, Dict(members), 0
  {
    if Blocked(t, schema) {
      BlockedNeverNormalizes(t, members, schema);
    }
    MappingShape(t, members, schema);
    forall i | 0 <= i < |members| && members[i].0.Text?
      ensures !WritesRawName(t, Child(schema, t.Clean(members[i].0.text)), members[i].1)
    {
      assert Becomes(t, schema, members[i], Items(t, members, schema)[i]);
      CleanIdempotent(t, members[i].0.text);
      ChildIsStable(t, schema, t.Clean(members[i].0.text));
      SubschemasDistinct(schema, t.Clean(members[i].0.text));
      StableWritesNoRawName(t, members[i].1, Child(schema, t.Clean(members[i].0.text)));
    }
    forall p | 0 <= p < |Properties(schema).members| && Fillable(schema, p)
      ensures !RawAt(t, schema, members, p)
    {
      var (key, child) := Properties(schema).members[p];
      if !Given(t, members, key.text) && !AllowsNull(child) {
        var j := MissingIsWritten(t, members, schema, p);
        StableWritesNoRawName(t, Default(child).value, child);
      }
    }
  }

  /** Under a stable schema, what a successful normalization returns is normal. */
  lemma {:induction false} NormalizeIsIdempotent(t: TextRules, value: Value, schema: Value)
    requires t.Lawful() && schema.Dict? && DistinctNames(schema) && StableSchema(t, schema)
    requires Normalize(t, value, schema).Ok?
    ensures Normalize(t, Normalize(t, value, schema).value, schema) == Normalize(t, value, schema)
  {
    StableWritesNoRawName(t, value, schema);
    FinalExactlyWithoutRawNames(t, value, schema);
    FixedExactlyWhenNormal(t, Normalize(t, value, schema).value, schema);
  }

  /** One member for each of the first i properties with a clean name: v under property q, else null. */
  ghost function Witness(t: TextRules, schema: Value, i: nat, q: nat, v: Value): seq<Member>
    requires schema.Dict? && i <= |Properties(schema).members|
  {
    if i == 0 then []
    else
      var rest, key := Witness(t, schema, i - 1, q, v), Properties(schema).members[i - 1].0;
      if key.Text? && CleanName(t, schema, i - 1) then rest + [(key, if i - 1 == q then v else Null)] else rest
  }

  ghost predicate IsWitness(t: TextRules, schema: Value, i: nat, q: nat, v: Value, m: Member)
    requires schema.Dict? && i <= |Properties(schema).members|
  {
    exists p :: 0 <= p < i && Properties(schema).members[p].0 == m.0 && m.0.Text? && CleanName(t, schema, p) &&
                m.1 == if p == q then v else Null
  }

  lemma {:induction false} WitnessOnly(t: TextRules, schema: Value, i: nat, q: nat, v: Value, m: Member)
    requires schema.Dict? && i <= |Properties(schema).members| && m in Witness(t, schema, i, q, v)
    ensures IsWitness(t, schema, i, q, v, m)
  {
    if m in Witness(t, schema, i - 1, q, v) {
      WitnessOnly(t, schema, i - 1, q, v, m);
    }
  }

  lemma {:induction false} WitnessDistinct(t: TextRules, schema: Value, i: nat, q: nat, v: Value)
    requires schema.Dict? && i <= |Properties(schema).members| && DistinctNames(schema)
    ensures DistinctMembers(Witness(t, schema, i, q, v))
  {
    if i > 0 {
      WitnessDistinct(t, schema, i - 1, q, v);
      var rest := Witness(t, schema, i - 1, q, v);
      forall j | 0 <= j < |rest| ensures rest[j].0 != Properties(schema).members[i - 1].0 {
        WitnessOnly(t, schema, i - 1, q, v, rest[j]);
      }
    }
  }

  lemma {:induction false} WitnessHolds(t: TextRules, schema: Value, i: nat, q: nat, v: Value, p: nat)
    requires schema.Dict? && p < i <= |Properties(schema).members|
    requires Properties(schema).members[p].0.Text? && CleanName(t, schema, p)
    ensures (Properties(schema).members[p].0, if p == q then v else Null) in Witness(t, schema, i, q, v)
  {
    if p < i - 1 {
      WitnessHolds(t, schema, i - 1, q, v, p);
    }
  }

  /** Members with distinct clean keys normalize when their items do. */
  lemma {:induction false} MembersNormalize(t: TextRules, members: seq<Member>, schema: Value, i: nat,
                                            done: seq<Member>)
    requires schema.Dict? && i <= |members| && |done| == i && DistinctMembers(members)
    requires forall j | 0 <= j < i :: done[j].0 == members[j].0
    requires forall j | 0 <= j < |members| :: members[j].0.Text? && t.Clean(members[j].0.text) == members[j].0.text &&
               Normalize(t, members[j].1, Child(schema, members[j].0.text)).Ok?
    ensures NormalizeMembers(t, Dict(members), schema, i, done).Ok?
    decreases |members| - i
  {
    if i < |members| {
      var item := Normalize(t, members[i].1, Child(schema, members[i].0.text)).value;
      MembersNormalize(t, members, schema, i + 1, done + [(members[i].0, item)]);
    }
  }

  lemma {:induction false} FillSucceeds(t: TextRules, schema: Value, i: nat, items: seq<Member>)
    requires schema.Dict? && i <= |Properties(schema).members|
    requires forall p | i <= p < |Properties(schema).members| && Fillable(schema, p) ::
               Has(items, Properties(schema).members[p].0.text) || Filling(t, schema, p).Some?
    ensures Fill(t, schema, i, items).Ok?
    decreases |Properties(schema).members| - i
  {
    if i < |Properties(schema).members| {
      if Fillable(schema, i) && !Has(items, Properties(schema).members[i].0.text) {
        var m := (Properties(schema).members[i].0, Filling(t, schema, i).value);
        forall p | i < p < |Properties(schema).members| && Fillable(schema, p)
          ensures Has(items + [m], Properties(schema).members[p].0.text) || Filling(t, schema, p).Some?
        {
          if Has(items, Properties(schema).members[p].0.text) {
            HasAppend(items, m, Properties(schema).members[p].0.text);
          }
        }
        FillSucceeds(t, schema, i + 1, items + [m]);
      } else {
        FillSucceeds(t, schema, i + 1, items);
      }
    }
  }

  /** The value goes under the property, or is null. */
  ghost predicate Fits(t: TextRules, schema: Value, q: nat, v: Value)
    requires schema.Dict?
  {
    || v.Null?
    || (&& q < |Properties(schema).members|
        && Properties(schema).members[q].0.Text? && Properties(schema).members[q].1.Dict?
        && Normalize(t, v, Properties(schema).members[q].1).Ok?)
  }

  lemma {:induction false} WitnessNormalizes(t: TextRules, schema: Value, q: nat, v: Value)
    requires t.Lawful() && schema.Dict? && DistinctNames(schema) && !Blocked(t, schema) && Fits(t, schema, q, v)
    ensures Normalize(t, Dict(Witness(t, schema, |Properties(schema).members|, q, v)), schema).Ok?
  {
    var n := |Properties(schema).members|;
    var members := Witness(t, schema, n, q, v);
    WitnessDistinct(t, schema, n, q, v);
    forall j | 0 <= j < |members|
      ensures members[j].0.Text? && t.Clean(members[j].0.text) == members[j].0.text
      ensures Normalize(t, members[j].1, Child(schema, members[j].0.text)).Ok?
    {
      WitnessOnly(t, schema, n, q, v, members[j]);
      if !members[j].1.Null? {
        ChildOfProperty(schema, q);
      }
    }
    MembersNormalize(t, members, schema, 0, []);
    var items := NormalizeMembers(t, Dict(members), schema, 0, []).value;
    MembersBecome(t, members, schema);
    forall p | 0 <= p < n && Fillable(schema, p)
      ensures Has(items, Properties(schema).members[p].0.text) || Filling(t, schema, p).Some?
    {
      if CleanName(t, schema, p) {
        WitnessHolds(t, schema, n, q, v, p);
        var j :| 0 <= j < |members| && members[j].0 == Properties(schema).members[p].0;
        assert Given(t, members, Properties(schema).members[p].0.text);
        HasOnlyGiven(t, schema, members, items, Properties(schema).members[p].0.text);
      }
    }
    FillSucceeds(t, schema, 0, items);
  }

  /** Under any other schema, some value normalizes and writes a raw name. */
  lemma {:induction false} UnstableWritesRawName(t: TextRules, schema: Value) returns (value: Value)
    requires t.Lawful() && schema.Dict? && DistinctNames(schema) && !StableSchema(t, schema)
    ensures Normalize(t, value, schema).Ok? && WritesRawName(t, schema, value)
    decreases schema
  {
    var n := |Properties(schema).members|;
    if SubMapping(schema, "items") != EMPTY && !StableSchema(t, SubMapping(schema, "items")) {
      var item := UnstableWritesRawName(t, SubMapping(schema, "items"));
      value := Arr([item]);
      OneItem(t, schema, item);
    } else if p :| 0 <= p < n && Fillable(schema, p) && !CleanName(t, schema, p) {
      value := Dict(Witness(t, schema, n, 0, Null));
      WitnessNormalizes(t, schema, 0, Null);
      assert RawAt(t, schema, value.members, p);
    } else {
      var q :| 0 <= q < n && Properties(schema).members[q].0.Text? && Properties(schema).members[q].1.Dict? &&
               CleanName(t, schema, q) && !StableSchema(t, Properties(schema).members[q].1);
      var v := UnstableWritesRawName(t, Properties(schema).members[q].1);
      value := Dict(Witness(t, schema, n, q, v));
      WitnessNormalizes(t, schema, q, v);
      RawUnderProperty(t, schema, q, v);
    }
  }

  lemma {:induction false} OneItem(t: TextRules, schema: Value, item: Value)
    requires schema.Dict? && Normalize(t, item, SubMapping(schema, "items")).Ok?
    requires WritesRawName(t, SubMapping(schema, "items"), item)
    ensures Normalize(t, Arr([item]), schema).Ok? && WritesRawName(t, schema, Arr([item]))
  {
    assert NormalizeItems(t, Arr([item]), SubMapping(schema, "items"), schema, 0) == Ok([]);
    assert [item][0] == item;
  }

  lemma {:induction false} RawUnderProperty(t: TextRules, schema: Value, q: nat, v: Value)
    requires schema.Dict? && DistinctNames(schema) && q < |Properties(schema).members|
    requires Properties(schema).members[q].0.Text? && Properties(schema).members[q].1.Dict? && CleanName(t, schema, q)
    requires WritesRawName(t, Properties(schema).members[q].1, v)
    ensures WritesRawName(t, schema, Dict(Witness(t, schema, |Properties(schema).members|, q, v)))
  {
    var members := Witness(t, schema, |Properties(schema).members|, q, v);
    WitnessHolds(t, schema, |Properties(schema).members|, q, v, q);
    ChildOfProperty(schema, q);
    var i :| 0 <= i < |members| && members[i] == (Properties(schema).members[q].0, v);
  }

  /** Normalization under a schema is idempotent if and only if the schema is stable. */
  lemma {:induction false} IdempotentExactlyWhenStable(t: TextRules, schema: Value)
    requires t.Lawful() && schema.Dict? && DistinctNames(schema)
    ensures StableSchema(t, schema) <==>
            forall value | Normalize(t, value, schema).Ok? ::
              Normalize(t, Normalize(t, value, schema).value, schema) == Normalize(t, value, schema)
  {
    if StableSchema(t, schema) {
      forall value | Normalize(t, value, schema).Ok?
        ensures Normalize(t, Normalize(t, value, schema).value, schema) == Normalize(t, value, schema)
      {
        NormalizeIsIdempotent(t, value, schema);
      }
    } else {
      var value := UnstableWritesRawName(t, schema);
      FinalExactlyWithoutRawNames(t, value, schema);
      FixedExactlyWhenNormal(t, Normalize(t, value, schema).value, schema);
    }
  }

  // ---------- the smallest case ----------

  /** A schema with one nullable property. */
  function OneNullable(name: string): Value {
    Dict([(Text("properties"), Dict([(Text(name), Dict([(Text("type"), Str("null"))]))]))])
  }

  /** With a property name that is not clean, the second pass adds a member and the third fails. */
  lemma {:induction false} OneNullableNeverSettles(t: TextRules, name: string)
    requires t.Lawful() && t.Clean(name) != name
    ensures var schema, clean := OneNullable(name), t.Clean(name);
      && Normalize(t, Dict([]), schema) == Ok(Dict([(Text(name), Null)]))
      && Normalize(t, Dict([(Text(name), Null)]), schema) == Ok(Dict([(Text(clean), Null), (Text(name), Null)]))
      && Normalize(t, Dict([(Text(clean), Null), (Text(name), Null)]), schema) == Err(DuplicateKey(clean))
  {
    NameIsFilled(t, name, []);
    assert [] + [(Text(name), Null)] == [(Text(name), Null)];
    SecondPass(t, name);
    ThirdPass(t, name);
  }

  lemma {:induction false} SecondPass(t: TextRules, name: string)
    requires t.Clean(name) != name
    ensures Normalize(t, Dict([(Text(name), Null)]), OneNullable(name))
            == Ok(Dict([(Text(t.Clean(name)), Null), (Text(name), Null)]))
  {
    FirstMember(t, [(Text(name), Null)], OneNullable(name));
    NameIsFilled(t, name, [(Text(t.Clean(name)), Null)]);
    assert [(Text(t.Clean(name)), Null)] + [(Text(name), Null)] == [(Text(t.Clean(name)), Null), (Text(name), Null)];
  }

  lemma {:induction false} ThirdPass(t: TextRules, name: string)
    requires t.Lawful()
    ensures Normalize(t, Dict([(Text(t.Clean(name)), Null), (Text(name), Null)]), OneNullable(name))
            == Err(DuplicateKey(t.Clean(name)))
  {
    var clean := t.Clean(name);
    var first: seq<Member>, twice: seq<Member> := [(Text(clean), Null)], [(Text(clean), Null), (Text(name), Null)];
    CleanIdempotent(t, name);
    FirstMember(t, twice, OneNullable(name));
    assert first[0].0 == Text(clean);
    assert NormalizeMembers(t, Dict(twice), OneNullable(name), 1, first) == Err(DuplicateKey(clean));
  }

  lemma {:induction false} NameIsFilled(t: TextRules, name: string, items: seq<Member>)
    requires !Has(items, name)
    ensures Fill(t, OneNullable(name), 0, items) == Ok(items + [(Text(name), Null)])
  {
    var schema, nullable := OneNullable(name), Dict([(Text("type"), Str("null"))]);
    assert Properties(schema) == Dict([(Text(name), nullable)]);
    assert AllowsNull(nullable);
    assert Fill(t, schema, 1, items + [(Text(name), Null)]) == Ok(items + [(Text(name), Null)]);
  }

  lemma {:induction false} FirstMember(t: TextRules, members: seq<Member>, schema: Value)
    requires schema.Dict? && members != [] && members[0].0.Text? && members[0].1 == Null
    ensures NormalizeMembers(t, Dict(members), schema, 0, []) ==
            NormalizeMembers(t, Dict(members), schema, 1, [(Text(t.Clean(members[0].0.text)), Null)])
  {
    assert !Has([], t.Clean(members[0].0.text));
    assert [] + [(Text(t.Clean(members[0].0.text)), Null)] == [(Text(t.Clean(members[0].0.text)), Null)];
  }
}
