/**
 Schema-directed normalization of JSON-like values, and the values it leaves
 alone. Mappings keep their insertion order, as Python's do.
 */
module Canonicalization {
  import opened Results
  import opened Strings

  datatype Key = Text(text: string) | NotText

  type Member = (Key, Value)

  datatype Value =
    | Null
    | Bool(flag: bool)
    | Int(n: int)
    | Float(x: real)
    | NonFinite
    | Str(text: string)
    | Arr(items: seq<Value>)
    | Dict(members: seq<(Key, Value)>)
    | Unsupported

  datatype JsonError =
    | IntegerOutOfRange
    | NumberNotFinite
    | KeyNotText
    | DuplicateKey(key: string)
    | BadTimestamp
    | UnsupportedType

  /** Largest integer that every JSON reader keeps exact. */
  const MAX_SAFE_INTEGER := 0x20_0000_0000_0000 - 1

  /** The mapping used when a schema says nothing. */
  const EMPTY := Dict([])

  /** Unicode normalization and timestamp rendering. */
  datatype TextRules = TextRules(nfc: string -> string, timestamp: string -> Option<string>) {
    function Clean(s: string): string { nfc(Newlines(s)) }

    /** Both are idempotent, and neither introduces a carriage return. */
    ghost predicate Lawful() {
      && (forall s :: nfc(nfc(s)) == nfc(s))
      && (forall s :: '\r' !in s ==> '\r' !in nfc(s))
      && (forall s :: timestamp(s).Some? ==>
            Clean(timestamp(s).value) == timestamp(s).value && timestamp(timestamp(s).value) == timestamp(s))
    }
  }

  lemma CleanIdempotent(t: TextRules, s: string)
    requires t.Lawful()
    ensures t.Clean(t.Clean(s)) == t.Clean(s)
    ensures '\r' !in t.Clean(s)
  {
    NewlinesIdempotent(s);
    NewlinesIdempotent(t.Clean(s));
  }

  // ---------- reading a schema ----------

  function Lookup(v: Value, i: nat, key: string): (r: Option<Value>)
    requires v.Dict? && i <= |v.members|
    ensures r.Some? ==> (v decreases to r.value)
    decreases |v.members| - i
  {
    if i == |v.members| then None
    else if v.members[i].0 == Text(key) then Some(v.members[i].1)
    else Lookup(v, i + 1, key)
  }

  /** `v.get(key)` */
  function Get(v: Value, key: string): (r: Option<Value>)
    requires v.Dict?
    ensures r.Some? ==> (v decreases to r.value)
  {
    Lookup(v, 0, key)
  }

  /** The mapping under a key, or an empty one when it is missing or is no mapping. */
  function SubMapping(v: Value, key: string): (r: Value)
    requires v.Dict?
    ensures r.Dict?
    ensures r == EMPTY || (v decreases to r)
  {
    var found := Get(v, key);
    if found.Some? && found.value.Dict? then found.value else EMPTY
  }

  function Properties(schema: Value): (r: Value)
    requires schema.Dict?
    ensures r.Dict?
    ensures r == EMPTY || (schema decreases to r)
  {
    SubMapping(schema, "properties")
  }

  /** The schema of one property. */
  function Child(schema: Value, key: string): (r: Value)
    requires schema.Dict?
    ensures r.Dict?
    ensures r == EMPTY || (schema decreases to r)
  {
    SubMapping(Properties(schema), key)
  }

  function AllowsNull(schema: Value): bool
    requires schema.Dict?
  {
    match Get(schema, "type")
    case Some(Str(s)) => s == "null"
    case Some(Arr(items)) => Str("null") in items
    case _ => false
  }

  /** Python truthiness. */
  predicate Truthy(v: Value) {
    match v
    case Null => false
    case Bool(b) => b
    case Int(n) => n != 0
    case Float(x) => x != 0.0
    case NonFinite => true
    case Str(s) => s != ""
    case Arr(items) => items != []
    case Dict(members) => members != []
    case Unsupported => true
  }

  function Default(schema: Value): (r: Option<Value>)
    requires schema.Dict?
  {
    var materialize := Get(schema, "x-materialize-default");
    if materialize.Some? && Truthy(materialize.value) then Get(schema, "default") else None
  }

  predicate Has(members: seq<Member>, key: string) {
    exists i | 0 <= i < |members| :: members[i].0 == Text(key)
  }

  // ---------- normalization ----------

  /** Defaults may be larger than what they fill: the schema shrinks first, then the value. */
  function Weight(schema: Value): nat { if schema == EMPTY then 0 else 1 }

  /** The branches that do not recurse. */
  function NormalizeScalar(t: TextRules, value: Value, schema: Value): Result<Value, JsonError>
    requires schema.Dict? && !value.Dict? && !value.Arr?
  {
    match value
    case Null => Ok(value)
    case Bool(_) => Ok(value)
    case Str(s) =>
      var clean := t.Clean(s);
      if Get(schema, "format") == Some(Str("date-time")) then
        (match t.timestamp(clean) case Some(u) => Ok(Str(u)) case None => Err(BadTimestamp))
      else Ok(Str(clean))
    case Int(n) => if -MAX_SAFE_INTEGER <= n <= MAX_SAFE_INTEGER then Ok(value) else Err(IntegerOutOfRange)
    case Float(x) => Ok(if x == 0.0 then Int(0) else value)
    case NonFinite => Err(NumberNotFinite)
    case Unsupported => Err(UnsupportedType)
  }

  /** `normalize_json` */
  function Normalize(t: TextRules, value: Value, schema: Value): Result<Value, JsonError>
    requires schema.Dict?
    decreases Weight(schema), schema, 1, value, 2
  {
    match value
    case Dict(members) =>
      (match NormalizeMembers(t, value, schema, 0, [])
       case Err(e) => Err(e)
       case Ok(items) =>
         match Fill(t, schema, 0, items)
         case Err(e) => Err(e)
         case Ok(filled) => Ok(Dict(filled)))
    case Arr(items) =>
      (match NormalizeItems(t, value, SubMapping(schema, "items"), schema, |items|)
       case Err(e) => Err(e)
       case Ok(normal) => Ok(Arr(normal)))
    case _ => NormalizeScalar(t, value, schema)
  }

  /** The first loop over a mapping, from member i on, after `done`. */
  function NormalizeMembers(t: TextRules, value: Value, schema: Value, i: nat,
                            done: seq<Member>): Result<seq<Member>, JsonError>
    requires schema.Dict? && value.Dict? && i <= |value.members|
    decreases Weight(schema), schema, 1, value, 0, |value.members| - i
  {
    if i == |value.members| then Ok(done)
    else if value.members[i].0.NotText? then Err(KeyNotText)
    else
      var key := t.Clean(value.members[i].0.text);
      if Has(done, key) then Err(DuplicateKey(key))
      else
        match Normalize(t, value.members[i].1, Child(schema, key))
        case Err(e) => Err(e)
        case Ok(item) => NormalizeMembers(t, value, schema, i + 1, done + [(Text(key), item)])
  }

  /** The second loop, over the properties from i on: nulls and materialized defaults. */
  function Fill(t: TextRules, schema: Value, i: nat, items: seq<Member>): Result<seq<Member>, JsonError>
    requires schema.Dict? && i <= |Properties(schema).members|
    decreases Weight(schema), schema, 0, |Properties(schema).members| - i
  {
    var properties := Properties(schema).members;
    if i == |properties| then Ok(items)
    else
      var (key, child) := properties[i];
      if key.NotText? || Has(items, key.text) || !child.Dict? then Fill(t, schema, i + 1, items)
      else if AllowsNull(child) then Fill(t, schema, i + 1, items + [(key, Null)])
      else if Default(child).Some? then
        match Normalize(t, Default(child).value, child)
        case Err(e) => Err(e)
        case Ok(item) => Fill(t, schema, i + 1, items + [(key, item)])
      else Fill(t, schema, i + 1, items)
  }

  /** The comprehension over a sequence: its first n items. */
  function NormalizeItems(t: TextRules, value: Value, itemSchema: Value, schema: Value, n: nat): Result<seq<Value>,
                          JsonError>
    requires schema.Dict? && value.Arr? && n <= |value.items| && itemSchema == SubMapping(schema, "items")
    decreases Weight(schema), schema, 1, value, 0, n
  {
    if n == 0 then Ok([])
    else
      match NormalizeItems(t, value, itemSchema, schema, n - 1)
      case Err(e) => Err(e)
      case Ok(items) =>
        match Normalize(t, value.items[n - 1], itemSchema)
        case Err(e) => Err(e)
        case Ok(item) => Ok(items + [item])
  }

  // ---------- looking up ----------

  lemma {:induction false} LookupFinds(v: Value, i: nat, key: string) returns (j: nat)
    requires v.Dict? && i <= |v.members| && Lookup(v, i, key).Some?
    ensures i <= j < |v.members| && v.members[j] == (Text(key), Lookup(v, i, key).value)
    decreases |v.members| - i
  {
    if v.members[i].0 == Text(key) {
      j := i;
    } else {
      j := LookupFinds(v, i + 1, key);
    }
  }

  lemma {:induction false} LookupAt(v: Value, i: nat, j: nat)
    requires v.Dict? && i <= j < |v.members| && v.members[j].0.Text?
    requires forall k | i <= k < j :: v.members[k].0 != v.members[j].0
    ensures Lookup(v, i, v.members[j].0.text) == Some(v.members[j].1)
    decreases j - i
  {
    if i < j {
      LookupAt(v, i + 1, j);
    }
  }

  lemma {:induction false} LookupReaches(members: seq<Member>, i: nat, j: nat, key: string)
    requires i <= j < |members| && members[j].0 == Text(key)
    ensures Lookup(Dict(members), i, key).Some?
    decreases j - i
  {
    if i < j {
      LookupReaches(members, i + 1, j, key);
    }
  }

  /** What a mapping holds under a key. */
  function Held(members: seq<Member>, key: string): Option<Value> { Get(Dict(members), key) }

  ghost predicate DistinctMembers(members: seq<Member>) {
    forall i, j | 0 <= i < j < |members| :: members[i].0 != members[j].0
  }

  lemma HasAppend(members: seq<Member>, m: Member, key: string)
    requires Has(members, key) || m.0 == Text(key)
    ensures Has(members + [m], key)
  {
    if Has(members, key) {
      var i :| 0 <= i < |members| && members[i].0 == Text(key);
      assert (members + [m])[i].0 == Text(key);
    } else {
      assert (members + [m])[|members|].0 == Text(key);
    }
  }

  lemma HasOther(items: seq<Member>, m: Member, key: string)
    requires m.0 != Text(key)
    ensures Has(items + [m], key) == Has(items, key)
  {
    if Has(items, key) {
      HasAppend(items, m, key);
    }
  }

  lemma HasPrefix(short: seq<Member>, long: seq<Member>, key: string)
    requires short <= long && Has(short, key)
    ensures Has(long, key)
  {
    var i :| 0 <= i < |short| && short[i].0 == Text(key);
    assert long[i].0 == Text(key);
  }

  // ---------- properties of a schema ----------

  /** As in any Python mapping, no property name occurs twice, at any level of the schema. */
  ghost predicate DistinctNames(schema: Value)
    requires schema.Dict?
    decreases schema
  {
    var properties := Properties(schema).members;
    && (forall i, j | 0 <= i < j < |properties| && properties[i].0.Text? :: properties[i].0 != properties[j].0)
    && (forall i | 0 <= i < |properties| && properties[i].1.Dict? :: DistinctNames(properties[i].1))
    && (SubMapping(schema, "items") != EMPTY ==> DistinctNames(SubMapping(schema, "items")))
  }

  lemma {:induction false} SubschemasDistinct(schema: Value, key: string)
    requires schema.Dict? && DistinctNames(schema)
    ensures DistinctNames(Child(schema, key))
    ensures DistinctNames(SubMapping(schema, "items"))
  {
    assert DistinctNames(EMPTY);
    if Lookup(Properties(schema), 0, key).Some? {
      var j := LookupFinds(Properties(schema), 0, key);
    }
  }

  lemma {:induction false} ChildOfProperty(schema: Value, p: nat)
    requires schema.Dict? && DistinctNames(schema) && p < |Properties(schema).members|
    requires Properties(schema).members[p].0.Text? && Properties(schema).members[p].1.Dict?
    ensures Child(schema, Properties(schema).members[p].0.text) == Properties(schema).members[p].1
  {
    LookupAt(Properties(schema), 0, p);
  }

  /** A property the fill loop writes when it is missing. */
  ghost predicate Fillable(schema: Value, p: nat)
    requires schema.Dict?
  {
    && p < |Properties(schema).members|
    && Properties(schema).members[p].0.Text? && Properties(schema).members[p].1.Dict?
    && (AllowsNull(Properties(schema).members[p].1) || Default(Properties(schema).members[p].1).Some?)
  }

  /** The property's name survives cleaning. */
  ghost predicate CleanName(t: TextRules, schema: Value, p: nat)
    requires schema.Dict? && p < |Properties(schema).members| && Properties(schema).members[p].0.Text?
  {
    t.Clean(Properties(schema).members[p].0.text) == Properties(schema).members[p].0.text
  }

  /** What the fill loop writes for property p. */
  function Filling(t: TextRules, schema: Value, p: nat): Option<Value>
    requires schema.Dict? && p < |Properties(schema).members|
  {
    var child := Properties(schema).members[p].1;
    if !child.Dict? then None
    else if AllowsNull(child) then Some(Null)
    else if Default(child).Some? && Normalize(t, Default(child).value, child).Ok? then
      Some(Normalize(t, Default(child).value, child).value)
    else None
  }

  /** The fill loop has nothing to do at property p. */
  ghost predicate Complete(schema: Value, p: nat, members: seq<Member>)
    requires schema.Dict? && p < |Properties(schema).members|
  {
    Fillable(schema, p) ==> Has(members, Properties(schema).members[p].0.text)
  }

  lemma {:induction false} FillIdle(t: TextRules, schema: Value, i: nat, members: seq<Member>)
    requires schema.Dict? && i <= |Properties(schema).members|
    requires forall j | i <= j < |Properties(schema).members| :: Complete(schema, j, members)
    ensures Fill(t, schema, i, members) == Ok(members)
    decreases |Properties(schema).members| - i
  {
    if i < |Properties(schema).members| {
      assert Complete(schema, i, members);
      FillIdle(t, schema, i + 1, members);
    }
  }

  /** The fill loop keeps what is there and appends fillings of properties. */
  lemma {:induction false} FillExtends(t: TextRules, schema: Value, i: nat, items: seq<Member>)
    requires schema.Dict? && i <= |Properties(schema).members| && Fill(t, schema, i, items).Ok?
    ensures var filled := Fill(t, schema, i, items).value;
      && items <= filled
      && (forall j | |items| <= j < |filled| :: IsFilling(t, schema, filled[j]))
      && (filled == items ==> forall p | i <= p < |Properties(schema).members| :: Complete(schema, p, items))
    decreases |Properties(schema).members| - i
  {
    if i < |Properties(schema).members| {
      var (key, child) := Properties(schema).members[i];
      var filling := Filling(t, schema, i);
      if key.NotText? || Has(items, key.text) || filling.None? {
        FillExtends(t, schema, i + 1, items);
      } else {
        assert IsFilling(t, schema, (key, filling.value));
        FillExtends(t, schema, i + 1, items + [(key, filling.value)]);
      }
    }
  }

  /** A member the fill loop may write. */
  ghost predicate IsFilling(t: TextRules, schema: Value, m: Member)
    requires schema.Dict?
  {
    exists p :: 0 <= p < |Properties(schema).members| && Properties(schema).members[p].0 == m.0 && m.0.Text? &&
                Filling(t, schema, p) == Some(m.1)
  }

  /** Property p is written into `filled`, with its value. */
  ghost predicate Written(t: TextRules, schema: Value, p: nat, filled: seq<Member>)
    requires schema.Dict? && p < |Properties(schema).members|
  {
    && Filling(t, schema, p).Some?
    && (Properties(schema).members[p].0, Filling(t, schema, p).value) in filled
  }

  lemma {:induction false} OthersStayMissing(schema: Value, i: nat, items: seq<Member>, m: Member)
    requires schema.Dict? && DistinctNames(schema) && Fillable(schema, i) && m.0 == Properties(schema).members[i].0
    ensures forall p | i < p < |Properties(schema).members| && Fillable(schema, p) ::
              Has(items + [m], Properties(schema).members[p].0.text)
              == Has(items, Properties(schema).members[p].0.text)
  {
    forall p | i < p < |Properties(schema).members| && Fillable(schema, p)
      ensures Has(items + [m], Properties(schema).members[p].0.text)
              == Has(items, Properties(schema).members[p].0.text)
    {
      HasOther(items, m, Properties(schema).members[p].0.text);
    }
  }

  /** The fill loop writes exactly the fillable properties that are missing, each once. */
  lemma {:induction false} FillWrites(t: TextRules, schema: Value, i: nat, items: seq<Member>)
    requires schema.Dict? && i <= |Properties(schema).members| && DistinctNames(schema)
    requires Fill(t, schema, i, items).Ok? && DistinctMembers(items)
    ensures var filled := Fill(t, schema, i, items).value;
      && DistinctMembers(filled)
      && (forall p | i <= p < |Properties(schema).members| :: Complete(schema, p, filled))
      && (forall p | i <= p < |Properties(schema).members| && Fillable(schema, p) ::
            !Has(items, Properties(schema).members[p].0.text) ==> Written(t, schema, p, filled))
    decreases |Properties(schema).members| - i
  {
    if i < |Properties(schema).members| {
      var next := items;
      if Fillable(schema, i) && !Has(items, Properties(schema).members[i].0.text) {
        var m := (Properties(schema).members[i].0, Filling(t, schema, i).value);
        next := items + [m];
        HasAppend(items, m, m.0.text);
        OthersStayMissing(schema, i, items, m);
      }
      FillWrites(t, schema, i + 1, next);
      FilledAtLast(t, schema, i, items, next);
    }
  }

  /** Property i is complete after the rest of the loop, and written if it was this turn's work. */
  lemma FilledAtLast(t: TextRules, schema: Value, i: nat, items: seq<Member>, next: seq<Member>)
    requires schema.Dict? && i < |Properties(schema).members| && Fill(t, schema, i + 1, next).Ok?
    requires Complete(schema, i, next)
    requires next == items || (Fillable(schema, i) && Filling(t, schema, i).Some? &&
                               next == items + [(Properties(schema).members[i].0, Filling(t, schema, i).value)])
    ensures Complete(schema, i, Fill(t, schema, i + 1, next).value)
    ensures next != items ==> Written(t, schema, i, Fill(t, schema, i + 1, next).value)
  {
    var filled := Fill(t, schema, i + 1, next).value;
    FillExtends(t, schema, i + 1, next);
    if Fillable(schema, i) {
      HasPrefix(next, filled, Properties(schema).members[i].0.text);
    }
    if next != items {
      assert filled[|items|] == next[|items|];
    }
  }

  // ---------- normal members ----------

  /** Members that normalization leaves alone: clean, distinct keys over settled items. */
  ghost predicate Settled(t: TextRules, schema: Value, members: seq<Member>)
    requires schema.Dict?
  {
    && (forall i | 0 <= i < |members| :: members[i].0.Text? && t.Clean(members[i].0.text) == members[i].0.text)
    && DistinctMembers(members)
    && (forall i | 0 <= i < |members| ::
          members[i].0.Text? && Normalize(t, members[i].1, Child(schema, members[i].0.text)) == Ok(members[i].1))
  }

  lemma {:induction false} MembersIdle(t: TextRules, schema: Value, members: seq<Member>, i: nat)
    requires schema.Dict? && i <= |members| && Settled(t, schema, members)
    ensures NormalizeMembers(t, Dict(members), schema, i, members[..i]) == Ok(members)
    decreases |members| - i
  {
    if i == |members| {
      assert members[..i] == members;
    } else {
      assert !Has(members[..i], members[i].0.text);
      assert members[..i] + [members[i]] == members[..i + 1];
      MembersIdle(t, schema, members, i + 1);
    }
  }

  lemma {:induction false} ItemsIdle(t: TextRules, items: seq<Value>, schema: Value, n: nat)
    requires schema.Dict? && n <= |items|
    requires forall item | item in items :: Normalize(t, item, SubMapping(schema, "items")) == Ok(item)
    ensures NormalizeItems(t, Arr(items), SubMapping(schema, "items"), schema, n) == Ok(items[..n])
  {
    if n > 0 {
      ItemsIdle(t, items, schema, n - 1);
      assert items[n - 1] in items;
      assert items[..n - 1] + [items[n - 1]] == items[..n];
    }
  }

  // ---------- what is normal, said without the procedure ----------

  ghost predicate Normal(t: TextRules, schema: Value, value: Value)
    requires schema.Dict?
    decreases value
  {
    match value
    case Null => true
    case Bool(_) => true
    case Str(s) =>
      t.Clean(s) == s && (Get(schema, "format") == Some(Str("date-time")) ==> t.timestamp(s) == Some(s))
    case Int(n) => -MAX_SAFE_INTEGER <= n <= MAX_SAFE_INTEGER
    case Float(x) => x != 0.0
    case Arr(items) => forall item | item in items :: Normal(t, SubMapping(schema, "items"), item)
    case Dict(members) =>
      && (forall i | 0 <= i < |members| :: members[i].0.Text? && t.Clean(members[i].0.text) == members[i].0.text)
      && DistinctMembers(members)
      && (forall i | 0 <= i < |members| ::
            members[i].0.Text? && Normal(t, Child(schema, members[i].0.text), members[i].1))
      && (forall p | 0 <= p < |Properties(schema).members| :: Complete(schema, p, members))
    case _ => false
  }

  /** A member and its normalization: the clean key with the normalized value. */
  ghost predicate Becomes(t: TextRules, schema: Value, m: Member, n: Member)
    requires schema.Dict?
  {
    m.0.Text? && n.0 == Text(t.Clean(m.0.text)) && Normalize(t, m.1, Child(schema, t.Clean(m.0.text))) == Ok(n.1)
  }

  /** Each member of the input gives one member of the output, in order. */
  lemma {:induction false} MembersPointwise(t: TextRules, value: Value, schema: Value, i: nat, done: seq<Member>)
    requires schema.Dict? && value.Dict? && i <= |value.members| && NormalizeMembers(t, value, schema, i, done).Ok?
    ensures var items := NormalizeMembers(t, value, schema, i, done).value;
      && |items| == |done| + |value.members| - i
      && items[..|done|] == done
      && (forall j | i <= j < |value.members| :: Becomes(t, schema, value.members[j], items[|done| + j - i]))
    decreases |value.members| - i
  {
    if i < |value.members| {
      var key := t.Clean(value.members[i].0.text);
      var m := (Text(key), Normalize(t, value.members[i].1, Child(schema, key)).value);
      MembersPointwise(t, value, schema, i + 1, done + [m]);
      var items := NormalizeMembers(t, value, schema, i, done).value;
      assert items[|done|] == items[..|done| + 1][|done|] == m;
      assert items[..|done|] == items[..|done| + 1][..|done|] == done;
    }
  }

  lemma {:induction false} MembersBecome(t: TextRules, members: seq<Member>, schema: Value)
    requires schema.Dict? && NormalizeMembers(t, Dict(members), schema, 0, []).Ok?
    ensures var items := NormalizeMembers(t, Dict(members), schema, 0, []).value;
      |items| == |members| && forall i | 0 <= i < |members| :: Becomes(t, schema, members[i], items[i])
  {
    var none: seq<Member> := [];
    MembersPointwise(t, Dict(members), schema, 0, none);
    var items := NormalizeMembers(t, Dict(members), schema, 0, none).value;
    forall i | 0 <= i < |members| ensures Becomes(t, schema, members[i], items[i]) {
      assert items[|none| + i - 0] == items[i];
    }
  }

  /** The output of a mapping, member by member: the input's members first, in order, with clean
      keys and normalized values; then only nulls and materialized defaults of the schema. */
  lemma {:induction false} NormalizedMembers(t: TextRules, members: seq<Member>, schema: Value)
    requires schema.Dict? && Normalize(t, Dict(members), schema).Ok?
    ensures var normal := Normalize(t, Dict(members), schema).value;
      && normal.Dict? && |normal.members| >= |members|
      && (forall i | 0 <= i < |members| :: Becomes(t, schema, members[i], normal.members[i]))
      && (forall i | |members| <= i < |normal.members| :: IsFilling(t, schema, normal.members[i]))
  {
    var items := NormalizeMembers(t, Dict(members), schema, 0, []).value;
    MembersBecome(t, members, schema);
    FillExtends(t, schema, 0, items);
    KeptByPrefix(t, schema, members, items, Fill(t, schema, 0, items).value);
  }

  lemma KeptByPrefix(t: TextRules, schema: Value, members: seq<Member>, items: seq<Member>, filled: seq<Member>)
    requires schema.Dict? && |items| == |members| && items <= filled
    requires forall i | 0 <= i < |members| :: Becomes(t, schema, members[i], items[i])
    ensures forall i | 0 <= i < |members| :: Becomes(t, schema, members[i], filled[i])
  {
    forall i | 0 <= i < |members| ensures Becomes(t, schema, members[i], filled[i]) {
      assert filled[i] == items[i];
    }
  }

  lemma {:induction false} ItemsPointwise(t: TextRules, value: Value, itemSchema: Value, schema: Value, n: nat)
    requires schema.Dict? && value.Arr? && n <= |value.items| && itemSchema == SubMapping(schema, "items")
    requires NormalizeItems(t, value, itemSchema, schema, n).Ok?
    ensures var items := NormalizeItems(t, value, itemSchema, schema, n).value;
      |items| == n && forall i | 0 <= i < n :: Normalize(t, value.items[i], itemSchema) == Ok(items[i])
  {
    if n > 0 {
      ItemsPointwise(t, value, itemSchema, schema, n - 1);
    }
  }

  /** Normalization leaves a value alone exactly when it is normal. */
  lemma {:induction false} FixedExactlyWhenNormal(t: TextRules, value: Value, schema: Value)
    requires t.Lawful() && schema.Dict?
    ensures Normalize(t, value, schema) == Ok(value) <==> Normal(t, schema, value)
    decreases value, 1
  {
    match value
    case Str(s) =>
      CleanIdempotent(t, s);
    case Dict(members) =>
      FixedMapping(t, members, schema);
    case Arr(items) =>
      var itemSchema := SubMapping(schema, "items");
      forall item | item in items ensures Normalize(t, item, itemSchema) == Ok(item) <==> Normal(t, itemSchema, item) {
        FixedExactlyWhenNormal(t, item, itemSchema);
      }
      if Normal(t, schema, value) {
        ItemsIdle(t, items, schema, |items|);
        assert items[..|items|] == items;
      } else if Normalize(t, value, schema) == Ok(value) {
        ItemsPointwise(t, value, itemSchema, schema, |items|);
      }
    case _ =>
  }

  lemma {:induction false} FixedMapping(t: TextRules, members: seq<Member>, schema: Value)
    requires t.Lawful() && schema.Dict?
    ensures Normalize(t, Dict(members), schema) == Ok(Dict(members)) <==> Normal(t, schema, Dict(members))
    decreases Dict(members), 0
  {
    forall i | 0 <= i < |members| && members[i].0.Text?
      ensures var child := Child(schema, members[i].0.text);
        Normalize(t, members[i].1, child) == Ok(members[i].1) <==> Normal(t, child, members[i].1)
    {
      FixedExactlyWhenNormal(t, members[i].1, Child(schema, members[i].0.text));
    }
    if Normal(t, schema, Dict(members)) {
      MembersIdle(t, schema, members, 0);
      FillIdle(t, schema, 0, members);
    } else if Normalize(t, Dict(members), schema) == Ok(Dict(members)) {
      FixedIsSettled(t, members, schema);
    }
  }

  lemma {:induction false} FixedIsSettled(t: TextRules, members: seq<Member>, schema: Value)
    requires schema.Dict? && Normalize(t, Dict(members), schema) == Ok(Dict(members))
    ensures Settled(t, schema, members)
    ensures forall p | 0 <= p < |Properties(schema).members| :: Complete(schema, p, members)
  {
    var items := NormalizeMembers(t, Dict(members), schema, 0, []).value;
    MembersBecome(t, members, schema);
    FillExtends(t, schema, 0, items);
    assert items == members;
    NoRepeatedKeys(t, Dict(members), schema, 0, []);
    forall i | 0 <= i < |members|
      ensures members[i].0.Text? && t.Clean(members[i].0.text) == members[i].0.text &&
              Normalize(t, members[i].1, Child(schema, members[i].0.text)) == Ok(members[i].1)
    {
      assert Becomes(t, schema, members[i], items[i]);
    }
  }

  lemma {:induction false} NoRepeatedKeys(t: TextRules, value: Value, schema: Value, i: nat, done: seq<Member>)
    requires schema.Dict? && value.Dict? && i <= |value.members| && NormalizeMembers(t, value, schema, i, done).Ok?
    requires DistinctMembers(done)
    ensures DistinctMembers(NormalizeMembers(t, value, schema, i, done).value)
    decreases |value.members| - i
  {
    if i < |value.members| {
      var key := t.Clean(value.members[i].0.text);
      var item := Normalize(t, value.members[i].1, Child(schema, key)).value;
      NoRepeatedKeys(t, value, schema, i + 1, done + [(Text(key), item)]);
    }
  }

  // ---------- absent and null ----------

  /** Some member's key is cleaned to this name. */
  ghost predicate Given(t: TextRules, members: seq<Member>, name: string) {
    exists i :: 0 <= i < |members| && members[i].0.Text? && t.Clean(members[i].0.text) == name
  }

  lemma {:induction false} LookupAppend(members: seq<Member>, i: nat, m: Member, key: string)
    requires i <= |members|
    ensures Lookup(Dict(members + [m]), i, key) ==
            if Lookup(Dict(members), i, key).Some? then Lookup(Dict(members), i, key)
            else if m.0 == Text(key) then Some(m.1) else None
    decreases |members| - i
  {
    if i < |members| {
      assert (members + [m])[i] == members[i];
      LookupAppend(members, i + 1, m, key);
    }
  }

  lemma {:induction false} HeldIffHas(members: seq<Member>, key: string)
    ensures Held(members, key).Some? <==> Has(members, key)
  {
    if Has(members, key) {
      var i :| 0 <= i < |members| && members[i].0 == Text(key);
      LookupReaches(members, 0, i, key);
    } else if Held(members, key).Some? {
      var j := LookupFinds(Dict(members), 0, key);
    }
  }

  /** Same keys, same values, in whatever order. */
  ghost predicate SameContent(a: seq<Member>, b: seq<Member>) {
    forall key :: Held(a, key) == Held(b, key)
  }

  lemma SameContentAppend(a: seq<Member>, b: seq<Member>, m: Member)
    requires SameContent(a, b)
    ensures SameContent(a + [m], b + [m])
  {
    forall key ensures Held(a + [m], key) == Held(b + [m], key) {
      assert Held(a, key) == Held(b, key);
      LookupAppend(a, 0, m, key);
      LookupAppend(b, 0, m, key);
    }
  }

  /** The fill loop sees only what a mapping holds, not in which order. */
  lemma {:induction false} FillSameContent(t: TextRules, schema: Value, i: nat, a: seq<Member>, b: seq<Member>)
    requires schema.Dict? && i <= |Properties(schema).members| && SameContent(a, b)
    ensures Fill(t, schema, i, a).Ok? == Fill(t, schema, i, b).Ok?
    ensures Fill(t, schema, i, a).Ok? ==> SameContent(Fill(t, schema, i, a).value, Fill(t, schema, i, b).value)
    ensures Fill(t, schema, i, a).Err? ==> Fill(t, schema, i, a) == Fill(t, schema, i, b)
    decreases |Properties(schema).members| - i
  {
    if i < |Properties(schema).members| {
      var (key, child) := Properties(schema).members[i];
      if key.Text? {
        HeldIffHas(a, key.text);
        HeldIffHas(b, key.text);
      }
      var filling := Filling(t, schema, i);
      if key.NotText? || Has(a, key.text) || filling.None? {
        FillSameContent(t, schema, i + 1, a, b);
      } else {
        SameContentAppend(a, b, (key, filling.value));
        FillSameContent(t, schema, i + 1, a + [(key, filling.value)], b + [(key, filling.value)]);
      }
    }
  }

  /** A property that may be null. */
  ghost predicate Nullable(schema: Value, p: nat)
    requires schema.Dict?
  {
    && p < |Properties(schema).members|
    && Properties(schema).members[p].0.Text?
    && Properties(schema).members[p].1.Dict? && AllowsNull(Properties(schema).members[p].1)
  }

  /** Both fillings fail, or both succeed with the same content. */
  ghost predicate FillAlike(t: TextRules, schema: Value, i: nat, a: seq<Member>, b: seq<Member>)
    requires schema.Dict? && i <= |Properties(schema).members|
  {
    && Fill(t, schema, i, a).Ok? == Fill(t, schema, i, b).Ok?
    && (Fill(t, schema, i, a).Ok? ==> SameContent(Fill(t, schema, i, a).value, Fill(t, schema, i, b).value))
  }

  /** Filling with an explicit null in place gives the same content as filling without it. */
  lemma {:induction false} FillWithNull(t: TextRules, schema: Value, i: nat, items: seq<Member>, p: nat)
    requires schema.Dict? && DistinctNames(schema) && Nullable(schema, p) && i <= p
    requires !Has(items, Properties(schema).members[p].0.text)
    ensures FillAlike(t, schema, i, items, items + [(Properties(schema).members[p].0, Null)])
    decreases p - i
  {
    var name := Properties(schema).members[p].0;
    var present := items + [(name, Null)];
    HasAppend(items, (name, Null), name.text);
    if i < p {
      var (key, child) := Properties(schema).members[i];
      var filling := Filling(t, schema, i);
      assert key != name;
      if key.Text? {
        HasOther(items, (name, Null), key.text);
      }
      if key.NotText? || Has(items, key.text) || filling.None? {
        FillWithNull(t, schema, i + 1, items, p);
      } else {
        var more := items + [(key, filling.value)];
        HasOther(items, (key, filling.value), name.text);
        FillWithNull(t, schema, i + 1, more, p);
        NullFirst(t, schema, i + 1, items, (key, filling.value), (name, Null));
      }
    }
  }

  lemma NullFirst(t: TextRules, schema: Value, i: nat, items: seq<Member>, m: Member, n: Member)
    requires schema.Dict? && i <= |Properties(schema).members| && m.0 != n.0
    requires FillAlike(t, schema, i, items + [m], items + [m] + [n])
    ensures FillAlike(t, schema, i, items + [m], items + [n] + [m])
  {
    SwapTail(items, m, n);
    FillSameContent(t, schema, i, items + [m] + [n], items + [n] + [m]);
    Joined(t, schema, i, items + [m], items + [m] + [n], items + [n] + [m]);
  }

  lemma SwapTail(items: seq<Member>, m: Member, n: Member)
    requires m.0 != n.0
    ensures SameContent(items + [m] + [n], items + [n] + [m])
  {
    forall key ensures Held(items + [m] + [n], key) == Held(items + [n] + [m], key) {
      LookupAppend(items, 0, m, key);
      LookupAppend(items + [m], 0, n, key);
      LookupAppend(items, 0, n, key);
      LookupAppend(items + [n], 0, m, key);
    }
  }

  lemma Joined(t: TextRules, schema: Value, i: nat, a: seq<Member>, b: seq<Member>, c: seq<Member>)
    requires schema.Dict? && i <= |Properties(schema).members|
    requires FillAlike(t, schema, i, a, b) && FillAlike(t, schema, i, b, c)
    ensures FillAlike(t, schema, i, a, c)
  {
    if Fill(t, schema, i, a).Ok? {
      var x, y, z := Fill(t, schema, i, a).value, Fill(t, schema, i, b).value, Fill(t, schema, i, c).value;
      forall key ensures Held(x, key) == Held(z, key) {
        assert Held(x, key) == Held(y, key) == Held(z, key);
      }
    }
  }

  /** Members with one more null between the first k and the rest. */
  ghost function WithNull(members: seq<Member>, k: nat, raw: string): seq<Member>
    requires k <= |members|
  {
    members[..k] + [(Text(raw), Null)] + members[k..]
  }

  /** No member is cleaned to this name, so no normalized one has it. */
  lemma {:induction false} NeverHas(t: TextRules, members: seq<Member>, schema: Value, i: nat, done: seq<Member>,
                                    name: string)
    requires schema.Dict? && i <= |members| && !Has(done, name) && !Given(t, members, name)
    requires NormalizeMembers(t, Dict(members), schema, i, done).Ok?
    ensures !Has(NormalizeMembers(t, Dict(members), schema, i, done).value, name)
    decreases |members| - i
  {
    if i < |members| {
      var key := t.Clean(members[i].0.text);
      var item := Normalize(t, members[i].1, Child(schema, key)).value;
      HasOther(done, (Text(key), item), name);
      NeverHas(t, members, schema, i + 1, done + [(Text(key), item)], name);
    }
  }

  /** Past the null, the loop does what it does without it, around the null it has written. */
  lemma {:induction false} NullWithin(t: TextRules, members: seq<Member>, schema: Value, k: nat, raw: string, i: nat,
                                      front: seq<Member>, back: seq<Member>)
    requires schema.Dict? && k <= i <= |members| && !Given(t, members, t.Clean(raw))
    ensures var items := NormalizeMembers(t, Dict(members), schema, i, front + back);
            var given := NormalizeMembers(t, Dict(WithNull(members, k, raw)), schema, i + 1,
                                          front + [(Text(t.Clean(raw)), Null)] + back);
      if items.Err? then given == items
      else |front| <= |items.value| && items.value[..|front|] == front &&
           given == Ok(front + [(Text(t.Clean(raw)), Null)] + items.value[|front|..])
    decreases |members| - i
  {
    var longer, n := WithNull(members, k, raw), (Text(t.Clean(raw)), Null);
    if i == |members| {
      assert (front + back)[|front|..] == back;
    } else {
      assert longer[i + 1] == members[i];
      if members[i].0.Text? {
        var key := t.Clean(members[i].0.text);
        var item := Normalize(t, members[i].1, Child(schema, key));
        HasAround(front, n, back, key);
        if !Has(front + back, key) && item.Ok? {
          var m := (Text(key), item.value);
          NullWithin(t, members, schema, k, raw, i + 1, front, back + [m]);
          assert front + (back + [m]) == front + back + [m];
          assert front + [n] + (back + [m]) == front + [n] + back + [m];
        }
      }
    }
  }

  lemma HasAround(front: seq<Member>, n: Member, back: seq<Member>, key: string)
    requires n.0 != Text(key)
    ensures Has(front + [n] + back, key) == Has(front + back, key)
  {
    var without, around := front + back, front + [n] + back;
    if i :| 0 <= i < |without| && without[i].0 == Text(key) {
      assert around[if i < |front| then i else i + 1].0 == Text(key);
    }
    if i :| 0 <= i < |around| && around[i].0 == Text(key) {
      assert i != |front|;
      assert without[if i < |front| then i else i - 1].0 == Text(key);
    }
  }

  /** Up to the null, both loops do the same. */
  lemma {:induction false} NullReached(t: TextRules, members: seq<Member>, schema: Value, k: nat, raw: string, i: nat,
                                       done: seq<Member>)
    requires schema.Dict? && i <= k <= |members| && !Given(t, members, t.Clean(raw)) && !Has(done, t.Clean(raw))
    ensures var items := NormalizeMembers(t, Dict(members), schema, i, done);
            var given := NormalizeMembers(t, Dict(WithNull(members, k, raw)), schema, i, done);
      if items.Err? then given == items
      else exists j :: 0 <= j <= |items.value| && given == Ok(WithNull(items.value, j, t.Clean(raw)))
    decreases k - i
  {
    var longer := WithNull(members, k, raw);
    if i == k {
      assert longer[i] == (Text(raw), Null);
      NullWithin(t, members, schema, k, raw, i, done, []);
      assert done + [] == done;
      assert done + [(Text(t.Clean(raw)), Null)] + [] == done + [(Text(t.Clean(raw)), Null)];
      assert NormalizeMembers(t, Dict(longer), schema, i, done)
             == NormalizeMembers(t, Dict(longer), schema, i + 1, done + [(Text(t.Clean(raw)), Null)]);
      var items := NormalizeMembers(t, Dict(members), schema, i, done);
      if items.Ok? {
        assert WithNull(items.value, |done|, t.Clean(raw))
               == done + [(Text(t.Clean(raw)), Null)] + items.value[|done|..];
      }
    } else {
      assert longer[i] == members[i];
      if members[i].0.Text? {
        var key := t.Clean(members[i].0.text);
        var item := Normalize(t, members[i].1, Child(schema, key));
        if !Has(done, key) && item.Ok? {
          HasOther(done, (Text(key), item.value), t.Clean(raw));
          NullReached(t, members, schema, k, raw, i + 1, done + [(Text(key), item.value)]);
        }
      }
    }
  }

  /** Where the null stands does not matter. */
  lemma {:induction false} NullMovesLast(front: seq<Member>, n: Member, back: seq<Member>)
    requires n.0.Text? && !Has(back, n.0.text)
    ensures SameContent(front + back + [n], front + [n] + back)
    decreases |back|
  {
    if back == [] {
      assert front + back + [n] == front + [n] + back;
    } else {
      var rest, m := back[..|back| - 1], back[|back| - 1];
      assert back == rest + [m];
      if Has(rest, n.0.text) { HasAppend(rest, m, n.0.text); }
      NullMovesLast(front, n, rest);
      SameContentAppend(front + rest + [n], front + [n] + rest, m);
      SwapTail(front + rest, m, n);
      assert front + rest + [m] == front + back && front + [n] + rest + [m] == front + [n] + back;
      assert SameContent(front + back + [n], front + rest + [n] + [m]);
    }
  }

  /** A nullable property may be left out or given as null, in any place and any spelling of its
      name: both normalize to the same content. */
  lemma {:induction false} AbsentIsNull(t: TextRules, members: seq<Member>, schema: Value, p: nat, k: nat, raw: string)
    requires schema.Dict? && DistinctNames(schema) && Nullable(schema, p) && k <= |members|
    requires t.Clean(raw) == Properties(schema).members[p].0.text && !Given(t, members, t.Clean(raw))
    ensures var absent := Normalize(t, Dict(members), schema);
            var given := Normalize(t, Dict(WithNull(members, k, raw)), schema);
      && absent.Ok? == given.Ok?
      && (absent.Ok? ==>
            absent.value.Dict? && given.value.Dict? && SameContent(absent.value.members, given.value.members))
  {
    NullReached(t, members, schema, k, raw, 0, []);
    if NormalizeMembers(t, Dict(members), schema, 0, []).Ok? {
      var items := NormalizeMembers(t, Dict(members), schema, 0, []).value;
      var n := (Text(t.Clean(raw)), Null);
      var j :| 0 <= j <= |items| &&
               NormalizeMembers(t, Dict(WithNull(members, k, raw)), schema, 0, []) == Ok(WithNull(items, j, n.0.text));
      NeverHas(t, members, schema, 0, [], n.0.text);
      NullPlaced(t, schema, items, p, j);
    }
  }

  lemma {:induction false} NullPlaced(t: TextRules, schema: Value, items: seq<Member>, p: nat, j: nat)
    requires schema.Dict? && DistinctNames(schema) && Nullable(schema, p) && j <= |items|
    requires !Has(items, Properties(schema).members[p].0.text)
    ensures FillAlike(t, schema, 0, items, WithNull(items, j, Properties(schema).members[p].0.text))
  {
    var n := (Properties(schema).members[p].0, Null);
    var front, back := items[..j], items[j..];
    assert items == front + back;
    forall i | 0 <= i < |back| ensures back[i].0 != n.0 {
      assert back[i] == items[j + i];
    }
    FillWithNull(t, schema, 0, items, p);
    NullMovesLast(front, n, back);
    FillSameContent(t, schema, 0, items + [n], front + [n] + back);
    Joined(t, schema, 0, items, items + [n], front + [n] + back);
  }

  // ---------- the procedure ----------

  /** `normalize_json`, loop by loop. */
  method NormalizeJson(t: TextRules, value: Value, schema: Value) returns (result: Result<Value, JsonError>)
    requires schema.Dict?
    ensures result == Normalize(t, value, schema)
    decreases Weight(schema), schema, 1, value, 2
  {
    match value
    case Dict(members) =>
      var items := NormalizeJsonMembers(t, value, schema);
      if items.Err? {
        return Err(items.error);
      }
      var filled := FillDefaults(t, schema, items.value);
      if filled.Err? {
        return Err(filled.error);
      }
      result := Ok(Dict(filled.value));
    case Arr(items) =>
      var itemSchema := SubMapping(schema, "items");
      var normal: seq<Value> := [];
      for i := 0 to |items|
        invariant NormalizeItems(t, value, itemSchema, schema, i) == Ok(normal)
      {
        var item := NormalizeJson(t, items[i], itemSchema);
        if item.Err? {
          ItemsFail(t, value, itemSchema, schema, i, |items|);
          return Err(item.error);
        }
        normal := normal + [item.value];
      }
      result := Ok(Arr(normal));
    case _ =>
      result := NormalizeScalar(t, value, schema);
  }

  lemma {:induction false} ItemsFail(t: TextRules, value: Value, itemSchema: Value, schema: Value, i: nat, n: nat)
    requires schema.Dict? && value.Arr? && i < n <= |value.items| && itemSchema == SubMapping(schema, "items")
    requires NormalizeItems(t, value, itemSchema, schema, i).Ok? && Normalize(t, value.items[i], itemSchema).Err?
    ensures NormalizeItems(t, value, itemSchema, schema, n) == Err(Normalize(t, value.items[i], itemSchema).error)
    decreases n
  {
    if i < n - 1 {
      ItemsFail(t, value, itemSchema, schema, i, n - 1);
    }
  }

  method NormalizeJsonMembers(t: TextRules, value: Value,
                              schema: Value) returns (result: Result<seq<Member>, JsonError>)
    requires schema.Dict? && value.Dict?
    ensures result == NormalizeMembers(t, value, schema, 0, [])
    decreases Weight(schema), schema, 1, value, 1
  {
    var done: seq<Member> := [];
    for i := 0 to |value.members|
      invariant NormalizeMembers(t, value, schema, 0, []) == NormalizeMembers(t, value, schema, i, done)
    {
      var (rawKey, item) := value.members[i];
      if rawKey.NotText? {
        return Err(KeyNotText);
      }
      var key := t.Clean(rawKey.text);
      if Has(done, key) {
        return Err(DuplicateKey(key));
      }
      var normal := NormalizeJson(t, item, Child(schema, key));
      if normal.Err? {
        return Err(normal.error);
      }
      done := done + [(Text(key), normal.value)];
    }
    result := Ok(done);
  }

  method FillDefaults(t: TextRules, schema: Value, items: seq<Member>) returns (result: Result<seq<Member>, JsonError>)
    requires schema.Dict?
    ensures result == Fill(t, schema, 0, items)
    decreases Weight(schema), schema, 0
  {
    var properties, filled := Properties(schema).members, items;
    for i := 0 to |properties|
      invariant Fill(t, schema, 0, items) == Fill(t, schema, i, filled)
    {
      var (key, child) := properties[i];
      if key.Text? && !Has(filled, key.text) && child.Dict? {
        if AllowsNull(child) {
          filled := filled + [(key, Null)];
        } else if Default(child).Some? {
          var item := NormalizeJson(t, Default(child).value, child);
          if item.Err? {
            return Err(item.error);
          }
          filled := filled + [(key, item.value)];
        }
      }
    }
    result := Ok(filled);
  }
}
