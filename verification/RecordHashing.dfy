/**
 Building records and hashing dataset versions. Hashing is an arbitrary
 function; where a result needs that different inputs give different hashes,
 it asks this of the strings at hand only.
 */
module RecordHashing {
  import opened Canonicalization
  import opened Datasets
  import opened Framing
  import opened NormalMeaning
  import opened Ordering
  import opened Renormalization
  import opened Results

  type Record = DatasetRecord<Value>

  datatype RecordError =
    | Malformed(why: JsonError)
    | SchemaMismatch
    | EmptyKey
    | EmptySplit
    | PartTooLong

  /** Encodings, string helpers, JSON serialization, schema validation and the hash. */
  datatype Codec = Codec(
    rules: TextRules,
    strip: string -> string,
    lower: string -> string,
    utf8: string -> Bytes,
    serialize: Value -> Bytes,
    conforms: (Value, Value) -> bool,
    sha256: Bytes -> Bytes,
    hex: Bytes -> string,
    unhex: string -> Bytes)
  {
    ghost predicate Lawful() {
      && rules.Lawful()
      && (forall b :: unhex(hex(b)) == b)
      && (forall x, y :: utf8(x) == utf8(y) ==> x == y)
    }

    function Digest(b: Bytes): string { hex(sha256(b)) }
  }

  /** `canonical_bytes` */
  function CanonicalBytes(c: Codec, value: Value, schema: Option<Value>): Result<Bytes, RecordError>
    requires schema.Some? ==> schema.value.Dict?
  {
    match Normalize(c.rules, value, if schema.Some? then schema.value else EMPTY)
    case Err(e) => Err(Malformed(e))
    case Ok(normal) =>
      if schema.Some? && !c.conforms(normal, schema.value) then Err(SchemaMismatch)
      else Ok(c.serialize(normal))
  }

  /** `content_hash` */
  function ContentHash(c: Codec, value: Value, schema: Option<Value>): Result<string, RecordError>
    requires schema.Some? ==> schema.value.Dict?
  {
    match CanonicalBytes(c, value, schema)
    case Err(e) => Err(e)
    case Ok(b) => Ok(c.Digest(b))
  }

  /** `sorted({clean split names})` */
  ghost function SplitNames(c: Codec, splits: seq<string>): seq<string> {
    Listing(set s | s in splits :: c.lower(c.strip(c.rules.Clean(s))))
  }

  function OptionalText(s: Option<string>): Value { if s.Some? then Str(s.value) else Null }

  function SourceValue(source: SourceProvenance): Value {
    Dict([
      (Text("kind"), Str(source.kind)),
      (Text("uri"), OptionalText(source.uri)),
      (Text("row"), if source.row.Some? then Int(source.row.value) else Null),
      (Text("source_hash"), OptionalText(source.sourceHash))])
  }

  function AsText(): string -> Value { (s: string) => Str(s) }

  /** The five framed parts of a record's envelope. */
  function EnvelopeParts(c: Codec, key: string, payloadHash: string, metadata: Value, splits: seq<string>,
                         source: SourceProvenance)
    : Result<seq<Bytes>, RecordError>
  {
    match CanonicalBytes(c, metadata, None)
    case Err(e) => Err(e)
    case Ok(metadataBytes) =>
      match CanonicalBytes(c, Arr(Map(AsText(), splits)), None)
      case Err(e) => Err(e)
      case Ok(splitBytes) =>
        match CanonicalBytes(c, SourceValue(source), None)
        case Err(e) => Err(e)
        case Ok(sourceBytes) => Ok([c.utf8(key), c.utf8(payloadHash), metadataBytes, splitBytes, sourceBytes])
  }

  /** `build_record`; absent metadata is the empty mapping. */
  ghost function BuildRecord(c: Codec, key: string, payload: Value, metadata: Value, splits: seq<string>,
                             source: SourceProvenance, schema: Value)
    : Result<Record, RecordError>
    requires schema.Dict?
  {
    var cleanKey := c.strip(c.rules.Clean(key));
    if cleanKey == "" then Err(EmptyKey)
    else
      match Normalize(c.rules, payload, schema)
      case Err(e) => Err(Malformed(e))
      case Ok(normalPayload) => BuildNormal(c, cleanKey, normalPayload, metadata, splits, source, schema)
  }

  /** The rest of `build_record`, once key and payload are clean. */
  ghost function BuildNormal(c: Codec, cleanKey: string, normalPayload: Value, metadata: Value, splits: seq<string>,
                             source: SourceProvenance, schema: Value)
    : Result<Record, RecordError>
    requires schema.Dict?
  {
    match CanonicalBytes(c, normalPayload, Some(schema))
    case Err(e) => Err(e)
    case Ok(payloadBytes) =>
      match Normalize(c.rules, metadata, EMPTY)
      case Err(e) => Err(Malformed(e))
      case Ok(normalMetadata) =>
        var names := SplitNames(c, splits);
        if "" in names then Err(EmptySplit)
        else
          match EnvelopeParts(c, cleanKey, c.Digest(payloadBytes), normalMetadata, names, source)
          case Err(e) => Err(e)
          case Ok(parts) =>
            if !Sized(parts) then Err(PartTooLong)
            else
              Ok(DatasetRecord(cleanKey, normalPayload, normalMetadata, names, source,
                               c.Digest(payloadBytes), c.Digest(Framed(parts))))
  }

  /** What is stored is the normalized payload; what is hashed is that payload normalized again. */
  lemma {:induction false} StoredAndHashed(c: Codec, key: string, payload: Value, metadata: Value, splits: seq<string>,
                                           source: SourceProvenance, schema: Value)
    requires schema.Dict? && BuildRecord(c, key, payload, metadata, splits, source, schema).Ok?
    ensures var r := BuildRecord(c, key, payload, metadata, splits, source, schema).value;
      && Normalize(c.rules, payload, schema) == Ok(r.payload)
      && Normalize(c.rules, metadata, EMPTY) == Ok(r.metadata)
      && Normalize(c.rules, r.payload, schema).Ok?
      && r.payloadHash == c.Digest(c.serialize(Normalize(c.rules, r.payload, schema).value))
      && ContentHash(c, r.payload, Some(schema)) == Ok(r.payloadHash)
  {
  }

  /** What a built record stores: the cleaned key, documents that mean what was given, the cleaned split
      names in order and without repetition, and the provenance as it is. */
  lemma {:induction false} BuildRecordStores(c: Codec, key: string, payload: Value, metadata: Value,
                                             splits: seq<string>, source: SourceProvenance, schema: Value)
    requires schema.Dict? && DistinctNames(schema)
    requires BuildRecord(c, key, payload, metadata, splits, source, schema).Ok?
    ensures var r := BuildRecord(c, key, payload, metadata, splits, source, schema).value;
      && r.key == c.strip(CleanText(c.rules, key)) && r.key != "" && r.source == source
      && Means(c.rules, schema, payload, r.payload) && Means(c.rules, EMPTY, metadata, r.metadata)
      && Distinct(r.splits) && SortedBy(StringLeq, r.splits) && "" !in r.splits
      && forall name :: name in r.splits <==>
           exists i :: 0 <= i < |splits| && name == c.lower(c.strip(CleanText(c.rules, splits[i])))
  {
    var r := BuildRecord(c, key, payload, metadata, splits, source, schema).value;
    CleanIsCleanText(c.rules);
    NormalizationKeepsMeaning(c.rules, payload, schema);
    assert DistinctNames(EMPTY);
    NormalizationKeepsMeaning(c.rules, metadata, EMPTY);
    SplitNamesListed(c, splits);
  }

  lemma SplitNamesListed(c: Codec, splits: seq<string>)
    ensures var names := SplitNames(c, splits);
      && Distinct(names) && SortedBy(StringLeq, names)
      && forall name :: name in names <==>
           exists i :: 0 <= i < |splits| && name == c.lower(c.strip(CleanText(c.rules, splits[i])))
  {
    CleanIsCleanText(c.rules);
    var keys := set s | s in splits :: c.lower(c.strip(c.rules.Clean(s)));
    ListingLists(keys);
    forall name
      ensures name in keys <==> exists i :: 0 <= i < |splits| && name == c.lower(c.strip(CleanText(c.rules, splits[i])))
    {
      if i :| 0 <= i < |splits| && name == c.lower(c.strip(CleanText(c.rules, splits[i]))) {
        assert splits[i] in splits && name == c.lower(c.strip(c.rules.Clean(splits[i])));
      }
      if name in keys {
        var s :| s in splits && name == c.lower(c.strip(c.rules.Clean(s)));
        var i :| 0 <= i < |splits| && splits[i] == s;
      }
    }
  }

  ghost predicate Faultless(c: Codec, schema: Value, value: Value)
    requires schema.Dict?
  {
    forall e :: !HasFault(c.rules, schema, value, e)
  }

  /** Refused as malformed, for a fault that the value has. */
  ghost predicate RefusedFor(c: Codec, schema: Value, value: Value, built: Result<Record, RecordError>)
    requires schema.Dict?
  {
    built.Err? && built.error.Malformed? && HasFault(c.rules, schema, value, built.error.why)
  }

  /** A record is refused for the first of these that applies: an empty key; a payload that cannot be
      normalized, twice; one that does not conform to the schema then; metadata that cannot be
      normalized; an empty split name. Malformed errors name a fault that is there. */
  lemma {:induction false} BuildRecordFailsExactly(c: Codec, key: string, payload: Value, metadata: Value,
                                                   splits: seq<string>, source: SourceProvenance, schema: Value)
    requires schema.Dict? && DistinctNames(schema)
    ensures var built := BuildRecord(c, key, payload, metadata, splits, source, schema);
            var once := Normalize(c.rules, payload, schema);
      if c.strip(CleanText(c.rules, key)) == "" then built == Err(EmptyKey)
      else if !Faultless(c, schema, payload) then RefusedFor(c, schema, payload, built)
      else once.Ok? && NormalFailsExactly(c, once.value, metadata, splits, schema, built)
  {
    CleanIsCleanText(c.rules);
    FaultsExactly(c, payload, schema);
    if Normalize(c.rules, payload, schema).Ok? {
      BuildNormalFails(c, c.strip(c.rules.Clean(key)), Normalize(c.rules, payload, schema).value, metadata, splits,
                       source, schema);
    }
  }

  ghost predicate NormalFailsExactly(c: Codec, payload: Value, metadata: Value, splits: seq<string>, schema: Value,
                                     built: Result<Record, RecordError>)
    requires schema.Dict?
  {
    var again := Normalize(c.rules, payload, schema);
    if !Faultless(c, schema, payload) then RefusedFor(c, schema, payload, built)
    else
      && again.Ok?
      && if !c.conforms(again.value, schema) then built == Err(SchemaMismatch)
         else if !Faultless(c, EMPTY, metadata) then RefusedFor(c, EMPTY, metadata, built)
         else if exists i :: 0 <= i < |splits| && c.lower(c.strip(CleanText(c.rules, splits[i]))) == "" then
           built == Err(EmptySplit)
         else built.Err? ==> built.error.Malformed? || built.error == PartTooLong
  }

  lemma {:induction false} BuildNormalFails(c: Codec, key: string, payload: Value, metadata: Value, splits: seq<string>,
                                            source: SourceProvenance, schema: Value)
    requires schema.Dict? && DistinctNames(schema)
    ensures NormalFailsExactly(c, payload, metadata, splits, schema,
                               BuildNormal(c, key, payload, metadata, splits, source, schema))
  {
    assert DistinctNames(EMPTY);
    FaultsExactly(c, metadata, EMPTY);
    CanonicalExactly(c, payload, schema);
    SplitNamesListed(c, splits);
    var bytes, normal := CanonicalBytes(c, payload, Some(schema)), Normalize(c.rules, metadata, EMPTY);
    if bytes.Ok? && normal.Ok? {
      PartsMalformed(c, key, c.Digest(bytes.value), normal.value, SplitNames(c, splits), source);
    }
  }

  lemma {:induction false} FaultsExactly(c: Codec, value: Value, schema: Value)
    requires schema.Dict? && DistinctNames(schema)
    ensures var normal := Normalize(c.rules, value, schema);
      && (normal.Ok? <==> Faultless(c, schema, value))
      && (normal.Err? ==> HasFault(c.rules, schema, value, normal.error))
  {
    if Normalize(c.rules, value, schema).Ok? {
      forall e ensures !HasFault(c.rules, schema, value, e) {
        SuccessHasNoFault(c.rules, value, schema, e);
      }
    } else {
      FailureHasFault(c.rules, value, schema);
    }
  }

  lemma {:induction false} CanonicalExactly(c: Codec, value: Value, schema: Value)
    requires schema.Dict? && DistinctNames(schema)
    ensures var bytes := CanonicalBytes(c, value, Some(schema));
      if !Faultless(c, schema, value) then
        bytes.Err? && bytes.error.Malformed? && HasFault(c.rules, schema, value, bytes.error.why)
      else
        && Normalize(c.rules, value, schema).Ok?
        && bytes == if c.conforms(Normalize(c.rules, value, schema).value, schema) then
                      Ok(c.serialize(Normalize(c.rules, value, schema).value))
                    else Err(SchemaMismatch)
  {
    FaultsExactly(c, value, schema);
  }

  lemma PartsMalformed(c: Codec, key: string, payloadHash: string, metadata: Value, splits: seq<string>,
                       source: SourceProvenance)
    ensures var parts := EnvelopeParts(c, key, payloadHash, metadata, splits, source);
      parts.Err? ==> parts.error.Malformed?
  {
  }

  /** The document of the provenance, member by member. */
  lemma SourceValueSays(source: SourceProvenance)
    ensures var v := SourceValue(source);
      && Get(v, "kind") == Some(Str(source.kind))
      && Get(v, "uri") == Some(if source.uri.Some? then Str(source.uri.value) else Null)
      && Get(v, "row") == Some(if source.row.Some? then Int(source.row.value) else Null)
      && Get(v, "source_hash") == Some(if source.sourceHash.Some? then Str(source.sourceHash.value) else Null)
  {
    var v := SourceValue(source);
    assert "kind"[0] != "uri"[0] && "kind"[0] != "row"[0] && "kind"[0] != "source_hash"[0];
    assert "uri"[0] != "row"[0] && "uri"[0] != "source_hash"[0] && "row"[0] != "source_hash"[0];
    LookupAt(v, 0, 0);
    LookupAt(v, 0, 1);
    LookupAt(v, 0, 2);
    LookupAt(v, 0, 3);
  }

  /** Provenance can be read back from the document that is hashed. */
  lemma SourceValueInjective(a: SourceProvenance, b: SourceProvenance)
    requires SourceValue(a) == SourceValue(b)
    ensures a == b
  {
    var x, y := SourceValue(a).members, SourceValue(b).members;
    assert x[0] == y[0] && x[1] == y[1] && x[2] == y[2] && x[3] == y[3];
  }

  /** Under a stable schema a built record stores normal documents, and its payload hash is the hash
      of the payload it stores: hashing the stored payload again gives the recorded hash. */
  lemma {:induction false} BuildRecordHashesWhatItStores(c: Codec, key: string, payload: Value, metadata: Value,
                                                         splits: seq<string>, source: SourceProvenance, schema: Value)
    requires c.rules.Lawful() && schema.Dict? && DistinctNames(schema) && StableSchema(c.rules, schema)
    requires BuildRecord(c, key, payload, metadata, splits, source, schema).Ok?
    ensures var r := BuildRecord(c, key, payload, metadata, splits, source, schema).value;
      && Normalize(c.rules, r.payload, schema) == Ok(r.payload)
      && Normalize(c.rules, r.metadata, EMPTY) == Ok(r.metadata)
      && r.payloadHash == c.Digest(c.serialize(r.payload))
      && ContentHash(c, r.payload, Some(schema)) == Ok(r.payloadHash)
  {
    StoredAndHashed(c, key, payload, metadata, splits, source, schema);
    NormalizeIsIdempotent(c.rules, payload, schema);
    EmptyIsStable(c.rules);
    NormalizeIsIdempotent(c.rules, metadata, EMPTY);
  }

  /** Serialization writes the keys of every mapping. */
  ghost predicate TellsKeysApart(c: Codec) {
    forall a, b | c.serialize(a) == c.serialize(b) :: SameKeys(a, b)
  }

  /** The payload as stored and the payload as hashed do not share a hash unless they serialize alike. */
  ghost predicate PayloadsDoNotCollide(c: Codec, r: Record, schema: Value)
    requires schema.Dict?
  {
    match Normalize(c.rules, r.payload, schema)
    case Err(_) => true
    case Ok(hashed) => CollisionFree(c, {c.serialize(r.payload), c.serialize(hashed)})
  }

  /** A built record's payload hash is the hash of the payload it stores if and only if building it
      wrote no property name that is not clean. */
  lemma {:induction false} HashesWhatItStoresExactly(c: Codec, key: string, payload: Value, metadata: Value,
                                                     splits: seq<string>, source: SourceProvenance, schema: Value)
    requires c.Lawful() && TellsKeysApart(c) && schema.Dict? && DistinctNames(schema)
    requires BuildRecord(c, key, payload, metadata, splits, source, schema).Ok?
    requires PayloadsDoNotCollide(c, BuildRecord(c, key, payload, metadata, splits, source, schema).value, schema)
    ensures var r := BuildRecord(c, key, payload, metadata, splits, source, schema).value;
      r.payloadHash == c.Digest(c.serialize(r.payload)) <==> !WritesRawName(c.rules, schema, payload)
  {
    var r := BuildRecord(c, key, payload, metadata, splits, source, schema).value;
    StoredAndHashed(c, key, payload, metadata, splits, source, schema);
    var hashed := Normalize(c.rules, r.payload, schema).value;
    if WritesRawName(c.rules, schema, payload) {
      RawNeverSettles(c.rules, payload, schema);
      assert c.serialize(r.payload) != c.serialize(hashed);
      assert c.unhex(c.Digest(c.serialize(r.payload))) != c.unhex(c.Digest(c.serialize(hashed)));
    } else {
      FinalExactlyWithoutRawNames(c.rules, payload, schema);
      FixedExactlyWhenNormal(c.rules, r.payload, schema);
    }
  }

  /** With a fillable property whose name is not clean, whatever the schema and the payload, the
      recorded hash is that of another mapping: it holds keys that the stored one does not, and it
      can itself not be normalized. */
  lemma {:induction false} UncleanNameHashesAnotherPayload(c: Codec, key: string, members: seq<Member>,
                                                           metadata: Value, splits: seq<string>,
                                                           source: SourceProvenance, schema: Value, p: nat)
    requires c.rules.Lawful() && schema.Dict? && DistinctNames(schema)
    requires Fillable(schema, p) && !CleanName(c.rules, schema, p)
    requires BuildRecord(c, key, Dict(members), metadata, splits, source, schema).Ok?
    ensures var r := BuildRecord(c, key, Dict(members), metadata, splits, source, schema).value;
      exists hashed: Value ::
        && r.payloadHash == c.Digest(c.serialize(hashed))
        && !SameKeys(r.payload, hashed) && Normalize(c.rules, hashed, schema).Err?
  {
    var r := BuildRecord(c, key, Dict(members), metadata, splits, source, schema).value;
    StoredAndHashed(c, key, Dict(members), metadata, splits, source, schema);
    assert RawAt(c.rules, schema, members, p);
    RawNeverSettles(c.rules, Dict(members), schema);
    var hashed := Normalize(c.rules, r.payload, schema).value;
    assert !SameKeys(r.payload, hashed);
  }

  /** The smallest such case: one nullable property, and an empty payload. */
  lemma OneNullableHashesAnotherPayload(c: Codec, key: string, name: string, metadata: Value, splits: seq<string>,
                                        source: SourceProvenance)
    requires c.rules.Lawful() && c.rules.Clean(name) != name
    ensures var built := BuildRecord(c, key, Dict([]), metadata, splits, source, OneNullable(name));
      built.Ok? ==>
        && built.value.payload == Dict([(Text(name), Null)])
        && built.value.payloadHash
           == c.Digest(c.serialize(Dict([(Text(c.rules.Clean(name)), Null), (Text(name), Null)])))
  {
    if BuildRecord(c, key, Dict([]), metadata, splits, source, OneNullable(name)).Ok? {
      StoredAndHashed(c, key, Dict([]), metadata, splits, source, OneNullable(name));
    }
    OneNullableNeverSettles(c.rules, name);
  }

  /** Serialization sorts keys, and validation does not depend on their order. */
  ghost predicate OrderBlind(c: Codec) {
    forall a, b | SameContent(a, b) ::
      c.serialize(Dict(a)) == c.serialize(Dict(b)) && forall s :: c.conforms(Dict(a), s) == c.conforms(Dict(b), s)
  }

  /** Leaving a nullable property out and giving it as null, in any place and any spelling of its
      name, yield the same content hash, or both yield none. */
  lemma {:induction false} AbsentAndNullHashAlike(c: Codec, members: seq<Member>, schema: Value, p: nat, k: nat,
                                                  raw: string)
    requires OrderBlind(c) && schema.Dict? && DistinctNames(schema) && Nullable(schema, p) && k <= |members|
    requires c.rules.Clean(raw) == Properties(schema).members[p].0.text && !Given(c.rules, members, c.rules.Clean(raw))
    ensures var absent := ContentHash(c, Dict(members), Some(schema));
            var given := ContentHash(c, Dict(WithNull(members, k, raw)), Some(schema));
      absent == given || (absent.Err? && given.Err?)
  {
    AbsentIsNull(c.rules, members, schema, p, k, raw);
  }

  // ---------- version hashes ----------

  predicate ByteLeq(a: byte, b: byte) { a <= b }

  predicate BytesLeq(a: Bytes, b: Bytes) { LexLeq(ByteLeq, a, b) }

  /** `key=lambda record: record.key.encode()` */
  function KeyOrder(c: Codec): (Record, Record) -> bool {
    (a: Record, b: Record) => BytesLeq(c.utf8(a.key), c.utf8(b.key))
  }

  function RawHash(c: Codec): Record -> Bytes { (r: Record) => c.unhex(r.envelopeHash) }

  const CANONICALIZATION_VERSION := "dataset-c14n/1"

  /** The framed parts of a version manifest. */
  function ManifestParts(c: Codec, schemaBytes: Bytes, metadataBytes: Bytes, records: seq<Record>): seq<Bytes> {
    [c.utf8(CANONICALIZATION_VERSION), c.sha256(schemaBytes), c.sha256(metadataBytes)]
      + Map(RawHash(c), Sort(KeyOrder(c), records))
  }

  /** The bytes hashed for a version: a domain separator, then the framed manifest. */
  function Manifest(c: Codec, schemaBytes: Bytes, metadataBytes: Bytes, records: seq<Record>): Bytes
    requires Sized(ManifestParts(c, schemaBytes, metadataBytes, records))
  {
    c.utf8("llm-eval-dataset\0") + Framed(ManifestParts(c, schemaBytes, metadataBytes, records))
  }

  /** `version_hash` */
  function VersionHash(c: Codec, schema: Value, metadata: Value, records: seq<Record>): Result<string, RecordError> {
    match CanonicalBytes(c, schema, None)
    case Err(e) => Err(e)
    case Ok(schemaBytes) =>
      match CanonicalBytes(c, metadata, None)
      case Err(e) => Err(e)
      case Ok(metadataBytes) =>
        if !Sized(ManifestParts(c, schemaBytes, metadataBytes, records)) then Err(PartTooLong)
        else Ok(c.Digest(Manifest(c, schemaBytes, metadataBytes, records)))
  }

  ghost predicate DistinctKeys(records: seq<Record>) {
    forall i, j | 0 <= i < j < |records| :: records[i].key != records[j].key
  }

  lemma ByteOrder()
    ensures TotalOrder(ByteLeq)
  {
  }

  lemma KeyOrderTotal(c: Codec, records: seq<Record>)
    ensures TotalOn(KeyOrder(c), records)
    ensures c.Lawful() && DistinctKeys(records) ==> AntisymmetricOn(KeyOrder(c), records)
  {
    ByteOrder();
    var leq := KeyOrder(c);
    forall x: Record, y: Record
      ensures leq(x, y) || leq(y, x)
      ensures leq(x, y) && leq(y, x) ==> c.utf8(x.key) == c.utf8(y.key)
    {
      LexTotal(ByteLeq, c.utf8(x.key), c.utf8(y.key));
    }
    forall x: Record, y: Record, z: Record | leq(x, y) && leq(y, z) ensures leq(x, z) {
      LexTransitive(ByteLeq, c.utf8(x.key), c.utf8(y.key), c.utf8(z.key));
    }
  }

  /** Earlier bytes first: a prefix, or the smaller byte at the first difference. */
  ghost predicate BytesBefore(a: Bytes, b: Bytes) {
    a <= b || exists k: nat :: DifferFirstAt(a, b, k) && a[k] < b[k]
  }

  /** A manifest lists the format's name, the hashes of schema and metadata, and then the raw envelope
      hashes of the records in the byte order of their keys. */
  lemma ManifestInKeyOrder(c: Codec, schemaBytes: Bytes, metadataBytes: Bytes, records: seq<Record>)
    returns (sorted: seq<Record>)
    ensures multiset(sorted) == multiset(records)
    ensures forall i, j | 0 <= i < j < |sorted| :: BytesBefore(c.utf8(sorted[i].key), c.utf8(sorted[j].key))
    ensures var parts := ManifestParts(c, schemaBytes, metadataBytes, records);
      && |parts| == 3 + |sorted|
      && parts[0] == c.utf8("dataset-c14n/1")
      && parts[1] == c.sha256(schemaBytes) && parts[2] == c.sha256(metadataBytes)
      && (forall i | 0 <= i < |sorted| :: parts[3 + i] == c.unhex(sorted[i].envelopeHash))
      && (Sized(parts) ==>
            Manifest(c, schemaBytes, metadataBytes, records) == c.utf8("llm-eval-dataset\0") + Framed(parts))
  {
    sorted := Sort(KeyOrder(c), records);
    KeyOrderTotal(c, records);
    SortSorts(KeyOrder(c), records);
    ByteOrder();
    forall i, j | 0 <= i < j < |sorted| ensures BytesBefore(c.utf8(sorted[i].key), c.utf8(sorted[j].key)) {
      var a, b := c.utf8(sorted[i].key), c.utf8(sorted[j].key);
      assert KeyOrder(c)(sorted[i], sorted[j]);
      LexLeqExactly(ByteLeq, a, b);
      if k: nat :| DifferFirstAt(a, b, k) && ByteLeq(a[k], b[k]) {
        assert a[k] < b[k];
      }
    }
  }

  /** The version hash does not depend on the order the records are passed in. */
  lemma VersionHashOrderIndependent(c: Codec, schema: Value, metadata: Value, a: seq<Record>, b: seq<Record>)
    requires c.Lawful() && DistinctKeys(a) && multiset(a) == multiset(b)
    ensures VersionHash(c, schema, metadata, a) == VersionHash(c, schema, metadata, b)
  {
    KeyOrderTotal(c, a);
    SortOrderIndependent(KeyOrder(c), a, b);
  }

  // ---------- what a version hash identifies ----------

  /** No two different strings of `hashed` share a hash. */
  ghost predicate CollisionFree(c: Codec, hashed: set<Bytes>) {
    forall x, y | x in hashed && y in hashed && c.sha256(x) == c.sha256(y) :: x == y
  }

  /** The record's envelope hash is the hash of this envelope, whose first frame is the key. */
  ghost predicate Sealed(c: Codec, envelope: Record -> Bytes, r: Record) {
    && r.envelopeHash == c.Digest(envelope(r))
    && exists rest: seq<Bytes> :: Sized([c.utf8(r.key)] + rest) && envelope(r) == Framed([c.utf8(r.key)] + rest)
  }

  /** The first frame of a framed string. */
  function FirstPart(framed: Bytes): Bytes {
    if |framed| < 8 then []
    else
      var n := FromBigEndian(framed[..8]);
      if |framed| < 8 + n then [] else framed[8..8 + n]
  }

  lemma {:induction false} FirstPartOfFramed(part: Bytes, rest: seq<Bytes>)
    requires Sized([part] + rest)
    ensures FirstPart(Framed([part] + rest)) == part
  {
    assert part in [part] + rest;
    var framed := Framed([part] + rest);
    assert ([part] + rest)[1..] == rest;
    assert framed == Piece(part) + Framed(rest);
    assert framed[..8] == Length(|part|);
    BigEndianRoundTrip(|part|, 8);
    assert framed[8..8 + |part|] == part;
  }

  /** Envelopes in the order of the keys they start with. */
  function EnvelopeOrder(): (Bytes, Bytes) -> bool {
    (a: Bytes, b: Bytes) => BytesLeq(FirstPart(a), FirstPart(b))
  }

  lemma EnvelopeOrderIsKeyOrder(c: Codec, envelope: Record -> Bytes, r: Record)
    requires Sealed(c, envelope, r)
    ensures FirstPart(envelope(r)) == c.utf8(r.key)
  {
    var rest :| Sized([c.utf8(r.key)] + rest) && envelope(r) == Framed([c.utf8(r.key)] + rest);
    FirstPartOfFramed(c.utf8(r.key), rest);
  }

  /** The envelopes of sealed records, in key order. */
  function Envelopes(c: Codec, envelope: Record -> Bytes, records: seq<Record>): seq<Bytes> {
    Map(envelope, Sort(KeyOrder(c), records))
  }

  lemma EnvelopesSorted(c: Codec, envelope: Record -> Bytes, records: seq<Record>)
    requires c.Lawful() && DistinctKeys(records) && forall r | r in records :: Sealed(c, envelope, r)
    ensures SortedBy(EnvelopeOrder(), Envelopes(c, envelope, records))
    ensures AntisymmetricOn(EnvelopeOrder(), Envelopes(c, envelope, records))
    ensures multiset(Envelopes(c, envelope, records)) == multiset(Map(envelope, records))
  {
    var sorted := Sort(KeyOrder(c), records);
    KeyOrderTotal(c, records);
    SortSorts(KeyOrder(c), records);
    MapPermutes(envelope, sorted, records);
    forall i | 0 <= i < |sorted|
      ensures FirstPart(envelope(sorted[i])) == c.utf8(sorted[i].key) && sorted[i] in records
    {
      assert sorted[i] in sorted;
      EnvelopeOrderIsKeyOrder(c, envelope, sorted[i]);
    }
    TiesAreEqual(c, envelope, records, sorted);
  }

  lemma TiesAreEqual(c: Codec, envelope: Record -> Bytes, records: seq<Record>, sorted: seq<Record>)
    requires c.Lawful() && DistinctKeys(records)
    requires forall i | 0 <= i < |sorted| ::
               FirstPart(envelope(sorted[i])) == c.utf8(sorted[i].key) && sorted[i] in records
    ensures AntisymmetricOn(EnvelopeOrder(), Map(envelope, sorted))
  {
    var envelopes := Map(envelope, sorted);
    ByteOrder();
    forall x, y | x in envelopes && y in envelopes && EnvelopeOrder()(x, y) && EnvelopeOrder()(y, x) ensures x == y {
      var i :| 0 <= i < |envelopes| && envelopes[i] == x;
      var j :| 0 <= j < |envelopes| && envelopes[j] == y;
      LexTotal(ByteLeq, FirstPart(x), FirstPart(y));
      SameKeySameRecord(records, sorted[i], sorted[j]);
    }
  }

  lemma SameKeySameRecord(records: seq<Record>, x: Record, y: Record)
    requires DistinctKeys(records) && x in records && y in records && x.key == y.key
    ensures x == y
  {
  }

  /** The hash list in the manifest is the list of envelope hashes. */
  lemma {:induction false} RawHashesAreEnvelopeHashes(c: Codec, envelope: Record -> Bytes, records: seq<Record>)
    requires c.Lawful() && forall r | r in records :: Sealed(c, envelope, r)
    ensures Map(RawHash(c), Sort(KeyOrder(c), records)) == Map(c.sha256, Envelopes(c, envelope, records))
  {
    var sorted := Sort(KeyOrder(c), records);
    SortPermutes(KeyOrder(c), records);
    forall i | 0 <= i < |sorted| ensures RawHash(c)(sorted[i]) == c.sha256(envelope(sorted[i])) {
      assert sorted[i] in sorted;
      assert Sealed(c, envelope, sorted[i]);
    }
  }

  lemma HashesIdentify(c: Codec, a: seq<Bytes>, b: seq<Bytes>, hashed: set<Bytes>)
    requires CollisionFree(c, hashed)
    requires (forall x | x in a :: x in hashed) && (forall x | x in b :: x in hashed)
    requires Map(c.sha256, a) == Map(c.sha256, b)
    ensures a == b
  {
    assert |a| == |Map(c.sha256, a)| == |b|;
    forall i | 0 <= i < |a| ensures a[i] == b[i] {
      assert Map(c.sha256, a)[i] == Map(c.sha256, b)[i];
      assert a[i] in a && b[i] in b;
    }
  }

  /** What goes into a version hash, in canonical bytes. */
  datatype Content = Content(schemaBytes: Bytes, metadataBytes: Bytes, records: seq<Record>)

  ghost predicate Hashable(c: Codec, envelope: Record -> Bytes, v: Content) {
    && DistinctKeys(v.records)
    && (forall r | r in v.records :: Sealed(c, envelope, r))
    && Sized(ManifestParts(c, v.schemaBytes, v.metadataBytes, v.records))
  }

  function ManifestOf(c: Codec, v: Content): Bytes
    requires Sized(ManifestParts(c, v.schemaBytes, v.metadataBytes, v.records))
  {
    Manifest(c, v.schemaBytes, v.metadataBytes, v.records)
  }

  ghost function EnvelopeSet(envelope: Record -> Bytes, records: seq<Record>): set<Bytes> {
    set r | r in records :: envelope(r)
  }

  /** The strings hashed on the way to a version hash. */
  ghost function Hashed(c: Codec, envelope: Record -> Bytes, v: Content): set<Bytes>
    requires Hashable(c, envelope, v)
  {
    {v.schemaBytes, v.metadataBytes, ManifestOf(c, v)} + EnvelopeSet(envelope, v.records)
  }

  lemma EqualManifests(c: Codec, envelope: Record -> Bytes, a: Content, b: Content, hashed: set<Bytes>)
    requires c.Lawful() && Hashable(c, envelope, a) && Hashable(c, envelope, b)
    requires Hashed(c, envelope, a) <= hashed && Hashed(c, envelope, b) <= hashed && CollisionFree(c, hashed)
    requires ManifestOf(c, a) == ManifestOf(c, b)
    ensures a.schemaBytes == b.schemaBytes && a.metadataBytes == b.metadataBytes
    ensures Envelopes(c, envelope, a.records) == Envelopes(c, envelope, b.records)
  {
    var p := c.utf8("llm-eval-dataset\0");
    var partsA := ManifestParts(c, a.schemaBytes, a.metadataBytes, a.records);
    var partsB := ManifestParts(c, b.schemaBytes, b.metadataBytes, b.records);
    assert (p + Framed(partsA))[|p|..] == Framed(partsA) && (p + Framed(partsB))[|p|..] == Framed(partsB);
    FrameInjective(partsA, partsB);
    assert partsA[1] == partsB[1] && partsA[2] == partsB[2] && partsA[3..] == partsB[3..];
    RawHashesAreEnvelopeHashes(c, envelope, a.records);
    RawHashesAreEnvelopeHashes(c, envelope, b.records);
    EnvelopesAreHashed(c, envelope, a.records);
    EnvelopesAreHashed(c, envelope, b.records);
    HashesIdentify(c, Envelopes(c, envelope, a.records), Envelopes(c, envelope, b.records), hashed);
  }

  lemma EnvelopesAreHashed(c: Codec, envelope: Record -> Bytes, records: seq<Record>)
    ensures forall x | x in Envelopes(c, envelope, records) :: x in EnvelopeSet(envelope, records)
  {
    var sorted := Sort(KeyOrder(c), records);
    SortPermutes(KeyOrder(c), records);
    forall x | x in Map(envelope, sorted) ensures x in EnvelopeSet(envelope, records) {
      var i :| 0 <= i < |sorted| && x == envelope(sorted[i]);
      assert sorted[i] in sorted;
    }
  }

  /** Two versions have the same hash exactly when their canonical schemas, canonical metadata and
      record envelopes agree, whatever order the records come in. */
  lemma VersionHashIdentifies(c: Codec, envelope: Record -> Bytes, a: Content, b: Content)
    requires c.Lawful() && Hashable(c, envelope, a) && Hashable(c, envelope, b)
    requires CollisionFree(c, Hashed(c, envelope, a) + Hashed(c, envelope, b))
    ensures c.Digest(ManifestOf(c, a)) == c.Digest(ManifestOf(c, b)) <==>
              a.schemaBytes == b.schemaBytes && a.metadataBytes == b.metadataBytes &&
              multiset(Map(envelope, a.records)) == multiset(Map(envelope, b.records))
  {
    var hashed := Hashed(c, envelope, a) + Hashed(c, envelope, b);
    EnvelopesSorted(c, envelope, a.records);
    EnvelopesSorted(c, envelope, b.records);
    if c.Digest(ManifestOf(c, a)) == c.Digest(ManifestOf(c, b)) {
      assert c.sha256(ManifestOf(c, a)) == c.unhex(c.Digest(ManifestOf(c, a)));
      assert c.sha256(ManifestOf(c, b)) == c.unhex(c.Digest(ManifestOf(c, b)));
      EqualManifests(c, envelope, a, b, hashed);
    } else if multiset(Map(envelope, a.records)) == multiset(Map(envelope, b.records)) {
      SortedUnique(EnvelopeOrder(), Envelopes(c, envelope, a.records), Envelopes(c, envelope, b.records));
      RawHashesAreEnvelopeHashes(c, envelope, a.records);
      RawHashesAreEnvelopeHashes(c, envelope, b.records);
    }
  }

  /** The envelope of a stored record, recomputed from its fields. */
  function Envelope(c: Codec): Record -> Bytes {
    (r: Record) =>
      var parts := EnvelopeParts(c, r.key, r.payloadHash, r.metadata, r.splits, r.source);
      if parts.Ok? && Sized(parts.value) then Framed(parts.value) else []
  }

  lemma {:induction false} PartsSeal(c: Codec, r: Record, parts: seq<Bytes>)
    requires EnvelopeParts(c, r.key, r.payloadHash, r.metadata, r.splits, r.source) == Ok(parts)
    requires Sized(parts) && r.envelopeHash == c.Digest(Framed(parts))
    ensures Sealed(c, Envelope(c), r)
  {
    assert parts == [c.utf8(r.key)] + parts[1..];
    assert Envelope(c)(r) == Framed([c.utf8(r.key)] + parts[1..]);
  }

  /** Every built record carries the hash of its recomputed envelope. */
  lemma BuiltRecordsAreSealed(c: Codec, key: string, payload: Value, metadata: Value, splits: seq<string>,
                              source: SourceProvenance, schema: Value)
    requires schema.Dict? && BuildRecord(c, key, payload, metadata, splits, source, schema).Ok?
    ensures Sealed(c, Envelope(c), BuildRecord(c, key, payload, metadata, splits, source, schema).value)
  {
    NormalIsSealed(c, c.strip(c.rules.Clean(key)), Normalize(c.rules, payload, schema).value, metadata, splits, source,
                   schema);
  }

  lemma NormalIsSealed(c: Codec, key: string, payload: Value, metadata: Value, splits: seq<string>,
                       source: SourceProvenance, schema: Value)
    requires schema.Dict? && BuildNormal(c, key, payload, metadata, splits, source, schema).Ok?
    ensures Sealed(c, Envelope(c), BuildNormal(c, key, payload, metadata, splits, source, schema).value)
  {
    var r := BuildNormal(c, key, payload, metadata, splits, source, schema).value;
    PartsSeal(c, r, EnvelopeParts(c, r.key, r.payloadHash, r.metadata, r.splits, r.source).value);
  }

  /** The envelope hash is the hash of five frames: key, payload hash, and the canonical metadata, split names
      and provenance. */
  lemma EnvelopeInOrder(c: Codec, key: string, payload: Value, metadata: Value, splits: seq<string>,
                        source: SourceProvenance, schema: Value)
    requires schema.Dict? && BuildRecord(c, key, payload, metadata, splits, source, schema).Ok?
    ensures var r := BuildRecord(c, key, payload, metadata, splits, source, schema).value;
            var names := Arr(Map(AsText(), r.splits));
      && Normalize(c.rules, r.metadata, EMPTY).Ok? && Normalize(c.rules, names, EMPTY).Ok?
      && Normalize(c.rules, SourceValue(source), EMPTY).Ok?
      && var frames := [c.utf8(r.key), c.utf8(r.payloadHash),
                        c.serialize(Normalize(c.rules, r.metadata, EMPTY).value),
                        c.serialize(Normalize(c.rules, names, EMPTY).value),
                        c.serialize(Normalize(c.rules, SourceValue(source), EMPTY).value)];
        Sized(frames) && r.envelopeHash == c.hex(c.sha256(Framed(frames)))
  {
    NormalEnvelopeInOrder(c, c.strip(c.rules.Clean(key)), Normalize(c.rules, payload, schema).value, metadata, splits,
                          source, schema);
  }

  lemma NormalEnvelopeInOrder(c: Codec, key: string, payload: Value, metadata: Value, splits: seq<string>,
                              source: SourceProvenance, schema: Value)
    requires schema.Dict? && BuildNormal(c, key, payload, metadata, splits, source, schema).Ok?
    ensures var r := BuildNormal(c, key, payload, metadata, splits, source, schema).value;
            var names := Arr(Map(AsText(), r.splits));
      && Normalize(c.rules, r.metadata, EMPTY).Ok? && Normalize(c.rules, names, EMPTY).Ok?
      && Normalize(c.rules, SourceValue(source), EMPTY).Ok?
      && var frames := [c.utf8(r.key), c.utf8(r.payloadHash),
                        c.serialize(Normalize(c.rules, r.metadata, EMPTY).value),
                        c.serialize(Normalize(c.rules, names, EMPTY).value),
                        c.serialize(Normalize(c.rules, SourceValue(source), EMPTY).value)];
        Sized(frames) && r.envelopeHash == c.hex(c.sha256(Framed(frames)))
  {
  }

  /** Records with the same envelope have the same key, payload hash, and canonical metadata,
      splits and provenance. */
  lemma EnvelopeIdentifies(c: Codec, a: Record, b: Record)
    requires c.Lawful()
    requires EnvelopeParts(c, a.key, a.payloadHash, a.metadata, a.splits, a.source).Ok?
    requires EnvelopeParts(c, b.key, b.payloadHash, b.metadata, b.splits, b.source).Ok?
    requires Sized(EnvelopeParts(c, a.key, a.payloadHash, a.metadata, a.splits, a.source).value)
    requires Sized(EnvelopeParts(c, b.key, b.payloadHash, b.metadata, b.splits, b.source).value)
    requires Envelope(c)(a) == Envelope(c)(b)
    ensures a.key == b.key && a.payloadHash == b.payloadHash
    ensures CanonicalBytes(c, a.metadata, None) == CanonicalBytes(c, b.metadata, None)
    ensures CanonicalBytes(c, Arr(Map(AsText(), a.splits)), None)
            == CanonicalBytes(c, Arr(Map(AsText(), b.splits)), None)
    ensures CanonicalBytes(c, SourceValue(a.source), None) == CanonicalBytes(c, SourceValue(b.source), None)
  {
    var partsA := EnvelopeParts(c, a.key, a.payloadHash, a.metadata, a.splits, a.source).value;
    var partsB := EnvelopeParts(c, b.key, b.payloadHash, b.metadata, b.splits, b.source).value;
    FrameInjective(partsA, partsB);
    assert partsA[0] == partsB[0] && partsA[1] == partsB[1] && partsA[2] == partsB[2];
    assert partsA[3] == partsB[3] && partsA[4] == partsB[4];
  }

  /** The same for `version_hash` itself, on records that carry the hash of their envelope. */
  lemma VersionHashesAgree(c: Codec, schemaA: Value, metadataA: Value, a: seq<Record>,
                           schemaB: Value, metadataB: Value, b: seq<Record>)
    requires c.Lawful()
    requires VersionHash(c, schemaA, metadataA, a).Ok? && VersionHash(c, schemaB, metadataB, b).Ok?
    requires DistinctKeys(a) && DistinctKeys(b)
    requires (forall r | r in a :: Sealed(c, Envelope(c), r)) && (forall r | r in b :: Sealed(c, Envelope(c), r))
    requires
      var va := Content(CanonicalBytes(c, schemaA, None).value, CanonicalBytes(c, metadataA, None).value, a);
      var vb := Content(CanonicalBytes(c, schemaB, None).value, CanonicalBytes(c, metadataB, None).value, b);
      CollisionFree(c, Hashed(c, Envelope(c), va) + Hashed(c, Envelope(c), vb))
    ensures VersionHash(c, schemaA, metadataA, a) == VersionHash(c, schemaB, metadataB, b) <==>
              CanonicalBytes(c, schemaA, None) == CanonicalBytes(c, schemaB, None) &&
              CanonicalBytes(c, metadataA, None) == CanonicalBytes(c, metadataB, None) &&
              multiset(Map(Envelope(c), a)) == multiset(Map(Envelope(c), b))
  {
    var va := Content(CanonicalBytes(c, schemaA, None).value, CanonicalBytes(c, metadataA, None).value, a);
    var vb := Content(CanonicalBytes(c, schemaB, None).value, CanonicalBytes(c, metadataB, None).value, b);
    VersionHashIdentifies(c, Envelope(c), va, vb);
  }
}
