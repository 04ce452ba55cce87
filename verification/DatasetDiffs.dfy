/**
 Field-level diffs of JSON documents and the record-level diff of two dataset
 versions. A diff is judged by its partner, a patch: applying the changes to
 the old document must give the new one.
 */
module DatasetDiffs {
  import opened Datasets
  import opened Ordering
  import opened JsonPointers
  import opened JsonValues
  import opened Results

  /** Absent values are recorded as Null, as the source records them as None. */
  datatype FieldChange = FieldChange(pointer: string, before: Json, after: Json)

  // ---------- what the diff records ----------

  /** The changes between two documents, with pointers extending `pointer`. */
  ghost function FieldChanges(before: Json, after: Json, pointer: string): seq<FieldChange>
    decreases before, 1, 0
  {
    if PyEqual(before, after) then []
    else if before.Obj? && after.Obj? then
      MemberChanges(before, after, Listing(before.members.Keys + after.members.Keys), pointer)
    else [FieldChange(if pointer == "" then "/" else pointer, before, after)]
  }

  ghost function MemberChanges(before: Json, after: Json, keys: seq<string>, pointer: string): seq<FieldChange>
    requires before.Obj? && after.Obj?
    decreases before, 0, |keys|
  {
    if keys == [] then []
    else
      var n := |keys| - 1;
      MemberChanges(before, after, keys[..n], pointer) + KeyChanges(before, after, keys[n], pointer)
  }

  ghost function KeyChanges(before: Json, after: Json, key: string, pointer: string): seq<FieldChange>
    requires before.Obj? && after.Obj?
    decreases before, 0, 0
  {
    var child := pointer + "/" + Escape(key);
    if key in before.members && key in after.members then FieldChanges(before.members[key], after.members[key], child)
    else if key in after.members then [FieldChange(child, Null, after.members[key])]
    else if key in before.members then [FieldChange(child, before.members[key], Null)]
    else []
  }

  lemma {:induction false} MembersUpTo(before: Json, after: Json, keys: seq<string>, i: nat, pointer: string)
    requires before.Obj? && after.Obj? && i < |keys|
    ensures MemberChanges(before, after, keys[..i + 1], pointer)
         == MemberChanges(before, after, keys[..i], pointer) + KeyChanges(before, after, keys[i], pointer)
  {
    assert keys[..i + 1][..i] == keys[..i];
  }

  /** `_field_changes` */
  method ComputeFieldChanges(before: Json, after: Json, pointer: string) returns (changes: seq<FieldChange>)
    ensures changes == FieldChanges(before, after, pointer)
    decreases before
  {
    if PyEqual(before, after) {
      return [];
    }
    if before.Obj? && after.Obj? {
      changes := [];
      var keys := SortedKeys(before.members.Keys + after.members.Keys);
      ListingLists(before.members.Keys + after.members.Keys);
      for i := 0 to |keys|
        invariant changes == MemberChanges(before, after, keys[..i], pointer)
      {
        var key := keys[i];
        var child := pointer + "/" + Escape(key);
        assert key in keys;
        MembersUpTo(before, after, keys, i, pointer);
        if key !in before.members {
          changes := changes + [FieldChange(child, Null, after.members[key])];
        } else if key !in after.members {
          changes := changes + [FieldChange(child, before.members[key], Null)];
        } else {
          var inner := ComputeFieldChanges(before.members[key], after.members[key], child);
          changes := changes + inner;
        }
      }
      assert keys[..|keys|] == keys;
      return changes;
    }
    return [FieldChange(if pointer == "" then "/" else pointer, before, after)];
  }

  // ---------- reading a diff: the patch ----------

  /** A place in a document: a value, or nothing. */
  type Slot = Option<Json>

  function At(members: map<string, Json>, key: string): Slot {
    if key in members then Some(members[key]) else None
  }

  function With(members: map<string, Json>, key: string, slot: Slot): map<string, Json> {
    if slot.Some? then members[key := slot.value] else members - {key}
  }

  /** Write `value` at the end of the path; Null stands for absence, as in a recorded change. */
  function Write(slot: Slot, path: seq<string>, value: Json): Slot
    decreases |path|
  {
    if path == [] then (if value == Null then None else Some(value))
    else if slot.Some? && slot.value.Obj? then
      var members := slot.value.members;
      Some(Obj(With(members, path[0], Write(At(members, path[0]), path[1..], value))))
    else slot
  }

  /** Apply the changes in order, reading each pointer as RFC 6901 says. */
  function Patch(slot: Slot, changes: seq<FieldChange>): Slot
    decreases |changes|
  {
    if changes == [] then slot
    else Patch(Write(slot, Decode(changes[0].pointer), changes[0].after), changes[1..])
  }

  // ---------- the same diff, with paths in place of pointers ----------

  datatype PathChange = PathChange(path: seq<string>, before: Json, after: Json)

  function Under(key: string): PathChange -> PathChange {
    (c: PathChange) => c.(path := [key] + c.path)
  }

  /** The changes between two documents, with paths relative to them. */
  ghost function Changes(before: Json, after: Json): seq<PathChange>
    decreases before, 1, 0
  {
    if PyEqual(before, after) then []
    else if before.Obj? && after.Obj? then
      Inside(before, after, Listing(before.members.Keys + after.members.Keys))
    else [PathChange([], before, after)]
  }

  ghost function Inside(before: Json, after: Json, keys: seq<string>): seq<PathChange>
    requires before.Obj? && after.Obj?
    decreases before, 0, |keys|
  {
    if keys == [] then []
    else
      var n := |keys| - 1;
      Inside(before, after, keys[..n]) + Map(Under(keys[n]), ChangesAt(before, after, keys[n]))
  }

  ghost function ChangesAt(before: Json, after: Json, key: string): seq<PathChange>
    requires before.Obj? && after.Obj?
    decreases before, 0, 0
  {
    if key in before.members && key in after.members then Changes(before.members[key], after.members[key])
    else if key in after.members then [PathChange([], Null, after.members[key])]
    else if key in before.members then [PathChange([], before.members[key], Null)]
    else []
  }

  function PatchPaths(slot: Slot, changes: seq<PathChange>): Slot
    decreases |changes|
  {
    if changes == [] then slot
    else PatchPaths(Write(slot, changes[0].path, changes[0].after), changes[1..])
  }

  lemma {:induction false} PatchPathsConcat(slot: Slot, a: seq<PathChange>, b: seq<PathChange>)
    ensures PatchPaths(slot, a + b) == PatchPaths(PatchPaths(slot, a), b)
    decreases |a|
  {
    if a == [] {
      assert a + b == b;
    } else {
      assert (a + b)[1..] == a[1..] + b;
      PatchPathsConcat(Write(slot, a[0].path, a[0].after), a[1..], b);
    }
  }

  lemma WithTwice(members: map<string, Json>, key: string, first: Slot, second: Slot)
    ensures At(With(members, key, first), key) == first
    ensures With(With(members, key, first), key, second) == With(members, key, second)
    ensures With(members, key, At(members, key)) == members
  {
  }

  /** Changes under one member touch that member only. */
  lemma {:induction false} PatchUnder(members: map<string, Json>, key: string, changes: seq<PathChange>)
    ensures PatchPaths(Some(Obj(members)), Map(Under(key), changes))
         == Some(Obj(With(members, key, PatchPaths(At(members, key), changes))))
    decreases |changes|
  {
    var lifted := Map(Under(key), changes);
    WithTwice(members, key, None, None);
    if changes != [] {
      var c := changes[0];
      var next := Write(At(members, key), c.path, c.after);
      assert ([key] + c.path)[1..] == c.path;
      assert Write(Some(Obj(members)), [key] + c.path, c.after) == Some(Obj(With(members, key, next)));
      assert lifted[1..] == Map(Under(key), changes[1..]);
      PatchUnder(With(members, key, next), key, changes[1..]);
      WithTwice(members, key, next, PatchPaths(next, changes[1..]));
    }
  }

  // ---------- what the patch gives ----------

  /** A recorded Null reads as absence. */
  function Present(slot: Slot): Slot { if slot == Some(Null) then None else slot }

  /** What a reader of the diff ends with, given the old document. */
  ghost function Rebuilt(before: Json, after: Json): Slot
    decreases before, 1
  {
    if PyEqual(before, after) then Some(before)
    else if before.Obj? && after.Obj? then
      Some(Obj(map k | k in after.members && RebuiltAt(before, after, k).Some? :: RebuiltAt(before, after, k).value))
    else Present(Some(after))
  }

  ghost function RebuiltAt(before: Json, after: Json, key: string): Slot
    requires before.Obj? && after.Obj?
    decreases before, 0
  {
    if key in before.members && key in after.members then Rebuilt(before.members[key], after.members[key])
    else Present(At(after.members, key))
  }

  /** The members already patched come out rebuilt; the others are as before. */
  ghost predicate PartlyRebuilt(before: Json, after: Json, done: seq<string>, members: map<string, Json>)
    requires before.Obj? && after.Obj?
  {
    forall k :: At(members, k) == if k in done then RebuiltAt(before, after, k) else At(before.members, k)
  }

  lemma {:induction false} PatchRebuilds(before: Json, after: Json)
    ensures PatchPaths(Some(before), Changes(before, after)) == Rebuilt(before, after)
    decreases before, 1, 0
  {
    if !PyEqual(before, after) && before.Obj? && after.Obj? {
      var union := before.members.Keys + after.members.Keys;
      var keys := Listing(union);
      ListingLists(union);
      var members := PatchInside(before, after, keys);
      var rebuilt := Rebuilt(before, after).value.members;
      forall k ensures At(members, k) == At(rebuilt, k) {
        assert k in keys <==> k in union;
      }
      SameMembers(members, rebuilt);
    }
  }

  lemma SameMembers(a: map<string, Json>, b: map<string, Json>)
    requires forall k :: At(a, k) == At(b, k)
    ensures a == b
  {
    forall k ensures k in a <==> k in b {
      assert At(a, k) == At(b, k);
    }
    forall k | k in a ensures a[k] == b[k] {
      assert At(a, k) == At(b, k);
    }
  }

  lemma {:induction false} PatchInside(before: Json, after: Json,
                                       keys: seq<string>) returns (members: map<string, Json>)
    requires before.Obj? && after.Obj? && Distinct(keys)
    ensures PatchPaths(Some(before), Inside(before, after, keys)) == Some(Obj(members))
    ensures PartlyRebuilt(before, after, keys, members)
    decreases before, 0, |keys|
  {
    if keys == [] {
      members := before.members;
    } else {
      var n := |keys| - 1;
      var key := keys[n];
      var earlier := PatchInside(before, after, keys[..n]);
      PatchPathsConcat(Some(before), Inside(before, after, keys[..n]), Map(Under(key), ChangesAt(before, after, key)));
      members := OneMore(before, after, keys, earlier);
      PatchUnder(earlier, key, ChangesAt(before, after, key));
      PatchAt(before, after, key);
    }
  }

  lemma OneMore(before: Json, after: Json, keys: seq<string>,
                earlier: map<string, Json>) returns (members: map<string, Json>)
    requires before.Obj? && after.Obj? && Distinct(keys) && keys != []
    requires PartlyRebuilt(before, after, keys[..|keys| - 1], earlier)
    ensures members == With(earlier, keys[|keys| - 1], RebuiltAt(before, after, keys[|keys| - 1]))
    ensures PartlyRebuilt(before, after, keys, members)
    ensures At(earlier, keys[|keys| - 1]) == At(before.members, keys[|keys| - 1])
  {
    var n := |keys| - 1;
    var key := keys[n];
    assert key !in keys[..n];
    members := With(earlier, key, RebuiltAt(before, after, key));
    forall k ensures At(members, k) == if k in keys then RebuiltAt(before, after, k) else At(before.members, k) {
      assert k in keys <==> k == key || k in keys[..n];
    }
  }

  lemma {:induction false} PatchAt(before: Json, after: Json, key: string)
    requires before.Obj? && after.Obj?
    ensures PatchPaths(At(before.members, key), ChangesAt(before, after, key)) == RebuiltAt(before, after, key)
    decreases before, 0, 0
  {
    if key in before.members && key in after.members {
      PatchRebuilds(before.members[key], after.members[key]);
    }
  }

  // ---------- pointers carry the paths ----------

  function Pointer(path: seq<string>): string { if path == [] then "/" else Encode(path) }

  function Pointed(prefix: seq<string>): PathChange -> FieldChange {
    (c: PathChange) => FieldChange(Pointer(prefix + c.path), c.before, c.after)
  }

  lemma MapUnderPointed(prefix: seq<string>, key: string, changes: seq<PathChange>)
    ensures Map(Pointed(prefix), Map(Under(key), changes)) == Map(Pointed(prefix + [key]), changes)
  {
    forall i | 0 <= i < |changes|
      ensures Pointed(prefix)(Under(key)(changes[i])) == Pointed(prefix + [key])(changes[i])
    {
      assert prefix + ([key] + changes[i].path) == prefix + [key] + changes[i].path;
    }
  }

  lemma {:induction false} EncodeNonEmpty(path: seq<string>)
    ensures Encode(path) == "" <==> path == []
  {
  }

  /** The string form of the diff is the path form, written out. */
  lemma {:induction false} ChangesArePointed(before: Json, after: Json, prefix: seq<string>)
    ensures FieldChanges(before, after, Encode(prefix)) == Map(Pointed(prefix), Changes(before, after))
    decreases before, 1, 0
  {
    EncodeNonEmpty(prefix);
    if !PyEqual(before, after) {
      if before.Obj? && after.Obj? {
        InsideIsPointed(before, after, Listing(before.members.Keys + after.members.Keys), prefix);
      } else {
        assert prefix + [] == prefix;
      }
    }
  }

  lemma {:induction false} InsideIsPointed(before: Json, after: Json, keys: seq<string>, prefix: seq<string>)
    requires before.Obj? && after.Obj?
    ensures MemberChanges(before, after, keys, Encode(prefix)) == Map(Pointed(prefix), Inside(before, after, keys))
    decreases before, 0, |keys|
  {
    if keys != [] {
      var n := |keys| - 1;
      var here := ChangesAt(before, after, keys[n]);
      InsideIsPointed(before, after, keys[..n], prefix);
      KeyIsPointed(before, after, keys[n], prefix);
      MapUnderPointed(prefix, keys[n], here);
      MapSplit(Pointed(prefix), Inside(before, after, keys[..n]), Map(Under(keys[n]), here));
    }
  }

  lemma {:induction false} KeyIsPointed(before: Json, after: Json, key: string, prefix: seq<string>)
    requires before.Obj? && after.Obj?
    ensures KeyChanges(before, after, key, Encode(prefix))
            == Map(Pointed(prefix + [key]), ChangesAt(before, after, key))
    decreases before, 0, 0
  {
    EncodeAppend(prefix, key);
    if key in before.members && key in after.members {
      ChangesArePointed(before.members[key], after.members[key], prefix + [key]);
    } else {
      assert prefix + [key] + [] == prefix + [key];
    }
  }

  lemma {:induction false} InsideHasPaths(before: Json, after: Json, keys: seq<string>)
    requires before.Obj? && after.Obj?
    ensures forall c | c in Inside(before, after, keys) :: c.path != [] && c.path[0] in keys
  {
    if keys != [] {
      InsideHasPaths(before, after, keys[..|keys| - 1]);
    }
  }

  lemma {:induction false} PatchReadsPointers(slot: Slot, changes: seq<PathChange>)
    requires forall c | c in changes :: c.path != []
    ensures Patch(slot, Map(Pointed([]), changes)) == PatchPaths(slot, changes)
    decreases |changes|
  {
    if changes != [] {
      var c := changes[0];
      assert [] + c.path == c.path;
      DecodeEncode(c.path);
      assert Map(Pointed([]), changes)[1..] == Map(Pointed([]), changes[1..]);
      PatchReadsPointers(Write(slot, c.path, c.after), changes[1..]);
    }
  }

  /** Patching the old object with its diff rebuilds, member by member, what the diff can express. */
  lemma {:induction false} PatchGives(before: Json, after: Json)
    requires before.Obj? && after.Obj?
    ensures Patch(Some(before), FieldChanges(before, after, "")) == Rebuilt(before, after)
  {
    ChangesArePointed(before, after, []);
    InsideHasPaths(before, after, Listing(before.members.Keys + after.members.Keys));
    PatchReadsPointers(Some(before), Changes(before, after));
    PatchRebuilds(before, after);
  }

  // ---------- when the diff reproduces the target ----------

  /** A change to Null reads as a removal, and a member that goes from 1 to true is not recorded. */
  ghost predicate Recoverable(before: Json, after: Json) {
    if SameValue(before, after) then before == after
    else if before.Obj? && after.Obj? then
      forall k | k in after.members ::
        if k in before.members then Recoverable(before.members[k], after.members[k]) else after.members[k] != Null
    else after != Null
  }

  /** The part of that condition that matters up to Python's equality. */
  ghost predicate NullSafe(before: Json, after: Json) {
    if SameValue(before, after) then true
    else if before.Obj? && after.Obj? then
      forall k | k in after.members ::
        if k in before.members then NullSafe(before.members[k], after.members[k]) else after.members[k] != Null
    else after != Null
  }

  /** No member, at any depth of nested objects, is Null. */
  predicate NullFree(j: Json) {
    match j
    case Null => false
    case Obj(m) => forall k | k in m :: NullFree(m[k])
    case _ => true
  }

  lemma {:induction false} RebuiltExactly(before: Json, after: Json)
    ensures Rebuilt(before, after) == Some(after) <==> Recoverable(before, after)
    decreases before
  {
    PyEqualIsSameValue(before, after);
    if !PyEqual(before, after) && before.Obj? && after.Obj? {
      var b, a, r := before.members, after.members, Rebuilt(before, after).value.members;
      forall k | k in a && k in b ensures Rebuilt(b[k], a[k]) == Some(a[k]) <==> Recoverable(b[k], a[k]) {
        RebuiltExactly(b[k], a[k]);
      }
      if Recoverable(before, after) {
        forall k ensures At(r, k) == At(a, k) {
          if k in a {
            assert if k in b then Recoverable(b[k], a[k]) else a[k] != Null;
            assert RebuiltAt(before, after, k) == Some(a[k]);
          }
        }
        SameMembers(r, a);
      } else {
        var k :| k in a && !(if k in b then Recoverable(b[k], a[k]) else a[k] != Null);
        assert RebuiltAt(before, after, k) != Some(a[k]);
        assert At(r, k) == RebuiltAt(before, after, k);
      }
    }
  }

  /** Python equality of slots. */
  ghost predicate SameSlot(a: Slot, b: Slot) {
    a.Some? == b.Some? && (a.Some? && b.Some? ==> SameValue(a.value, b.value))
  }

  lemma {:induction false} RebuiltUpToEquality(before: Json, after: Json)
    ensures SameSlot(Rebuilt(before, after), Some(after)) <==> NullSafe(before, after)
    decreases before
  {
    EverywhereSameValue();
    if !PyEqual(before, after) && before.Obj? && after.Obj? {
      var b, a, r := before.members, after.members, Rebuilt(before, after).value.members;
      forall k | k in a && k in b
        ensures SameSlot(Rebuilt(b[k], a[k]), Some(a[k])) <==> NullSafe(b[k], a[k])
      {
        RebuiltUpToEquality(b[k], a[k]);
      }
      ObjectsPyEqual(r, a);
      forall k | k in a ensures At(r, k) == RebuiltAt(before, after, k) {
      }
      assert r.Keys <= a.Keys;
      if NullSafe(before, after) {
        forall k | k in a ensures SameSlot(At(r, k), Some(a[k])) {
          if k in b {
            assert NullSafe(b[k], a[k]);
          }
        }
        assert r.Keys == a.Keys;
      } else {
        var k :| k in a && !(if k in b then NullSafe(b[k], a[k]) else a[k] != Null);
        assert !SameSlot(At(r, k), Some(a[k]));
      }
    }
  }

  /** Diff then patch gives exactly the target, precisely when the diff can express it. */
  lemma {:induction false} DiffThenPatch(before: Json, after: Json)
    requires before.Obj? && after.Obj?
    ensures Patch(Some(before), FieldChanges(before, after, "")) == Some(after) <==> Recoverable(before, after)
  {
    PatchGives(before, after);
    RebuiltExactly(before, after);
  }

  /** Up to Python's equality only Null gets in the way. */
  lemma {:induction false} DiffThenPatchUpToEquality(before: Json, after: Json)
    requires before.Obj? && after.Obj?
    ensures SameSlot(Patch(Some(before), FieldChanges(before, after, "")), Some(after)) <==> NullSafe(before, after)
  {
    PatchGives(before, after);
    RebuiltUpToEquality(before, after);
  }

  lemma {:induction false} NullFreeIsSafe(before: Json, after: Json)
    requires NullFree(after)
    ensures NullSafe(before, after)
    decreases after
  {
    if !SameValue(before, after) && before.Obj? && after.Obj? {
      forall k | k in after.members && k in before.members ensures NullSafe(before.members[k], after.members[k]) {
        NullFreeIsSafe(before.members[k], after.members[k]);
      }
    }
  }

  /** On null-free objects the diff always reproduces its target. */
  lemma {:induction false} NullFreeDiffThenPatch(before: Json, after: Json)
    requires before.Obj? && after.Obj? && NullFree(after)
    ensures var patched := Patch(Some(before), FieldChanges(before, after, ""));
      patched.Some? && SameValue(patched.value, after)
  {
    NullFreeIsSafe(before, after);
    DiffThenPatchUpToEquality(before, after);
  }

  /** A member set to null is recorded exactly as its removal is. */
  lemma NullLooksRemoved(key: string, value: Json)
    requires value != Null
    ensures var before := Obj(map[key := value]);
      && FieldChanges(before, Obj(map[key := Null]), "") == FieldChanges(before, Obj(map[]), "")
      && !Recoverable(before, Obj(map[key := Null]))
  {
    EverywhereSameValue();
    var before, nulled, removed := Obj(map[key := value]), Obj(map[key := Null]), Obj(map[]);
    ObjectsPyEqual(before.members, nulled.members);
    ObjectsPyEqual(before.members, removed.members);
    OneMemberChanges(before, nulled, key);
    OneMemberChanges(before, removed, key);
    assert ChangesAt(before, nulled, key) == ChangesAt(before, removed, key);
    ChangesArePointed(before, nulled, []);
    ChangesArePointed(before, removed, []);
  }

  lemma {:induction false} OneMemberChanges(before: Json, after: Json, key: string)
    requires before.Obj? && after.Obj? && before.members.Keys + after.members.Keys == {key}
    requires !PyEqual(before, after)
    ensures Changes(before, after) == Map(Under(key), ChangesAt(before, after, key))
  {
    OneKey(key);
    assert [key][..0] == [];
    assert Inside(before, after, [key])
           == Inside(before, after, [key][..0]) + Map(Under(key), ChangesAt(before, after, key));
  }

  lemma OneKey(key: string)
    ensures Listing({key}) == [key]
  {
    ListingUnique({key}, [key]);
  }

  // ---------- emptiness and distinctness ----------

  lemma {:induction false} InsideNonEmpty(before: Json, after: Json, keys: seq<string>, key: string)
    requires before.Obj? && after.Obj? && key in keys && ChangesAt(before, after, key) != []
    ensures Inside(before, after, keys) != []
  {
    var n := |keys| - 1;
    if key != keys[n] {
      InsideNonEmpty(before, after, keys[..n], key);
    }
  }

  lemma DifferingKey(before: map<string, Json>, after: map<string, Json>) returns (key: string)
    requires !PyEqual(Obj(before), Obj(after))
    ensures key in before.Keys + after.Keys
    ensures key in before && key in after ==> !PyEqual(before[key], after[key])
  {
    ObjectsPyEqual(before, after);
    if before.Keys == after.Keys {
      key :| key in before && key in after && !PyEqual(before[key], after[key]);
    } else {
      key :| key in before.Keys + after.Keys && !(key in before && key in after);
    }
  }

  lemma {:induction false} NoChangesWhenEqual(before: Json, after: Json)
    ensures Changes(before, after) == [] <==> PyEqual(before, after)
    decreases before
  {
    if !PyEqual(before, after) && before.Obj? && after.Obj? {
      var keys := Listing(before.members.Keys + after.members.Keys);
      var key := DifferingKey(before.members, after.members);
      ListingLists(before.members.Keys + after.members.Keys);
      if key in before.members && key in after.members {
        NoChangesWhenEqual(before.members[key], after.members[key]);
      }
      InsideNonEmpty(before, after, keys, key);
    }
  }

  /** The diff is empty exactly when Python calls the documents equal. */
  lemma {:induction false} EmptyDiff(before: Json, after: Json)
    ensures FieldChanges(before, after, "") == [] <==> SameValue(before, after)
  {
    PyEqualIsSameValue(before, after);
    ChangesArePointed(before, after, []);
    NoChangesWhenEqual(before, after);
  }

  ghost predicate DistinctPaths(changes: seq<PathChange>) {
    forall i, j | 0 <= i < j < |changes| :: changes[i].path != changes[j].path
  }

  lemma {:induction false} PathsDiffer(before: Json, after: Json)
    ensures DistinctPaths(Changes(before, after))
    decreases before, 1, 0
  {
    if !PyEqual(before, after) && before.Obj? && after.Obj? {
      ListingLists(before.members.Keys + after.members.Keys);
      InsidePathsDiffer(before, after, Listing(before.members.Keys + after.members.Keys));
    }
  }

  lemma {:induction false} InsidePathsDiffer(before: Json, after: Json, keys: seq<string>)
    requires before.Obj? && after.Obj? && Distinct(keys)
    ensures DistinctPaths(Inside(before, after, keys))
    decreases before, 0, |keys|
  {
    if keys != [] {
      var n := |keys| - 1;
      var here := ChangesAt(before, after, keys[n]);
      InsidePathsDiffer(before, after, keys[..n]);
      InsideHasPaths(before, after, keys[..n]);
      if keys[n] in before.members && keys[n] in after.members {
        PathsDiffer(before.members[keys[n]], after.members[keys[n]]);
      }
      JoinPaths(Inside(before, after, keys[..n]), here, keys[..n], keys[n]);
    }
  }

  lemma JoinPaths(earlier: seq<PathChange>, here: seq<PathChange>, keys: seq<string>, key: string)
    requires DistinctPaths(earlier) && DistinctPaths(here)
    requires forall c | c in earlier :: c.path != [] && c.path[0] in keys
    requires key !in keys
    ensures DistinctPaths(earlier + Map(Under(key), here))
  {
    var all, n := earlier + Map(Under(key), here), |earlier|;
    forall i, j | 0 <= i < j < |all| ensures all[i].path != all[j].path {
      if j >= n {
        assert all[j].path == [key] + here[j - n].path;
        if i < n {
          assert all[i] in earlier;
        } else {
          assert ([key] + here[i - n].path)[1..] == here[i - n].path;
          assert ([key] + here[j - n].path)[1..] == here[j - n].path;
        }
      }
    }
  }

  /** No two changes of an object diff carry the same pointer. */
  lemma {:induction false} PointersDiffer(before: Json, after: Json)
    requires before.Obj? && after.Obj?
    ensures var changes := FieldChanges(before, after, "");
      forall i, j | 0 <= i < j < |changes| :: changes[i].pointer != changes[j].pointer
  {
    var paths := Changes(before, after);
    ChangesArePointed(before, after, []);
    PathsDiffer(before, after);
    InsideHasPaths(before, after, Listing(before.members.Keys + after.members.Keys));
    forall i, j | 0 <= i < j < |paths| ensures Pointer([] + paths[i].path) != Pointer([] + paths[j].path) {
      assert paths[i] in paths && paths[j] in paths;
      assert [] + paths[i].path == paths[i].path && [] + paths[j].path == paths[j].path;
      if Encode(paths[i].path) == Encode(paths[j].path) {
        EncodeInjective(paths[i].path, paths[j].path);
      }
    }
  }

  /** A change of the whole document is written "/", which names the member with the empty key. */
  lemma {:induction false} RootChangeIsAmbiguous(before: Json, after: Json)
    requires !SameValue(before, after) && !(before.Obj? && after.Obj?)
    ensures FieldChanges(before, after, "") == [FieldChange("/", before, after)]
    ensures Encode([""]) == "/" && Decode("/") == [""] != []
  {
    PyEqualIsSameValue(before, after);
    assert Escape("") == "" && Encode([""][1..]) == "";
    assert Encode([""]) == "/" + Escape("") + Encode([""][1..]);
    DecodeEncode([""]);
  }

  // ---------- diffing two versions ----------

  datatype DiffKind = Added | Removed | Modified | Unchanged

  datatype RecordDiff = RecordDiff(key: string, kind: DiffKind, changes: seq<FieldChange>)

  datatype DatasetDiff = DatasetDiff(sourceVersionId: string, targetVersionId: string, records: seq<RecordDiff>)

  type Record = DatasetRecord<Json>

  /** `{record.key: record for record in records}`: the last record of a key stays. */
  function ByKey(records: seq<Record>): map<string, Record> {
    if records == [] then map[]
    else
      var n := |records| - 1;
      ByKey(records[..n])[records[n].key := records[n]]
  }

  lemma {:induction false} ByKeyHoldsLast(records: seq<Record>, key: string)
    ensures key in ByKey(records) <==> exists i :: 0 <= i < |records| && records[i].key == key
    ensures key in ByKey(records) ==>
              exists i :: 0 <= i < |records| && ByKey(records)[key] == records[i] && records[i].key == key &&
                          forall j | i < j < |records| :: records[j].key != key
  {
    if records != [] {
      var n := |records| - 1;
      ByKeyHoldsLast(records[..n], key);
      if records[n].key != key && key in ByKey(records) {
        var i :| 0 <= i < n && ByKey(records[..n])[key] == records[..n][i] && records[..n][i].key == key &&
                 forall j | i < j < n :: records[..n][j].key != key;
        assert records[i] == records[..n][i];
        assert forall j | i < j < n :: records[j] == records[..n][j];
      } else if records[n].key != key {
        assert forall i | 0 <= i < n :: records[i] == records[..n][i];
      }
    }
  }

  function AsJson(): string -> Json { (s: string) => Str(s) }

  /** The part of a record that field changes describe: its provenance is not in it. */
  function Envelope(r: Record): Json {
    Obj(map["payload" := r.payload, "metadata" := r.metadata, "splits" := Arr(Map(AsJson(), r.splits))])
  }

  /** The entry of one key of the union. */
  ghost function Entry(source: map<string, Record>, target: map<string, Record>): string -> RecordDiff {
    (key: string) =>
      if key !in source then RecordDiff(key, Added, [])
      else if key !in target then RecordDiff(key, Removed, [])
      else if source[key].envelopeHash == target[key].envelopeHash then RecordDiff(key, Unchanged, [])
      else RecordDiff(key, Modified, FieldChanges(Envelope(source[key]), Envelope(target[key]), ""))
  }

  /** One turn of the loop over the keys. */
  method DiffKey(source: map<string, Record>, target: map<string, Record>, key: string) returns (d: RecordDiff)
    ensures d == Entry(source, target)(key)
  {
    if key !in source {
      d := RecordDiff(key, Added, []);
    } else if key !in target {
      d := RecordDiff(key, Removed, []);
    } else if source[key].envelopeHash == target[key].envelopeHash {
      d := RecordDiff(key, Unchanged, []);
    } else {
      var changes := ComputeFieldChanges(Envelope(source[key]), Envelope(target[key]), "");
      d := RecordDiff(key, Modified, changes);
    }
  }

  /** The entries of both versions' keys, in order. */
  ghost function Entries(source: map<string, Record>, target: map<string, Record>): seq<RecordDiff> {
    Map(Entry(source, target), Listing(source.Keys + target.Keys))
  }

  /** The loop over the sorted union of keys. */
  method DiffKeyed(source: map<string, Record>, target: map<string, Record>) returns (diffs: seq<RecordDiff>)
    ensures diffs == Entries(source, target)
  {
    ghost var entry := Entry(source, target);
    diffs := [];
    var keys := SortedKeys(source.Keys + target.Keys);
    for i := 0 to |keys|
      invariant diffs == Map(entry, keys[..i])
    {
      var d := DiffKey(source, target, keys[i]);
      MapOneMore(entry, keys, i);
      diffs := diffs + [d];
    }
    assert keys[..|keys|] == keys;
  }

  /** `diff_versions` */
  method DiffVersions(source: DatasetVersion<Json>, target: DatasetVersion<Json>) returns (diff: DatasetDiff)
    ensures diff == DatasetDiff(source.id, target.id, Entries(ByKey(source.records), ByKey(target.records)))
  {
    var diffs := DiffKeyed(ByKey(source.records), ByKey(target.records));
    diff := DatasetDiff(source.id, target.id, diffs);
  }

  function KeyOf(): RecordDiff -> string { (d: RecordDiff) => d.key }

  /** Every key of either version has exactly one entry, in key order; the four kinds partition
      the keys; and only a modified entry lists changes. */
  lemma EntriesPartitionKeys(source: map<string, Record>, target: map<string, Record>)
    ensures var entries := Entries(source, target);
      && Lists(StringLeq, source.Keys + target.Keys, Map(KeyOf(), entries))
      && forall i | 0 <= i < |entries| :: Classified(source, target, entries[i])
  {
    var keys := Listing(source.Keys + target.Keys);
    var entries := Entries(source, target);
    ListingLists(source.Keys + target.Keys);
    assert Map(KeyOf(), entries) == keys;
    forall i | 0 <= i < |entries| ensures Classified(source, target, entries[i]) {
      assert keys[i] in keys;
      assert entries[i] == Entry(source, target)(keys[i]);
    }
  }

  ghost predicate Classified(source: map<string, Record>, target: map<string, Record>, d: RecordDiff) {
    && (d.kind == Added <==> d.key !in source && d.key in target)
    && (d.kind == Removed <==> d.key in source && d.key !in target)
    && (d.kind == Unchanged <==>
        d.key in source && d.key in target && source[d.key].envelopeHash == target[d.key].envelopeHash)
    && (d.kind == Modified <==>
        d.key in source && d.key in target && source[d.key].envelopeHash != target[d.key].envelopeHash)
    && (d.kind != Modified ==> d.changes == [])
    && (d.kind == Modified ==> d.changes == FieldChanges(Envelope(source[d.key]), Envelope(target[d.key]), ""))
  }

  /** A modified entry lists the changes of metadata, payload and splits, each under its own name. */
  lemma EnvelopeChangesByPart(before: Record, after: Record)
    ensures FieldChanges(Envelope(before), Envelope(after), "")
            == FieldChanges(before.metadata, after.metadata, "/" + "metadata")
               + FieldChanges(before.payload, after.payload, "/" + "payload")
               + FieldChanges(Arr(Map(AsJson(), before.splits)), Arr(Map(AsJson(), after.splits)), "/" + "splits")
  {
    EnvelopeMembers(before);
    EnvelopeMembers(after);
    ListedByPart(before, after, Envelope(before), Envelope(after));
  }

  /** The document is the record's envelope. */
  ghost predicate IsEnvelope(r: Record, j: Json) {
    && j.Obj? && j.members.Keys == {"metadata", "payload", "splits"}
    && j.members["metadata"] == r.metadata && j.members["payload"] == r.payload
    && j.members["splits"] == Arr(Map(AsJson(), r.splits))
  }

  lemma EnvelopeMembers(r: Record)
    ensures IsEnvelope(r, Envelope(r))
  {
    assert Envelope(r).members.Keys == {"metadata", "payload", "splits"};
  }

  lemma {:induction false} ListedByPart(before: Record, after: Record, b: Json, a: Json)
    requires IsEnvelope(before, b) && IsEnvelope(after, a)
    ensures FieldChanges(b, a, "")
            == FieldChanges(before.metadata, after.metadata, "/" + "metadata")
               + FieldChanges(before.payload, after.payload, "/" + "payload")
               + FieldChanges(Arr(Map(AsJson(), before.splits)), Arr(Map(AsJson(), after.splits)), "/" + "splits")
  {
    PartKeys(b.members.Keys + a.members.Keys);
    ChangesByPart(b, a, "metadata", "payload", "splits");
  }

  lemma {:induction false} ChangesByPart(before: Json, after: Json, x: string, y: string, z: string)
    requires before.Obj? && after.Obj? && before.members.Keys == after.members.Keys == {x, y, z}
    requires Listing(before.members.Keys + after.members.Keys) == [x, y, z]
    requires forall name | name in {x, y, z} :: '~' !in name && '/' !in name
    ensures FieldChanges(before, after, "")
            == FieldChanges(before.members[x], after.members[x], "/" + x)
               + FieldChanges(before.members[y], after.members[y], "/" + y)
               + FieldChanges(before.members[z], after.members[z], "/" + z)
  {
    ObjectsPyEqual(before.members, after.members);
    if !PyEqual(before, after) {
      ThreeKeys(before, after, x, y, z);
      PlainMember(before, after, x);
      PlainMember(before, after, y);
      PlainMember(before, after, z);
    }
  }

  lemma {:induction false} ThreeKeys(before: Json, after: Json, x: string, y: string, z: string)
    requires before.Obj? && after.Obj? && !PyEqual(before, after)
    requires Listing(before.members.Keys + after.members.Keys) == [x, y, z]
    ensures FieldChanges(before, after, "")
            == KeyChanges(before, after, x, "") + KeyChanges(before, after, y, "") + KeyChanges(before, after, z, "")
  {
    ThreeMembers(before, after, [x, y, z]);
  }

  lemma {:induction false} ThreeMembers(before: Json, after: Json, keys: seq<string>)
    requires before.Obj? && after.Obj? && |keys| == 3
    ensures MemberChanges(before, after, keys, "")
            == KeyChanges(before, after, keys[0], "") + KeyChanges(before, after, keys[1], "")
               + KeyChanges(before, after, keys[2], "")
  {
    assert keys[..0] == [] && keys[..3] == keys;
    FirstMember(before, after, keys);
    MembersUpTo(before, after, keys, 1, "");
    MembersUpTo(before, after, keys, 2, "");
  }

  lemma {:induction false} FirstMember(before: Json, after: Json, keys: seq<string>)
    requires before.Obj? && after.Obj? && keys != []
    ensures MemberChanges(before, after, keys[..1], "") == KeyChanges(before, after, keys[0], "")
  {
    MembersUpTo(before, after, keys, 0, "");
    NoMembers(before, after, keys[..0]);
  }

  lemma {:induction false} NoMembers(before: Json, after: Json, keys: seq<string>)
    requires before.Obj? && after.Obj? && keys == []
    ensures MemberChanges(before, after, keys, "") == []
  {
  }

  lemma {:induction false} PlainMember(before: Json, after: Json, name: string)
    requires before.Obj? && after.Obj? && '~' !in name && '/' !in name
    requires name in before.members && name in after.members
    ensures KeyChanges(before, after, name, "") == FieldChanges(before.members[name], after.members[name], "/" + name)
  {
    PlainName(name);
    assert "" + "/" + name == "/" + name;
  }

  lemma PartKeys(names: set<string>)
    requires names == {"metadata", "payload", "splits"}
    ensures Listing(names) == ["metadata", "payload", "splits"]
  {
    var keys := ["metadata", "payload", "splits"];
    assert keys[0][0] == 'm' && keys[1][0] == 'p' && keys[2][0] == 's';
    ListingUnique(names, keys);
  }

  lemma {:induction false} PlainName(name: string)
    requires '~' !in name && '/' !in name
    ensures Escape(name) == name
  {
    if name != "" {
      assert name == [name[0]] + name[1..];
      EscapeHead(name[0], name[1..]);
      PlainName(name[1..]);
    }
  }

  /** A modified record whose change list is empty differs in hash only: payload, metadata and
      splits are equal to Python, as when just the provenance changed. */
  lemma EmptyModification(before: Record, after: Record)
    ensures FieldChanges(Envelope(before), Envelope(after), "") == [] <==>
            SameValue(before.payload, after.payload) && SameValue(before.metadata, after.metadata) &&
            before.splits == after.splits
  {
    EverywhereSameValue();
    EmptyDiff(Envelope(before), Envelope(after));
    SplitsPyEqual(before.splits, after.splits);
    EnvelopesPyEqual(before, after);
  }

  lemma EnvelopesPyEqual(before: Record, after: Record)
    ensures PyEqual(Envelope(before), Envelope(after)) <==>
            PyEqual(before.payload, after.payload) && PyEqual(before.metadata, after.metadata) &&
            PyEqual(Arr(Map(AsJson(), before.splits)), Arr(Map(AsJson(), after.splits)))
  {
    var b, a := Envelope(before).members, Envelope(after).members;
    ObjectsPyEqual(b, a);
    assert b.Keys == {"payload", "metadata", "splits"} == a.Keys;
    assert b["payload"] == before.payload && a["payload"] == after.payload;
    assert b["metadata"] == before.metadata && a["metadata"] == after.metadata;
    assert b["splits"] == Arr(Map(AsJson(), before.splits)) && a["splits"] == Arr(Map(AsJson(), after.splits));
  }

  lemma SplitsPyEqual(a: seq<string>, b: seq<string>)
    ensures PyEqual(Arr(Map(AsJson(), a)), Arr(Map(AsJson(), b))) <==> a == b
  {
    CanonSplits(a);
    CanonSplits(b);
    if Map(AsJson(), a) == Map(AsJson(), b) {
      forall i | 0 <= i < |a| ensures a[i] == b[i] {
        assert Map(AsJson(), a)[i] == Map(AsJson(), b)[i];
      }
    }
  }

  lemma CanonSplits(splits: seq<string>)
    ensures Canon(Arr(Map(AsJson(), splits))) == Arr(Map(AsJson(), splits))
  {
    var items := Map(AsJson(), splits);
    var canon := Canon(Arr(items)).items;
    assert |canon| == |items|;
    forall i | 0 <= i < |items| ensures canon[i] == items[i] {
      assert items[i] == Str(splits[i]);
      assert canon[i] == Canon(items[i]);
    }
    assert canon == items;
  }

  // ---------- direction ----------

  function Flip(): FieldChange -> FieldChange { (c: FieldChange) => FieldChange(c.pointer, c.after, c.before) }

  /** Diffing the other way round swaps before and after in every change, and nothing else. */
  lemma {:induction false} FieldChangesFlip(before: Json, after: Json, pointer: string)
    ensures FieldChanges(after, before, pointer) == Map(Flip(), FieldChanges(before, after, pointer))
    decreases before, 1, 0
  {
    if !PyEqual(before, after) && before.Obj? && after.Obj? {
      var keys := before.members.Keys + after.members.Keys;
      assert after.members.Keys + before.members.Keys == keys;
      MemberChangesFlip(before, after, Listing(keys), pointer);
    }
  }

  lemma {:induction false} MemberChangesFlip(before: Json, after: Json, keys: seq<string>, pointer: string)
    requires before.Obj? && after.Obj?
    ensures MemberChanges(after, before, keys, pointer) == Map(Flip(), MemberChanges(before, after, keys, pointer))
    decreases before, 0, |keys|
  {
    if keys != [] {
      var n := |keys| - 1;
      MemberChangesFlip(before, after, keys[..n], pointer);
      if keys[n] in before.members && keys[n] in after.members {
        FieldChangesFlip(before.members[keys[n]], after.members[keys[n]], pointer + "/" + Escape(keys[n]));
      }
      MapSplit(Flip(), MemberChanges(before, after, keys[..n], pointer), KeyChanges(before, after, keys[n], pointer));
    }
  }

  function FlipEntry(): RecordDiff -> RecordDiff {
    (d: RecordDiff) =>
      RecordDiff(d.key, match d.kind case Added => Removed case Removed => Added case k => k, Map(Flip(), d.changes))
  }

  /** Swapping the versions swaps added and removed, keeps modified and unchanged, and flips every
      field change. */
  lemma SwappedVersions(source: map<string, Record>, target: map<string, Record>)
    ensures Entries(target, source) == Map(FlipEntry(), Entries(source, target))
  {
    var keys := Listing(source.Keys + target.Keys);
    assert target.Keys + source.Keys == source.Keys + target.Keys;
    ListingLists(source.Keys + target.Keys);
    forall i | 0 <= i < |keys| ensures Entry(target, source)(keys[i]) == FlipEntry()(Entry(source, target)(keys[i])) {
      assert keys[i] in keys;
      FlippedEntry(source, target, keys[i]);
    }
  }

  lemma FlippedEntry(source: map<string, Record>, target: map<string, Record>, key: string)
    requires key in source || key in target
    ensures Entry(target, source)(key) == FlipEntry()(Entry(source, target)(key))
  {
    if key in source && key in target {
      FieldChangesFlip(Envelope(source[key]), Envelope(target[key]), "");
    }
  }
}
