/**
 * The JSON key/value bag stored in the `kvstore`/`kwstore` column, and the
 * three SQLite JSON functions the stores use on it: `json_patch` (the merge
 * of RFC 7396 section 2), `json_set` (overwrite) and `json_insert` (only add
 * missing keys). Values are scalars: the stores never nest objects.
 */
module JsonBag {
  datatype Value = JNull | JBool(b: bool) | JInt(i: int) | JStr(s: string)

  type Bag = map<string, Value>

  /** A bag as stored after a merge: RFC 7396 never leaves a null member. */
  predicate NoNulls(b: Bag) { forall k :: k in b ==> b[k] != JNull }

  /** `json_patch(target, patch)`: patch members win, a null member deletes the key. */
  function Patch(target: Bag, patch: Bag): (r: Bag)
    ensures forall k :: k in patch && patch[k] != JNull ==> k in r && r[k] == patch[k]
    ensures forall k :: k in patch && patch[k] == JNull ==> k !in r
    ensures forall k :: k !in patch ==> (k in r <==> k in target)
    ensures forall k :: k !in patch && k in target ==> r[k] == target[k]
  {
    map k | k in (target.Keys + patch.Keys) && (k in patch ==> patch[k] != JNull)
      :: if k in patch then patch[k] else target[k]
  }

  /** `json_set(bag, '$.k', v, ...)`: every given key takes its new value, null included. */
  function Set(bag: Bag, updates: Bag): (r: Bag)
    ensures r.Keys == bag.Keys + updates.Keys
    ensures forall k :: k in updates ==> r[k] == updates[k]
    ensures forall k :: k in bag && k !in updates ==> r[k] == bag[k]
  {
    bag + updates
  }

  /** `json_insert(bag, '$.k', v, ...)`: a key already present keeps its value. */
  function Insert(bag: Bag, updates: Bag): (r: Bag)
    ensures r.Keys == bag.Keys + updates.Keys
    ensures forall k :: k in bag ==> r[k] == bag[k]
    ensures forall k :: k in updates && k !in bag ==> r[k] == updates[k]
  {
    updates + bag
  }

  /** Members of `b` without the null ones. */
  function DropNulls(b: Bag): (r: Bag)
    ensures NoNulls(r) && r.Keys <= b.Keys
    ensures forall k :: k in b && b[k] != JNull ==> k in r && r[k] == b[k]
  {
    map k | k in b && b[k] != JNull :: b[k]
  }

  lemma PatchKeepsNoNulls(target: Bag, patch: Bag)
    requires NoNulls(target)
    ensures NoNulls(Patch(target, patch))
  {
    var r := Patch(target, patch);
    forall k | k in r ensures r[k] != JNull {
      if k !in patch { assert r[k] == target[k]; }
    }
  }

  lemma PatchWithEmpty(target: Bag)
    requires NoNulls(target)
    ensures Patch(target, map[]) == target
  {}

  /** Patching onto `{}` keeps exactly the non-null members. */
  lemma PatchOntoEmpty(patch: Bag)
    ensures Patch(map[], patch) == DropNulls(patch)
  {}

  /** Applying the same merge patch twice changes nothing more (RFC 7396 is idempotent). */
  lemma PatchIdempotent(target: Bag, patch: Bag)
    ensures Patch(Patch(target, patch), patch) == Patch(target, patch)
  {
    var once := Patch(target, patch);
    var twice := Patch(once, patch);
    assert twice.Keys == once.Keys;
    forall k | k in once ensures twice[k] == once[k] {}
  }

  /**
   * Two merges in a row equal one merge with the dictionaries combined the way
   * Python's `dict.update` combines them: the later value of a key wins.
   */
  lemma PatchCompose(target: Bag, p1: Bag, p2: Bag)
    ensures Patch(Patch(target, p1), p2) == Patch(target, p1 + p2)
  {
    var lhs := Patch(Patch(target, p1), p2);
    var rhs := Patch(target, p1 + p2);
    assert lhs.Keys == rhs.Keys;
    forall k | k in lhs ensures lhs[k] == rhs[k] {}
  }

  /**
   * `json_patch(stored, json_patch(incoming, stored))`: existing members win, and only
   * the non-null new members whose key is missing are added.
   */
  lemma PatchExistingWins(stored: Bag, incoming: Bag)
    requires NoNulls(stored)
    ensures Patch(stored, Patch(incoming, stored)) == Insert(stored, DropNulls(incoming))
  {
    var lhs := Patch(stored, Patch(incoming, stored));
    var rhs := Insert(stored, DropNulls(incoming));
    forall k ensures (k in lhs <==> k in rhs) && (k in lhs ==> lhs[k] == rhs[k]) {
      if k in stored { assert stored[k] != JNull; }
    }
    assert lhs == rhs;
  }

  /** `json_set` followed by `json_insert` of the same key: the set value stays. */
  lemma InsertAfterSet(bag: Bag, updates: Bag, later: Bag)
    ensures forall k :: k in updates ==> Insert(Set(bag, updates), later)[k] == updates[k]
  {}
}
