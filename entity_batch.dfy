/**
 * EntityBatch: changes to the entity table staged in Python dictionaries and
 * applied in a fixed order by `commit`, and the `name_strings` pass that
 * stages a display name for every string entity through a batch.
 */
module EntityBatches {
  import opened Wrappers
  import opened JsonBag
  import opened Bytes
  import opened PyDict
  import opened CompareDb
  import EntityName
  import TextCodec

  /** One of the staging dictionaries, address -> accumulated keyword arguments. */
  type Staged = Dict<int, Bag>

  /** `d.setdefault(addr, {}).update(kwargs)`: later keywords win, earlier ones stay. */
  function Stage(d: Staged, addr: int, kwargs: Bag): (r: Staged)
    requires DistinctKeys(d)
    ensures DistinctKeys(r)
    ensures Get(r, addr) == Some(Get(d, addr).GetOr(map[]) + kwargs)
    ensures forall a :: a != addr ==> Get(r, a) == Get(d, a)
    ensures HasKey(d, addr) ==> Keys(r) == Keys(d)
    ensures !HasKey(d, addr) ==> Keys(r) == Keys(d) + [addr]
  {
    Put(d, addr, Get(d, addr).GetOr(map[]) + kwargs)
  }

  /** Two stagings at one address are one staging of the merged keywords, in place. */
  lemma StageAccumulates(d: Staged, addr: int, k1: Bag, k2: Bag)
    requires DistinctKeys(d)
    ensures Stage(Stage(d, addr, k1), addr, k2) == Stage(d, addr, k1 + k2)
  {
    var prev := Get(d, addr).GetOr(map[]);
    assert prev + k1 + k2 == prev + (k1 + k2);
    PutTwice(d, addr, prev + k1, prev + k1 + k2);
  }

  /** `EntityType(kwargs["type"])` when the keyword is truthy; ValueError for an unknown value. */
  function TypeTag(kwargs: Bag): (r: Result<Option<EntityType>>)
    ensures r.Err? ==> "type" in kwargs && Truthy(kwargs["type"])
    ensures r.Ok? && r.value.Some? ==> "type" in kwargs && kwargs["type"] == TypeJson(r.value.value)
    ensures r == Ok(None) <==> !("type" in kwargs && Truthy(kwargs["type"]))
  {
    if "type" in kwargs && Truthy(kwargs["type"]) then
      match kwargs["type"]
      case JStr(s) =>
        (match TypeFromValue(s) case Some(t) => Ok(Some(t)) case None => Err(ValueError))
      case _ => Err(ValueError)
    else Ok(None)
  }

  /** The `_types`/`_labels` side effect of a staging call for image `img` (0 orig, 1 recomp). */
  function Note(types: map<(int, int), EntityType>, labels: map<(int, int), Value>, img: int, addr: int, kwargs: Bag)
    : (r: Result<(map<(int, int), EntityType>, map<(int, int), Value>)>)
    requires TypeTag(kwargs).Ok?
    ensures r.Ok?
    ensures TypeTag(kwargs).value.Some? ==> r.value.0 == types[(img, addr) := TypeTag(kwargs).value.value]
    ensures TypeTag(kwargs).value.None? ==> r.value.0 == types
    ensures "name" in kwargs && Truthy(kwargs["name"]) ==> r.value.1 == labels[(img, addr) := kwargs["name"]]
    ensures !("name" in kwargs && Truthy(kwargs["name"])) ==> r.value.1 == labels
  {
    var types' := match TypeTag(kwargs).value case Some(t) => types[(img, addr) := t] case None => types;
    var labels' := if "name" in kwargs && Truthy(kwargs["name"]) then labels[(img, addr) := kwargs["name"]] else labels;
    Ok((types', labels'))
  }

  // ---- the match staging ----

  /** Every staged orig->recomp pair is recorded in the reverse dictionary. */
  ghost predicate Linked(o2r: Dict<int, int>, r2o: Dict<int, int>)
  {
    forall o :: Get(o2r, o).Some? ==> Get(r2o, Get(o2r, o).value) == Some(o)
  }

  ghost predicate Injective(o2r: Dict<int, int>)
  {
    forall o1, o2 :: Get(o2r, o1).Some? && Get(o2r, o1) == Get(o2r, o2) ==> o1 == o2
  }

  lemma LinkedInjective(o2r: Dict<int, int>, r2o: Dict<int, int>)
    requires Linked(o2r, r2o)
    ensures Injective(o2r)
  {
    forall o1, o2 | Get(o2r, o1).Some? && Get(o2r, o1) == Get(o2r, o2) ensures o1 == o2 {
      assert Get(r2o, Get(o2r, o1).value) == Some(o1);
      assert Get(r2o, Get(o2r, o2).value) == Some(o2);
    }
  }

  /**
   * `match(orig, recomp)` as written: an earlier claim on `recomp` is dropped
   * (found through the reverse dictionary), then the pair is recorded both ways.
   */
  function StageMatch(o2r: Dict<int, int>, r2o: Dict<int, int>, orig: int, recomp: int): (r: (Dict<int, int>, Dict<int, int>))
    requires DistinctKeys(o2r) && DistinctKeys(r2o)
    ensures DistinctKeys(r.0) && DistinctKeys(r.1)
    ensures Get(r.0, orig) == Some(recomp) && Get(r.1, recomp) == Some(orig)
    ensures forall x :: x != recomp ==> Get(r.1, x) == Get(r2o, x)
    ensures Get(r2o, recomp).Some? && Get(r2o, recomp).value != orig ==> Get(r.0, Get(r2o, recomp).value).None?
    ensures forall o :: o != orig && Get(r2o, recomp) != Some(o) ==> Get(r.0, o) == Get(o2r, o)
  {
    var used := Get(r2o, recomp);
    var o2r' := if used.Some? then Remove(o2r, used.value) else o2r;
    assert forall o :: used != Some(o) ==> Get(o2r', o) == Get(o2r, o);
    (Put(o2r', orig, recomp), Put(Remove(r2o, recomp), recomp, orig))
  }

  /** The staged orig->recomp dictionary stays injective: no recomp address is claimed twice. */
  lemma StageMatchKeepsLinked(o2r: Dict<int, int>, r2o: Dict<int, int>, orig: int, recomp: int)
    requires DistinctKeys(o2r) && DistinctKeys(r2o) && Linked(o2r, r2o)
    ensures Linked(StageMatch(o2r, r2o, orig, recomp).0, StageMatch(o2r, r2o, orig, recomp).1)
    ensures Injective(StageMatch(o2r, r2o, orig, recomp).0)
    ensures forall o :: o != orig && Get(o2r, o) == Some(recomp) ==> Get(StageMatch(o2r, r2o, orig, recomp).0, o).None?
  {
    var res := StageMatch(o2r, r2o, orig, recomp);
    forall o | Get(res.0, o).Some? ensures Get(res.1, Get(res.0, o).value) == Some(o) {
      if o != orig {
        assert Get(r2o, recomp) != Some(o);
        var x := Get(o2r, o).value;
        assert Get(r2o, x) == Some(o);
      }
    }
    LinkedInjective(res.0, res.1);
  }

  /**
   * The staging with the earlier claim of `orig` released as well: when `orig`
   * was already paired, its old recomp address leaves the reverse dictionary,
   * so a later claim on that address cannot drop this pair.
   */
  function StageMatchFixed(o2r: Dict<int, int>, r2o: Dict<int, int>, orig: int, recomp: int): (r: (Dict<int, int>, Dict<int, int>))
    requires DistinctKeys(o2r) && DistinctKeys(r2o)
    ensures DistinctKeys(r.0) && DistinctKeys(r.1)
    ensures Get(r.0, orig) == Some(recomp) && Get(r.1, recomp) == Some(orig)
    ensures forall x :: x != recomp && Get(o2r, orig) != Some(x) ==> Get(r.1, x) == Get(r2o, x)
    ensures Get(o2r, orig).Some? && Get(o2r, orig).value != recomp ==> Get(r.1, Get(o2r, orig).value).None?
    ensures forall o :: o != orig && Get(r2o, recomp) != Some(o) ==> Get(r.0, o) == Get(o2r, o)
  {
    var prev := Get(o2r, orig);
    var r2o0 := if prev.Some? then Remove(r2o, prev.value) else r2o;
    var used := Get(r2o0, recomp);
    var o2r' := if used.Some? then Remove(o2r, used.value) else o2r;
    assert used.Some? ==> Get(r2o, recomp) == used;
    (Put(o2r', orig, recomp), Put(Remove(r2o0, recomp), recomp, orig))
  }

  /**
   * With both dictionaries kept inverse to each other, the corrected staging
   * keeps them inverse, and a pair survives unless its recomp address is
   * claimed again or its orig address is paired again.
   */
  lemma StageMatchFixedKeepsInverse(o2r: Dict<int, int>, r2o: Dict<int, int>, orig: int, recomp: int)
    requires DistinctKeys(o2r) && DistinctKeys(r2o) && Linked(o2r, r2o) && Linked(r2o, o2r)
    ensures Linked(StageMatchFixed(o2r, r2o, orig, recomp).0, StageMatchFixed(o2r, r2o, orig, recomp).1)
    ensures Linked(StageMatchFixed(o2r, r2o, orig, recomp).1, StageMatchFixed(o2r, r2o, orig, recomp).0)
    ensures forall o :: o != orig && Get(o2r, o).Some? && Get(o2r, o) != Some(recomp) ==>
      Get(StageMatchFixed(o2r, r2o, orig, recomp).0, o) == Get(o2r, o)
  {
    var res := StageMatchFixed(o2r, r2o, orig, recomp);
    var prev := Get(o2r, orig);
    forall o | Get(res.0, o).Some? ensures Get(res.1, Get(res.0, o).value) == Some(o) {
      if o != orig {
        assert Get(r2o, recomp) != Some(o);
        var x := Get(o2r, o).value;
        assert Get(r2o, x) == Some(o);
        if prev.Some? { assert Get(r2o, prev.value) == Some(orig); }
      }
    }
    forall x | Get(res.1, x).Some? ensures Get(res.0, Get(res.1, x).value) == Some(x) {
      if x != recomp {
        assert Get(o2r, orig) != Some(x);
        var o := Get(r2o, x).value;
        assert Get(o2r, o) == Some(x);
        assert Get(r2o, recomp) != Some(o);
      }
    }
  }

  /** As written, re-pairing an orig address and then re-claiming its first recomp address loses the second pair. */
  lemma StageMatchDropsRepairedOrig()
    ensures var s1 := StageMatch([], [], 1, 10);
            var s2 := StageMatch(s1.0, s1.1, 1, 20);
            var s3 := StageMatch(s2.0, s2.1, 3, 10);
            Get(s2.0, 1) == Some(20) && Get(s3.0, 1).None?
  {
    var s1 := StageMatch([], [], 1, 10);
    var s2 := StageMatch(s1.0, s1.1, 1, 20);
    assert Get(s2.1, 10) == Some(1);
  }

  /** The corrected staging keeps that pair. */
  lemma StageMatchFixedKeepsRepairedOrig()
    ensures var s1 := StageMatchFixed([], [], 1, 10);
            var s2 := StageMatchFixed(s1.0, s1.1, 1, 20);
            var s3 := StageMatchFixed(s2.0, s2.1, 3, 10);
            Get(s3.0, 1) == Some(20) && Get(s3.0, 3) == Some(10)
  {
    var s1 := StageMatchFixed([], [], 1, 10);
    var s2 := StageMatchFixed(s1.0, s1.1, 1, 20);
    assert Get(s2.1, 10).None?;
    var s3 := StageMatchFixed(s2.0, s2.1, 3, 10);
    assert Get(s2.1, 10) != Some(1);
  }

  // ---- commit ----

  /** The table once inserts, upserts and matches have run (in that order). */
  function Staged5(t: Table, oi: Staged, ri: Staged, o: Staged, r: Staged, m: Dict<int, int>): (t': Table)
    requires WellFormed(t)
    ensures WellFormed(t')
  {
    MatchAll(InsertRecompAll(InsertOrigAll(InsertRecompAll(InsertOrigAll(t, oi, false), ri, false), o, true), r, true), m)
  }

  /**
   * The table after `commit` and whether it succeeded. `bulk_match` opens its
   * own `with` block, which commits the work so far; so when the later
   * set_recomp_addr statement raises IntegrityError, the rollback only undoes
   * the work after the matches, or everything when there were no matches.
   */
  function CommitTable(t: Table, oi: Staged, ri: Staged, o: Staged, r: Staged, m: Dict<int, int>, ra: Dict<int, int>)
    : (res: (Table, bool))
    requires WellFormed(t)
    ensures WellFormed(res.0)
    ensures res.1 <==> SetRecompAddrAll(Staged5(t, oi, ri, o, r, m), ra).Ok?
    ensures res.1 ==> res.0 == SetRecompAddrAll(Staged5(t, oi, ri, o, r, m), ra).value
    ensures !res.1 && |m| > 0 ==> res.0 == Staged5(t, oi, ri, o, r, m)
    ensures !res.1 && |m| == 0 ==> res.0 == t
  {
    var s := Staged5(t, oi, ri, o, r, m);
    match SetRecompAddrAll(s, ra)
    case Ok(t') => (t', true)
    case Err(_) => (if |m| > 0 then s else t, false)
  }

  /** The labels table after a successful commit, as written: only when some type was staged. */
  function LabelsAfter(labels0: map<(int, int), Value>, types: map<(int, int), EntityType>, labels: map<(int, int), Value>)
    : (r: map<(int, int), Value>)
    ensures types == map[] ==> r == labels0
    ensures types != map[] ==> r.Keys == labels0.Keys + labels.Keys && forall k :: k in labels ==> r[k] == labels[k]
  {
    if types != map[] then labels0 + labels else labels0
  }

  /** The evidently intended labels step: every staged label is written. */
  function LabelsIntended(labels0: map<(int, int), Value>, labels: map<(int, int), Value>)
    : (r: map<(int, int), Value>)
    ensures r.Keys == labels0.Keys + labels.Keys
    ensures forall k :: k in labels ==> r[k] == labels[k]
    ensures forall k :: k in labels0 && k !in labels ==> r[k] == labels0[k]
  {
    labels0 + labels
  }

  /** A label staged without a type never reaches the table as written. */
  lemma LabelWithoutTypeIsLost(labels0: map<(int, int), Value>, k: (int, int), v: Value)
    requires k !in labels0
    ensures k !in LabelsAfter(labels0, map[], map[k := v])
    ensures k in LabelsIntended(labels0, map[k := v]) && LabelsIntended(labels0, map[k := v])[k] == v
  {}

  // ---- the pending changes as a value ----

  /** The contents of a batch's staging dictionaries, as passes describe them. */
  datatype Pending = Pending(
    origInsert: Staged, recompInsert: Staged, origSet: Staged, recompSet: Staged,
    labels: map<(int, int), Value>, types: map<(int, int), EntityType>,
    origToRecomp: Dict<int, int>, recompToOrig: Dict<int, int>, recompAddr: Dict<int, int>)

  const NoPending := Pending([], [], [], [], map[], map[], [], [], [])

  ghost predicate PendingValid(p: Pending)
  {
    && DistinctKeys(p.origInsert) && DistinctKeys(p.recompInsert)
    && DistinctKeys(p.origSet) && DistinctKeys(p.recompSet)
    && DistinctKeys(p.origToRecomp) && DistinctKeys(p.recompToOrig) && DistinctKeys(p.recompAddr)
    && Linked(p.origToRecomp, p.recompToOrig)
  }

  lemma NoPendingValid()
    ensures PendingValid(NoPending)
  {}

  /** Which staging dictionary a call writes: insert_orig, insert_recomp, set_orig or set_recomp. */
  datatype StageKind = InsertOrigKind | InsertRecompKind | SetOrigKind | SetRecompKind

  /** A staging call on the value: the dictionary it names, and the type and label side tables. */
  function PStage(p: Pending, kind: StageKind, addr: int, kwargs: Bag): (r: Pending)
    requires PendingValid(p) && TypeTag(kwargs).Ok?
    ensures PendingValid(r)
  {
    var img := if kind == InsertOrigKind || kind == SetOrigKind then 0 else 1;
    var n := Note(p.types, p.labels, img, addr, kwargs).value;
    var p' := p.(types := n.0, labels := n.1);
    match kind
    case InsertOrigKind => p'.(origInsert := Stage(p.origInsert, addr, kwargs))
    case InsertRecompKind => p'.(recompInsert := Stage(p.recompInsert, addr, kwargs))
    case SetOrigKind => p'.(origSet := Stage(p.origSet, addr, kwargs))
    case SetRecompKind => p'.(recompSet := Stage(p.recompSet, addr, kwargs))
  }

  /** `match(orig, recomp)` on the value. */
  function PMatch(p: Pending, orig: int, recomp: int): (r: Pending)
    requires PendingValid(p)
    ensures PendingValid(r)
  {
    StageMatchKeepsLinked(p.origToRecomp, p.recompToOrig, orig, recomp);
    var m := StageMatch(p.origToRecomp, p.recompToOrig, orig, recomp);
    p.(origToRecomp := m.0, recompToOrig := m.1)
  }

  /** The table and outcome of committing pending changes. */
  function CommitPending(t: Table, p: Pending): (res: (Table, bool))
    requires WellFormed(t)
    ensures WellFormed(res.0)
  {
    CommitTable(t, p.origInsert, p.recompInsert, p.origSet, p.recompSet, p.origToRecomp, p.recompAddr)
  }

  class EntityBatch {
    const base: EntityDb
    var origInsert: Staged      // inserted only if the orig address is unused
    var recompInsert: Staged    // inserted only if the recomp address is unused
    var origSet: Staged         // upserted on the orig address
    var recompSet: Staged       // upserted on the recomp address
    var labels: map<(int, int), Value>
    var types: map<(int, int), EntityType>
    var origToRecomp: Dict<int, int>
    var recompToOrig: Dict<int, int>
    var recompAddr: Dict<int, int>

    ghost predicate Valid() reads this, base
    {
      && base.Valid()
      && DistinctKeys(origInsert) && DistinctKeys(recompInsert)
      && DistinctKeys(origSet) && DistinctKeys(recompSet)
      && DistinctKeys(origToRecomp) && DistinctKeys(recompToOrig) && DistinctKeys(recompAddr)
      && Linked(origToRecomp, recompToOrig)
    }

    /** The pending changes as a value. */
    function Snapshot(): (p: Pending) reads this
    {
      Pending(origInsert, recompInsert, origSet, recompSet, labels, types, origToRecomp, recompToOrig, recompAddr)
    }

    predicate Empty() reads this
    {
      && origInsert == [] && recompInsert == [] && origSet == [] && recompSet == []
      && labels == map[] && types == map[]
      && origToRecomp == [] && recompToOrig == [] && recompAddr == []
    }

    constructor(db: EntityDb)
      requires db.Valid()
      ensures base == db && Valid() && Empty()
    {
      base := db;
      origInsert, recompInsert, origSet, recompSet := [], [], [], [];
      labels, types := map[], map[];
      origToRecomp, recompToOrig, recompAddr := [], [], [];
    }

    /** Clear all pending changes. */
    method Reset()
      requires Valid()
      modifies this
      ensures Valid() && Empty()
    {
      origInsert, recompInsert, origSet, recompSet := [], [], [], [];
      labels, types := map[], map[];
      origToRecomp, recompToOrig, recompAddr := [], [], [];
    }

    /** The shared tail of the four staging calls; false where `EntityType(...)` raises. */
    method NoteTypeAndLabel(img: int, addr: int, kwargs: Bag) returns (ok: bool)
      modifies this`types, this`labels
      ensures ok == TypeTag(kwargs).Ok?
      ensures ok ==> Note(old(types), old(labels), img, addr, kwargs) == Ok((types, labels))
      ensures !ok ==> types == old(types) && labels == old(labels)
    {
      var tag := TypeTag(kwargs);
      if tag.Err? {
        return false;
      }
      if tag.value.Some? {
        types := types[(img, addr) := tag.value.value];
      }
      if "name" in kwargs && Truthy(kwargs["name"]) {
        labels := labels[(img, addr) := kwargs["name"]];
      }
      return true;
    }

    method InsertOrig(addr: int, kwargs: Bag) returns (ok: bool)
      requires Valid()
      modifies this`origInsert, this`types, this`labels
      ensures Valid() && origInsert == Stage(old(origInsert), addr, kwargs)
      ensures ok == TypeTag(kwargs).Ok?
      ensures ok ==> Note(old(types), old(labels), 0, addr, kwargs) == Ok((types, labels))
      ensures !ok ==> types == old(types) && labels == old(labels)
    {
      origInsert := Stage(origInsert, addr, kwargs);
      ok := NoteTypeAndLabel(0, addr, kwargs);
    }

    method InsertRecomp(addr: int, kwargs: Bag) returns (ok: bool)
      requires Valid()
      modifies this`recompInsert, this`types, this`labels
      ensures Valid() && recompInsert == Stage(old(recompInsert), addr, kwargs)
      ensures ok == TypeTag(kwargs).Ok?
      ensures ok ==> Note(old(types), old(labels), 1, addr, kwargs) == Ok((types, labels))
      ensures !ok ==> types == old(types) && labels == old(labels)
    {
      recompInsert := Stage(recompInsert, addr, kwargs);
      ok := NoteTypeAndLabel(1, addr, kwargs);
    }

    method SetOrig(addr: int, kwargs: Bag) returns (ok: bool)
      requires Valid()
      modifies this`origSet, this`types, this`labels
      ensures Valid() && origSet == Stage(old(origSet), addr, kwargs)
      ensures ok == TypeTag(kwargs).Ok?
      ensures ok ==> Note(old(types), old(labels), 0, addr, kwargs) == Ok((types, labels))
      ensures !ok ==> types == old(types) && labels == old(labels)
    {
      origSet := Stage(origSet, addr, kwargs);
      ok := NoteTypeAndLabel(0, addr, kwargs);
    }

    method SetRecomp(addr: int, kwargs: Bag) returns (ok: bool)
      requires Valid()
      modifies this`recompSet, this`types, this`labels
      ensures Valid() && recompSet == Stage(old(recompSet), addr, kwargs)
      ensures ok == TypeTag(kwargs).Ok?
      ensures ok ==> Note(old(types), old(labels), 1, addr, kwargs) == Ok((types, labels))
      ensures !ok ==> types == old(types) && labels == old(labels)
    {
      recompSet := Stage(recompSet, addr, kwargs);
      ok := NoteTypeAndLabel(1, addr, kwargs);
    }

    method Match(orig: int, recomp: int)
      requires Valid()
      modifies this`origToRecomp, this`recompToOrig
      ensures Valid() && (origToRecomp, recompToOrig) == StageMatch(old(origToRecomp), old(recompToOrig), orig, recomp)
    {
      StageMatchKeepsLinked(origToRecomp, recompToOrig, orig, recomp);
      var staged := StageMatch(origToRecomp, recompToOrig, orig, recomp);
      origToRecomp, recompToOrig := staged.0, staged.1;
    }

    method SetRecompAddr(orig: int, recomp: int)
      requires Valid()
      modifies this`recompAddr
      ensures Valid() && recompAddr == Put(old(recompAddr), orig, recomp)
    {
      recompAddr := Put(recompAddr, orig, recomp);
    }

    /** The first five statements of commit: inserts, upserts, matches. */
    method ApplyUpToMatches()
      requires Valid()
      modifies base`table
      ensures Valid()
      ensures base.table == Staged5(old(base.table), origInsert, recompInsert, origSet, recompSet, origToRecomp)
    {
      base.BulkOrigInsert(origInsert, false);
      base.BulkRecompInsert(recompInsert, false);
      base.BulkOrigInsert(origSet, true);
      base.BulkRecompInsert(recompSet, true);
      base.BulkMatch(origToRecomp);
    }

    /**
     * Apply everything inside one transaction: inserts, upserts, matches,
     * recomp addresses, types, labels; then reset. On IntegrityError nothing
     * is reset and the tables are as the rollback leaves them.
     */
    method Commit() returns (ok: bool)
      requires Valid()
      modifies this, base`table, base`types, base`labels
      ensures Valid()
      ensures (base.table, ok) == CommitTable(old(base.table), old(origInsert), old(recompInsert), old(origSet),
                                              old(recompSet), old(origToRecomp), old(recompAddr))
      ensures ok ==> (base.types == old(base.types) + old(types)
                 && base.labels == LabelsAfter(old(base.labels), old(types), old(labels)) && Empty())
      ensures !ok ==> (base.types == old(base.types) && base.labels == old(base.labels)
                  && unchanged(this))
    {
      ok := ApplyTable();
      if !ok {
        return;
      }
      ApplyTypesAndLabels();
      Reset();
    }

    /**
     * The table statements of commit: on IntegrityError the rollback keeps
     * what the first matches already wrote when there were any.
     */
    method ApplyTable() returns (ok: bool)
      requires Valid()
      modifies base`table
      ensures Valid()
      ensures (base.table, ok) == CommitTable(old(base.table), origInsert, recompInsert, origSet,
                                              recompSet, origToRecomp, recompAddr)
    {
      var before := base.table;
      ApplyUpToMatches();
      var afterMatches := base.table;
      ok := base.BulkSetRecompAddr(recompAddr);
      if !ok {
        base.table := if |origToRecomp| > 0 then afterMatches else before;
      }
    }

    /** The types, then the labels only when some type was staged. */
    method ApplyTypesAndLabels()
      requires Valid()
      modifies base`types, base`labels
      ensures Valid()
      ensures base.types == old(base.types) + types && base.labels == LabelsAfter(old(base.labels), types, labels)
    {
      base.types := base.types + types;
      if types != map[] {
        base.labels := base.labels + labels;
      }
    }

    /** `__exit__`: an exception discards the pending changes, otherwise they are committed. */
    method Exit(raised: bool) returns (ok: bool)
      requires Valid()
      modifies this, base`table, base`types, base`labels
      ensures Valid()
      ensures raised ==> (ok && Empty() && base.table == old(base.table)
                     && base.types == old(base.types) && base.labels == old(base.labels))
      ensures !raised ==> (base.table, ok) == CommitTable(old(base.table), old(origInsert), old(recompInsert),
                                                         old(origSet), old(recompSet), old(origToRecomp), old(recompAddr))
      ensures !raised && ok ==> (base.types == old(base.types) + old(types)
                             && base.labels == LabelsAfter(old(base.labels), old(types), old(labels)))
      ensures !raised && !ok ==> base.types == old(base.types) && base.labels == old(base.labels)
    {
      if raised {
        Reset();
        return true;
      }
      ok := Commit();
    }
  }

  // ---- staging calls described by their effect on the pending value ----

  /** One insert or set call whose type keyword is valid. */
  method StageOn(batch: EntityBatch, kind: StageKind, addr: int, kwargs: Bag)
    requires batch.Valid() && TypeTag(kwargs).Ok?
    modifies batch
    ensures batch.Valid()
    ensures batch.Snapshot() == PStage(old(batch.Snapshot()), kind, addr, kwargs)
  {
    var ok;
    match kind
    case InsertOrigKind => ok := batch.InsertOrig(addr, kwargs);
    case InsertRecompKind => ok := batch.InsertRecomp(addr, kwargs);
    case SetOrigKind => ok := batch.SetOrig(addr, kwargs);
    case SetRecompKind => ok := batch.SetRecomp(addr, kwargs);
  }

  /** One `match(orig, recomp)` call. */
  method MatchOn(batch: EntityBatch, orig: int, recomp: int)
    requires batch.Valid()
    modifies batch
    ensures batch.Valid()
    ensures batch.Snapshot() == PMatch(old(batch.Snapshot()), orig, recomp)
  {
    batch.Match(orig, recomp);
  }

  /** Leaving a `with` block normally: the pending changes are committed. */
  method CommitOn(batch: EntityBatch) returns (ok: bool)
    requires batch.Valid()
    modifies batch, batch.base`table, batch.base`types, batch.base`labels
    ensures batch.Valid()
    ensures (batch.base.table, ok) == CommitPending(old(batch.base.table), old(batch.Snapshot()))
    ensures ok ==> (batch.base.types == old(batch.base.types) + old(batch.Snapshot()).types
      && batch.base.labels == LabelsAfter(old(batch.base.labels), old(batch.Snapshot()).types, old(batch.Snapshot()).labels))
    ensures !ok ==> batch.base.types == old(batch.base.types) && batch.base.labels == old(batch.base.labels)
  {
    ok := batch.Exit(false);
  }

  /** Leaving a `with` block by an exception: nothing is committed. */
  method DiscardOn(batch: EntityBatch)
    requires batch.Valid()
    modifies batch
    ensures batch.Valid() && batch.Empty()
  {
    batch.Reset();
  }

  /** Every row's keywords carry a valid type (or none). */
  predicate TypesValid(rows: seq<(int, Bag)>)
  {
    forall i :: 0 <= i < |rows| ==> TypeTag(rows[i].1).Ok?
  }

  /** A run of staging calls of one kind, in order. */
  function PStageAll(p: Pending, kind: StageKind, rows: seq<(int, Bag)>): (r: Pending)
    requires PendingValid(p) && TypesValid(rows)
    ensures PendingValid(r)
  {
    if rows == [] then p
    else
      var last := rows[|rows| - 1];
      PStage(PStageAll(p, kind, rows[..|rows| - 1]), kind, last.0, last.1)
  }

  /** A run of match calls, in order. */
  function PMatchAll(p: Pending, pairs: seq<(int, int)>): (r: Pending)
    requires PendingValid(p)
    ensures PendingValid(r)
  {
    if pairs == [] then p
    else
      var last := pairs[|pairs| - 1];
      PMatch(PMatchAll(p, pairs[..|pairs| - 1]), last.0, last.1)
  }

  /** Staging calls touch only their own dictionary and the type and label tables. */
  lemma {:induction false} PStageAllFrame(p: Pending, kind: StageKind, rows: seq<(int, Bag)>)
    requires PendingValid(p) && TypesValid(rows)
    ensures var r := PStageAll(p, kind, rows);
      && r.origToRecomp == p.origToRecomp && r.recompToOrig == p.recompToOrig && r.recompAddr == p.recompAddr
      && (kind != InsertOrigKind ==> r.origInsert == p.origInsert)
      && (kind != InsertRecompKind ==> r.recompInsert == p.recompInsert)
      && (kind != SetOrigKind ==> r.origSet == p.origSet)
      && (kind != SetRecompKind ==> r.recompSet == p.recompSet)
  {
    if rows != [] {
      PStageAllFrame(p, kind, rows[..|rows| - 1]);
    }
  }

  /** Match calls touch only the two match dictionaries. */
  lemma {:induction false} PMatchAllFrame(p: Pending, pairs: seq<(int, int)>)
    requires PendingValid(p)
    ensures PMatchAll(p, pairs) == p.(origToRecomp := PMatchAll(p, pairs).origToRecomp,
                                      recompToOrig := PMatchAll(p, pairs).recompToOrig)
  {
    if pairs != [] {
      PMatchAllFrame(p, pairs[..|pairs| - 1]);
    }
  }

  lemma PStageAllStep(p: Pending, kind: StageKind, rows: seq<(int, Bag)>, i: nat)
    requires PendingValid(p) && TypesValid(rows) && i < |rows|
    ensures TypesValid(rows[..i]) && TypesValid(rows[..i + 1]) && TypeTag(rows[i].1).Ok?
    ensures PStageAll(p, kind, rows[..i + 1]) == PStage(PStageAll(p, kind, rows[..i]), kind, rows[i].0, rows[i].1)
  {
    assert rows[..i + 1][..i] == rows[..i];
  }

  /** A loop of staging calls of one kind. */
  method StageAllOn(batch: EntityBatch, kind: StageKind, rows: seq<(int, Bag)>)
    requires batch.Valid() && TypesValid(rows)
    modifies batch
    ensures batch.Valid()
    ensures batch.Snapshot() == PStageAll(old(batch.Snapshot()), kind, rows)
  {
    ghost var p0 := batch.Snapshot();
    var i := 0;
    while i < |rows|
      invariant 0 <= i <= |rows|
      invariant batch.Valid()
      invariant batch.Snapshot() == PStageAll(p0, kind, rows[..i])
    {
      PStageAllStep(p0, kind, rows, i);
      StageOn(batch, kind, rows[i].0, rows[i].1);
      i := i + 1;
    }
    assert rows[..|rows|] == rows;
  }

  /** A loop of match calls. */
  method MatchAllOn(batch: EntityBatch, pairs: seq<(int, int)>)
    requires batch.Valid()
    modifies batch
    ensures batch.Valid()
    ensures batch.Snapshot() == PMatchAll(old(batch.Snapshot()), pairs)
  {
    ghost var p0 := batch.Snapshot();
    var i := 0;
    while i < |pairs|
      invariant 0 <= i <= |pairs|
      invariant batch.Valid()
      invariant batch.Snapshot() == PMatchAll(p0, pairs[..i])
    {
      assert pairs[..i + 1][..i] == pairs[..i];
      MatchOn(batch, pairs[i].0, pairs[i].1);
      i := i + 1;
    }
    assert pairs[..|pairs|] == pairs;
  }

  // ---- name_strings ----

  /** One row of the string/raw join: orig_addr, recomp_addr, raw.data and the `wide` flag. */
  datatype JoinRow = JoinRow(orig: Option<int>, recomp: Option<int>, raw: byteseq, wide: Value)

  /** `coalesce(json_extract(kvstore, '$.wide'), 0)`. */
  function WideFlag(kv: Bag): (v: Value)
    ensures v != JNull
  {
    if "wide" in kv && kv["wide"] != JNull then kv["wide"] else JInt(0)
  }

  /** All rows the join query can return: a STRING entity joined with the raw bytes at either of its addresses. */
  ghost function JoinSet(t: Table, raw: map<(int, int), byteseq>): set<JoinRow>
  {
    (set o | o in t.origRows && OfType(t.origRows[o], STRING) && (0, o) in raw ::
       JoinRow(Some(o), if o in t.recompOf then Some(t.recompOf[o]) else None, raw[(0, o)], WideFlag(t.origRows[o])))
    + (set o | o in t.recompOf && o in t.origRows && OfType(t.origRows[o], STRING) && (1, t.recompOf[o]) in raw ::
       JoinRow(Some(o), Some(t.recompOf[o]), raw[(1, t.recompOf[o])], WideFlag(t.origRows[o])))
    + (set r | r in t.recompRows && OfType(t.recompRows[r], STRING) && (1, r) in raw ::
       JoinRow(None, Some(r), raw[(1, r)], WideFlag(t.recompRows[r])))
  }

  /** `b[:-n]`. */
  function DropLast(b: byteseq, n: nat): (r: byteseq)
    ensures |r| == if |b| >= n then |b| - n else 0
    ensures r == b[..|r|]
  {
    if |b| >= n then b[..|b| - n] else []
  }

  /** Strip the terminator and decode; None where Python raises UnicodeDecodeError. */
  function DecodeRow(row: JoinRow): (r: Option<string>)
    ensures !Truthy(row.wide) ==> r == Some(TextCodec.DecodeLatin1(DropLast(row.raw, 1)))
    ensures Truthy(row.wide) ==> r == TextCodec.DecodeUtf16Le(DropLast(row.raw, 2))
  {
    if Truthy(row.wide) then TextCodec.DecodeUtf16Le(DropLast(row.raw, 2))
    else Some(TextCodec.DecodeLatin1(DropLast(row.raw, 1)))
  }

  /** The keyword arguments staged for a decodable row. */
  function NameKwargs(text: string, wide: bool): Bag
  {
    map["name" := JStr(EntityName.EntityNameFromString(text, wide))]
  }

  /** The staging one row of the join causes, on the (orig, recomp) upsert dictionaries. */
  function NameStep(st: (Staged, Staged), row: JoinRow): (r: (Staged, Staged))
    requires DistinctKeys(st.0) && DistinctKeys(st.1)
    ensures DistinctKeys(r.0) && DistinctKeys(r.1)
  {
    match DecodeRow(row)
    case None => st
    case Some(text) =>
      var kw := NameKwargs(text, Truthy(row.wide));
      if row.orig.Some? then (Stage(st.0, row.orig.value, kw), st.1)
      else if row.recomp.Some? then (st.0, Stage(st.1, row.recomp.value, kw))
      else st
  }

  function NamesStaged(rows: seq<JoinRow>): (r: (Staged, Staged))
    ensures DistinctKeys(r.0) && DistinctKeys(r.1)
  {
    if rows == [] then ([], []) else NameStep(NamesStaged(rows[..|rows| - 1]), rows[|rows| - 1])
  }

  /** A row names the orig address `a` with `bag`. */
  predicate NamesOrig(row: JoinRow, a: int, bag: Bag)
  {
    row.orig == Some(a) && DecodeRow(row).Some? && bag == NameKwargs(DecodeRow(row).value, Truthy(row.wide))
  }

  predicate NamesRecomp(row: JoinRow, a: int, bag: Bag)
  {
    row.orig.None? && row.recomp == Some(a) && DecodeRow(row).Some?
      && bag == NameKwargs(DecodeRow(row).value, Truthy(row.wide))
  }

  /**
   * Every bag staged on the orig side is exactly one `name` keyword: the
   * entity name of a decodable row for that orig address (the last one).
   */
  lemma {:induction false} NamesStagedOrig(rows: seq<JoinRow>)
    ensures forall a :: Get(NamesStaged(rows).0, a).Some? ==>
      exists i :: 0 <= i < |rows| && NamesOrig(rows[i], a, Get(NamesStaged(rows).0, a).value)
  {
    if rows != [] {
      var pre := rows[..|rows| - 1];
      var row := rows[|rows| - 1];
      NamesStagedOrig(pre);
      var st := NamesStaged(pre);
      var r := NamesStaged(rows);
      forall a | Get(r.0, a).Some?
        ensures exists i :: 0 <= i < |rows| && NamesOrig(rows[i], a, Get(r.0, a).value)
      {
        if DecodeRow(row).Some? && row.orig == Some(a) {
          var kw := NameKwargs(DecodeRow(row).value, Truthy(row.wide));
          assert r.0 == Stage(st.0, a, kw);
          StageOverName(st.0, a, kw);
          assert NamesOrig(rows[|rows| - 1], a, Get(r.0, a).value);
        } else {
          assert Get(r.0, a) == Get(st.0, a);
          var i :| 0 <= i < |pre| && NamesOrig(pre[i], a, Get(st.0, a).value);
          assert rows[i] == pre[i];
        }
      }
    }
  }

  /** The same for the recomp side, which only recomp-only rows reach. */
  lemma {:induction false} NamesStagedRecomp(rows: seq<JoinRow>)
    ensures forall a :: Get(NamesStaged(rows).1, a).Some? ==>
      exists i :: 0 <= i < |rows| && NamesRecomp(rows[i], a, Get(NamesStaged(rows).1, a).value)
  {
    if rows != [] {
      var pre := rows[..|rows| - 1];
      var row := rows[|rows| - 1];
      NamesStagedRecomp(pre);
      var st := NamesStaged(pre);
      var r := NamesStaged(rows);
      forall a | Get(r.1, a).Some?
        ensures exists i :: 0 <= i < |rows| && NamesRecomp(rows[i], a, Get(r.1, a).value)
      {
        if DecodeRow(row).Some? && row.orig.None? && row.recomp == Some(a) {
          var kw := NameKwargs(DecodeRow(row).value, Truthy(row.wide));
          assert r.1 == Stage(st.1, a, kw);
          StageOverName(st.1, a, kw);
          assert NamesRecomp(rows[|rows| - 1], a, Get(r.1, a).value);
        } else {
          assert Get(r.1, a) == Get(st.1, a);
          var i :| 0 <= i < |pre| && NamesRecomp(pre[i], a, Get(st.1, a).value);
          assert rows[i] == pre[i];
        }
      }
    }
  }

  /** A `name` keyword staged over bags that only hold a `name` replaces it whole. */
  lemma StageOverName(d: Staged, a: int, kw: Bag)
    requires DistinctKeys(d) && kw.Keys == {"name"}
    requires Get(d, a).Some? ==> Get(d, a).value.Keys == {"name"}
    ensures Get(Stage(d, a, kw), a) == Some(kw)
  {
    var prev := Get(d, a).GetOr(map[]);
    assert prev + kw == kw;
  }

  /** The loop of name_strings: one staging call per decodable row. */
  method StageNames(batch: EntityBatch, rows: seq<JoinRow>)
    requires batch.Valid() && batch.Empty()
    modifies batch
    ensures batch.Valid()
    ensures (batch.origSet, batch.recompSet) == NamesStaged(rows)
    ensures batch.origInsert == [] && batch.recompInsert == [] && batch.types == map[]
    ensures batch.origToRecomp == [] && batch.recompAddr == []
  {
    var i := 0;
    while i < |rows|
      invariant 0 <= i <= |rows|
      invariant batch.Valid()
      invariant (batch.origSet, batch.recompSet) == NamesStaged(rows[..i])
      invariant batch.origInsert == [] && batch.recompInsert == [] && batch.types == map[]
      invariant batch.origToRecomp == [] && batch.recompAddr == []
    {
      assert rows[..i + 1][..i] == rows[..i];
      StageName(batch, rows[i]);
      i := i + 1;
    }
    assert rows[..|rows|] == rows;
  }

  /** One row of name_strings. */
  method StageName(batch: EntityBatch, row: JoinRow)
    requires batch.Valid()
    modifies batch
    ensures batch.Valid()
    ensures (batch.origSet, batch.recompSet) == NameStep((old(batch.origSet), old(batch.recompSet)), row)
    ensures batch.origInsert == old(batch.origInsert) && batch.recompInsert == old(batch.recompInsert)
    ensures batch.types == old(batch.types)
    ensures batch.origToRecomp == old(batch.origToRecomp) && batch.recompAddr == old(batch.recompAddr)
  {
    var text := DecodeRow(row);
    if text.Some? {
      var kw := NameKwargs(text.value, Truthy(row.wide));
      assert TypeTag(kw) == Ok(None);
      if row.orig.Some? {
        var _ := batch.SetOrig(row.orig.value, kw);
      } else if row.recomp.Some? {
        var _ := batch.SetRecomp(row.recomp.value, kw);
      }
    }
  }

  /**
   * name_strings: stage a name for every decodable string row through a batch
   * and commit it. The rows come from the join query in whatever order SQLite
   * returns them. No type is staged, so the labels step of commit is skipped.
   */
  method NameStrings(db: EntityDb, rows: seq<JoinRow>)
    requires db.Valid()
    requires (set i | 0 <= i < |rows| :: rows[i]) == JoinSet(db.table, db.raw)
    modifies db`table, db`types, db`labels
    ensures db.Valid()
    ensures db.table == InsertRecompAll(InsertOrigAll(old(db.table), NamesStaged(rows).0, true), NamesStaged(rows).1, true)
    ensures db.types == old(db.types) && db.labels == old(db.labels)
  {
    var batch := new EntityBatch(db);
    StageNames(batch, rows);
    var t := db.table;
    assert InsertRecompAll(InsertOrigAll(t, [], false), [], false) == t;
    assert MatchAll(InsertRecompAll(InsertOrigAll(t, NamesStaged(rows).0, true), NamesStaged(rows).1, true), []) ==
      InsertRecompAll(InsertOrigAll(t, NamesStaged(rows).0, true), NamesStaged(rows).1, true);
    var _ := batch.Exit(false);
  }
}
