/**
 * The older form of the anchor-based store: each `set`/`patch` is a single
 * SQLite upsert, `INSERT ... ON CONFLICT(anchor) DO UPDATE`. On a new anchor
 * the row takes every given column and the keywords as JSON text; on an
 * existing one the other unique columns are filled with `coalesce` and the
 * store is merged with `json_patch`, the new values winning for `set` and
 * the stored ones for `patch`. A failed statement changes nothing.
 */
module LegacyDb {
  import opened Wrappers
  import opened JsonBag
  import opened AnchorRows

  /** The link would write a value some row already holds. */
  predicate Taken(rows: seq<Row>, link: Option<Cell>)
  {
    link.Some? && Find(rows, link.value).Some?
  }

  /** `coalesce(col, excluded.col)`: the link is written only into a NULL column. */
  function FillOnly(row: Row, link: Option<Cell>): (r: Option<Cell>)
    ensures r.Some? ==> r == link && !Filled(row, ColumnOf(link.value))
    ensures link.Some? && !Filled(row, ColumnOf(link.value)) ==> r == link
  {
    if link.Some? && !Filled(row, ColumnOf(link.value)) then link else None
  }

  /** The merged store: `json_patch(kwstore, new)` for set, `json_patch(kwstore, json_patch(new, kwstore))` for patch. */
  function Merge(stored: Bag, kwargs: Bag, patch: bool): Bag
  {
    if patch then Patch(stored, Patch(kwargs, stored)) else Patch(stored, kwargs)
  }

  /**
   * One anchor upsert: `Err(IntegrityError)` when a unique column other than
   * the anchor's would take a value another row holds, otherwise the new table.
   */
  function Upsert(rows: seq<Row>, anchor: Cell, source: Option<int>, target: Option<int>, symbol: Option<string>,
                  patch: bool, kwargs: Bag): (r: Result<seq<Row>>)
    ensures r.Err? ==> r.error == IntegrityError
    ensures r.Ok? ==> |r.value| == |rows| + (if Find(rows, anchor).None? then 1 else 0)
  {
    var links := Links(anchor, source, target, symbol);
    var i := Find(rows, anchor);
    if i.None? then
      if Taken(rows, links.0) || Taken(rows, links.1) then Err(IntegrityError)
      else Ok(rows + [PutOpt(PutOpt(Put(Blank.(kw := kwargs), anchor), links.0), links.1)])
    else
      var row := rows[i.value];
      var l0 := FillOnly(row, links.0);
      var l1 := FillOnly(row, links.1);
      if Taken(rows, l0) || Taken(rows, l1) then Err(IntegrityError)
      else Ok(rows[i.value := PutOpt(PutOpt(row, l0), l1).(kw := Merge(row.kw, kwargs, patch))])
  }

  // ---- invariants ----

  /** The row an upsert appends for a new anchor keeps the table's columns unique. */
  lemma InsertKeepsUnique(rows: seq<Row>, anchor: Cell, l0: Option<Cell>, l1: Option<Cell>, kw: Bag)
    requires Unique(rows) && Find(rows, anchor).None?
    requires !Taken(rows, l0) && !Taken(rows, l1)
    requires l0.Some? ==> ColumnOf(l0.value) != ColumnOf(anchor)
    requires l1.Some? ==> ColumnOf(l1.value) != ColumnOf(anchor) && (l0.Some? ==> ColumnOf(l1.value) != ColumnOf(l0.value))
    ensures Unique(rows + [PutOpt(PutOpt(Put(Blank.(kw := kw), anchor), l0), l1)])
  {
    var row := PutOpt(PutOpt(Put(Blank.(kw := kw), anchor), l0), l1);
    forall c: Cell | Holds(row, c) ensures Find(rows, c).None? {
      if l1.Some? && ColumnOf(c) == ColumnOf(l1.value) {
        assert c == l1.value;
      } else if l0.Some? && ColumnOf(c) == ColumnOf(l0.value) {
        assert c == l0.value;
      } else {
        assert c == anchor;
      }
    }
    assert row.source.Some? ==> Holds(row, Source(row.source.value));
    assert row.target.Some? ==> Holds(row, Target(row.target.value));
    assert row.symbol.Some? ==> Holds(row, Symbol(row.symbol.value));
    AppendKeepsUnique(rows, row);
  }

  /** Filling NULL columns of a row with values no row holds, and replacing its store, keeps uniqueness. */
  lemma FillKeepsUnique(rows: seq<Row>, i: nat, l0: Option<Cell>, l1: Option<Cell>, kw: Bag)
    requires Unique(rows) && i < |rows|
    requires l0.Some? ==> !Filled(rows[i], ColumnOf(l0.value)) && Find(rows, l0.value).None?
    requires l1.Some? ==> !Filled(rows[i], ColumnOf(l1.value)) && Find(rows, l1.value).None?
    requires l0.Some? && l1.Some? ==> ColumnOf(l1.value) != ColumnOf(l0.value)
    ensures Unique(rows[i := PutOpt(PutOpt(rows[i], l0), l1).(kw := kw)])
  {
    StoreKeepsUnique(rows, i, kw);
    var a := rows[i := rows[i].(kw := kw)];
    assert forall j :: 0 <= j < |rows| && j != i ==> a[j] == rows[j];
    var b := a;
    if l0.Some? {
      assert Find(a, l0.value).None?;
      PutKeepsUnique(a, i, l0.value);
      b := a[i := Put(a[i], l0.value)];
    }
    if l1.Some? {
      assert forall j :: 0 <= j < |rows| && j != i ==> b[j] == rows[j];
      if l0.Some? { PutKeepsOthers(a[i], l0.value, l1.value); }
      assert !Holds(b[i], l1.value);
      assert Find(b, l1.value).None?;
      PutKeepsUnique(b, i, l1.value);
      b := b[i := Put(b[i], l1.value)];
    }
    assert b == rows[i := PutOpt(PutOpt(rows[i], l0), l1).(kw := kw)];
  }

  lemma UpsertKeepsUnique(rows: seq<Row>, anchor: Cell, source: Option<int>, target: Option<int>, symbol: Option<string>,
                          patch: bool, kwargs: Bag)
    requires Unique(rows)
    ensures Upsert(rows, anchor, source, target, symbol, patch, kwargs).Ok? ==>
      Unique(Upsert(rows, anchor, source, target, symbol, patch, kwargs).value)
  {
    var links := Links(anchor, source, target, symbol);
    var i := Find(rows, anchor);
    if i.None? {
      if !Taken(rows, links.0) && !Taken(rows, links.1) {
        InsertKeepsUnique(rows, anchor, links.0, links.1, kwargs);
      }
    } else {
      var row := rows[i.value];
      var l0 := FillOnly(row, links.0);
      var l1 := FillOnly(row, links.1);
      if !Taken(rows, l0) && !Taken(rows, l1) {
        FillKeepsUnique(rows, i.value, l0, l1, Merge(row.kw, kwargs, patch));
      }
    }
  }

  /** A unique column, once set, keeps its value through every upsert. */
  lemma UpsertWriteOnce(rows: seq<Row>, anchor: Cell, source: Option<int>, target: Option<int>, symbol: Option<string>,
                        patch: bool, kwargs: Bag)
    requires Upsert(rows, anchor, source, target, symbol, patch, kwargs).Ok?
    ensures Extends(rows, Upsert(rows, anchor, source, target, symbol, patch, kwargs).value)
  {
    var i := Find(rows, anchor);
    if i.Some? {
      var links := Links(anchor, source, target, symbol);
      var row := rows[i.value];
      var l0 := FillOnly(row, links.0);
      var l1 := FillOnly(row, links.1);
      var after := Upsert(rows, anchor, source, target, symbol, patch, kwargs).value;
      assert after[i.value] == PutOpt(PutOpt(row, l0), l1).(kw := Merge(row.kw, kwargs, patch));
      if l0.Some? && l1.Some? { PutKeepsOthers(Put(row, l0.value), l1.value, l0.value); }
    }
  }

  // ---- what an upsert does to the anchor's row ----

  /** The anchor's row after an upsert that succeeds, whether it was new or not. */
  lemma UpsertAnchorRow(rows: seq<Row>, anchor: Cell, source: Option<int>, target: Option<int>, symbol: Option<string>,
                        patch: bool, kwargs: Bag)
    requires Unique(rows)
    requires Upsert(rows, anchor, source, target, symbol, patch, kwargs).Ok?
    ensures Unique(Upsert(rows, anchor, source, target, symbol, patch, kwargs).value)
    ensures Get(Upsert(rows, anchor, source, target, symbol, patch, kwargs).value, anchor).Some?
    ensures Get(rows, anchor).None? ==>
      Get(Upsert(rows, anchor, source, target, symbol, patch, kwargs).value, anchor).value.kw == kwargs
    ensures Get(rows, anchor).Some? ==>
      Get(Upsert(rows, anchor, source, target, symbol, patch, kwargs).value, anchor).value.kw ==
        Merge(Get(rows, anchor).value.kw, kwargs, patch)
  {
    UpsertKeepsUnique(rows, anchor, source, target, symbol, patch, kwargs);
    var after := Upsert(rows, anchor, source, target, symbol, patch, kwargs).value;
    var links := Links(anchor, source, target, symbol);
    var i := Find(rows, anchor);
    if i.None? {
      var row := PutOpt(PutOpt(Put(Blank.(kw := kwargs), anchor), links.0), links.1);
      if links.0.Some? { PutKeepsOthers(Put(Blank.(kw := kwargs), anchor), links.0.value, anchor); }
      if links.1.Some? { PutKeepsOthers(PutOpt(Put(Blank.(kw := kwargs), anchor), links.0), links.1.value, anchor); }
      assert after[|rows|] == row && Holds(row, anchor);
      FindIsOnly(after, anchor, |rows|);
    } else {
      var row := rows[i.value];
      var l0 := FillOnly(row, links.0);
      var l1 := FillOnly(row, links.1);
      if l0.Some? { PutKeepsOthers(row, l0.value, anchor); }
      if l1.Some? { PutKeepsOthers(PutOpt(row, l0), l1.value, anchor); }
      assert Holds(after[i.value], anchor);
      FindIsOnly(after, anchor, i.value);
    }
  }

  /**
   * `set` merges per RFC 7396: a new non-null value wins, a null deletes the
   * key, and a key not given keeps its stored value.
   */
  lemma SetMerges(stored: Bag, kwargs: Bag, k: string)
    ensures k in kwargs && kwargs[k] != JNull ==> k in Merge(stored, kwargs, false) && Merge(stored, kwargs, false)[k] == kwargs[k]
    ensures k in kwargs && kwargs[k] == JNull ==> k !in Merge(stored, kwargs, false)
    ensures k !in kwargs ==> (k in Merge(stored, kwargs, false) <==> k in stored)
    ensures k !in kwargs && k in stored ==> Merge(stored, kwargs, false)[k] == stored[k]
  {}

  /**
   * `patch` never changes a stored key, null-valued ones included (a new row
   * keeps the nulls `json.dumps` wrote), and adds exactly the missing keys
   * given with a non-null value.
   */
  lemma PatchKeepsStored(stored: Bag, kwargs: Bag)
    ensures forall k :: k in stored ==> k in Merge(stored, kwargs, true) && Merge(stored, kwargs, true)[k] == stored[k]
    ensures forall k :: k !in stored ==>
      (k in Merge(stored, kwargs, true) <==> k in kwargs && kwargs[k] != JNull)
    ensures forall k :: k !in stored && k in kwargs && kwargs[k] != JNull ==> Merge(stored, kwargs, true)[k] == kwargs[k]
  {
    var inner := Patch(kwargs, stored);
    var r := Patch(stored, inner);
    forall k | k in stored ensures k in r && r[k] == stored[k] {
      if stored[k] == JNull {
        assert k !in inner;
      } else {
        assert inner[k] == stored[k];
      }
    }
    forall k | k !in stored ensures (k in r <==> k in kwargs && kwargs[k] != JNull) {
      assert k in inner <==> k in kwargs;
    }
  }

  /**
   * With a stored bag that has no nulls, `patch` equals `json_insert` of the
   * non-null keywords, as the newer store writes it.
   */
  lemma PatchIsInsert(stored: Bag, kwargs: Bag)
    requires NoNulls(stored)
    ensures Merge(stored, kwargs, true) == Insert(stored, DropNulls(kwargs))
  {
    PatchExistingWins(stored, kwargs);
  }

  /**
   * An upsert that would link a value held by another row to a new anchor
   * fails and changes nothing.
   */
  lemma CollisionFails(rows: seq<Row>, anchor: Cell, source: Option<int>, target: Option<int>, symbol: Option<string>,
                       patch: bool, kwargs: Bag)
    requires Find(rows, anchor).None?
    requires Taken(rows, Links(anchor, source, target, symbol).0) || Taken(rows, Links(anchor, source, target, symbol).1)
    ensures Upsert(rows, anchor, source, target, symbol, patch, kwargs) == Err(IntegrityError)
  {}

  /** The argument for the anchor's own column is ignored. */
  lemma AnchorParamIgnored(rows: seq<Row>, a: int, s1: Option<int>, s2: Option<int>, target: Option<int>, symbol: Option<string>,
                           patch: bool, kwargs: Bag)
    ensures Upsert(rows, Source(a), s1, target, symbol, patch, kwargs) == Upsert(rows, Source(a), s2, target, symbol, patch, kwargs)
  {}

  // ---- the store ----

  class ReccmpDb {
    var rows: seq<Row>
    /** The keys that have a `kv_idx_` index. */
    var indexed: set<string>

    ghost predicate Valid() reads this { Unique(rows) }

    constructor()
      ensures Valid() && rows == [] && indexed == {}
    {
      rows := [];
      indexed := {};
    }

    /** `at_*(anchor).exists()`. */
    function Exists(anchor: Cell): (r: bool)
      reads this
      ensures r <==> exists i :: 0 <= i < |rows| && Holds(rows[i], anchor)
    {
      Find(rows, anchor).Some?
    }

    /** `get_source`, `get_target`, `get_symbol`. */
    function GetRow(c: Cell): (r: Option<Row>)
      reads this
      ensures r.Some? <==> Exists(c)
      ensures r.Some? ==> r.value in rows && Holds(r.value, c)
    {
      Get(rows, c)
    }

    /** `get_closest_source`, `get_closest_target`. */
    function GetClosestRow(col: Column, q: int): (r: Option<Row>)
      reads this
      ensures r.Some? ==> r.value in rows && AddrOf(r.value, col).Some? && AddrOf(r.value, col).value <= q
      ensures r.Some? ==> forall x :: x in rows && AddrOf(x, col).Some? && AddrOf(x, col).value <= q ==>
        AddrOf(x, col).value <= AddrOf(r.value, col).value
      ensures r.None? <==> forall x :: x in rows ==> AddrOf(x, col).None? || AddrOf(x, col).value > q
    {
      GetClosest(rows, col, q)
    }

    /** `at_*(anchor).set(...)` when `patch` is false, `.patch(...)` when it is true. */
    method Write(anchor: Cell, source: Option<int>, target: Option<int>, symbol: Option<string>, patch: bool, kwargs: Bag)
      returns (r: Result<()>)
      requires Valid()
      modifies this`rows
      ensures Valid() && Extends(old(rows), rows)
      ensures Upsert(old(rows), anchor, source, target, symbol, patch, kwargs).Ok? ==>
        r.Ok? && rows == Upsert(old(rows), anchor, source, target, symbol, patch, kwargs).value
      ensures Upsert(old(rows), anchor, source, target, symbol, patch, kwargs).Err? ==>
        r == Err(IntegrityError) && rows == old(rows)
    {
      var next := Upsert(rows, anchor, source, target, symbol, patch, kwargs);
      if next.Err? {
        return Err(IntegrityError);
      }
      UpsertKeepsUnique(rows, anchor, source, target, symbol, patch, kwargs);
      UpsertWriteOnce(rows, anchor, source, target, symbol, patch, kwargs);
      rows := next.value;
      r := Ok(());
    }

    /** `search(matched, **kwargs)`, as in the newer store. */
    method Search(matched: Option<bool>, kwargs: Bag) returns (r: Result<seq<Row>>)
      modifies this`indexed
      ensures CheckKwargs(kwargs).Err? ==> r == Err(InvalidKey) && indexed == old(indexed)
      ensures CheckKwargs(kwargs).Ok? ==> r == Ok(Select(rows, matched, kwargs))
      ensures CheckKwargs(kwargs).Ok? ==> indexed == old(indexed) + (kwargs.Keys - SpecialCols)
    {
      var check := CheckKwargs(kwargs);
      if check.Err? {
        return Err(InvalidKey);
      }
      indexed := indexed + (kwargs.Keys - SpecialCols);
      r := Ok(Select(rows, matched, kwargs));
    }
  }
}
