/**
 * The anchor-based key/value store over the `reccmp` table: an anchor names
 * one unique column and its value; `set` and `patch` first link the other
 * unique columns to the anchor's row (`do_connect_query`) and then write
 * the key/value store (`do_update_query`). Links are written with
 * `coalesce`, so a unique column is written once; `set` writes keys with
 * `json_set` (overwrite) and `patch` with `json_insert` (missing keys only).
 */
module Storage {
  import opened Wrappers
  import opened JsonBag
  import opened AnchorRows

  /** The values SQLite receives for keyword arguments: Python's True and False are bound as 1 and 0. */
  function SqlParams(kwargs: Bag): (r: Bag)
    ensures r.Keys == kwargs.Keys
    ensures forall k :: k in kwargs ==> r[k] == SqlScalar(kwargs[k])
  {
    map k | k in kwargs :: SqlScalar(kwargs[k])
  }

  /**
   * `do_connect_query(anchor, link)`: nothing for a None link; otherwise
   * `UPDATE ... SET col = coalesce(col, link) WHERE anchor`, and when no
   * row has the anchor, `INSERT (col, anchor)`. Writing a value another row
   * already holds is an IntegrityError, and the failed statement changes
   * nothing.
   */
  function Connect(rows: seq<Row>, anchor: Cell, link: Option<Cell>): (r: Result<seq<Row>>)
    requires link.Some? ==> ColumnOf(link.value) != ColumnOf(anchor)
    ensures r.Err? <==>
      && link.Some?
      && Find(rows, link.value).Some?
      && (Find(rows, anchor).None? || !Filled(rows[Find(rows, anchor).value], ColumnOf(link.value)))
    ensures r.Err? ==> r.error == IntegrityError
  {
    if link.None? then Ok(rows)
    else
      var i := Find(rows, anchor);
      if i.Some? && Filled(rows[i.value], ColumnOf(link.value)) then Ok(rows)
      else if Find(rows, link.value).Some? then Err(IntegrityError)
      else if i.Some? then Ok(rows[i.value := Put(rows[i.value], link.value)])
      else Ok(rows + [Put(Put(Blank, link.value), anchor)])
  }

  /**
   * `do_update_query(anchor, patch, kwargs)`: without keywords,
   * `INSERT or ignore (anchor)`; otherwise the anchor's store gets
   * `json_insert` (patch) or `json_set` (set) of the keywords, and when no
   * row has the anchor a new row is inserted with `json_set('{}', ...)`.
   */
  function Update(rows: seq<Row>, anchor: Cell, patch: bool, kwargs: Bag): (r: seq<Row>)
  {
    var i := Find(rows, anchor);
    var params := SqlParams(kwargs);
    if i.None? then rows + [Put(Blank.(kw := Set(map[], params)), anchor)]
    else if kwargs == map[] then rows
    else rows[i.value := rows[i.value].(kw := if patch then Insert(rows[i.value].kw, params) else Set(rows[i.value].kw, params))]
  }

  /** The table after a write and the error it raised, if any. Earlier statements are not rolled back. */
  datatype Outcome = Outcome(rows: seq<Row>, error: Option<Error>)

  /**
   * `at_*(anchor).set(...)` and `.patch(...)`: connect the first link,
   * connect the second, then update the store, stopping at the first error.
   */
  function AnchorWrite(rows: seq<Row>, anchor: Cell, source: Option<int>, target: Option<int>, symbol: Option<string>,
                       patch: bool, kwargs: Bag): (r: Outcome)
    ensures r.error.Some? ==> r.error.value == IntegrityError
  {
    var links := Links(anchor, source, target, symbol);
    var first := Connect(rows, anchor, links.0);
    if first.Err? then Outcome(rows, Some(first.error))
    else
      var second := Connect(first.value, anchor, links.1);
      if second.Err? then Outcome(first.value, Some(second.error))
      else Outcome(Update(second.value, anchor, patch, kwargs), None)
  }

  // ---- the invariants every write keeps ----

  lemma ConnectKeepsUnique(rows: seq<Row>, anchor: Cell, link: Option<Cell>)
    requires Unique(rows)
    requires link.Some? ==> ColumnOf(link.value) != ColumnOf(anchor)
    ensures Connect(rows, anchor, link).Ok? ==> Unique(Connect(rows, anchor, link).value)
  {
    if link.Some? && Connect(rows, anchor, link).Ok? {
      var c := link.value;
      var i := Find(rows, anchor);
      if i.Some? && Filled(rows[i.value], ColumnOf(c)) {
      } else if i.Some? {
        PutKeepsUnique(rows, i.value, c);
      } else {
        var row := Put(Put(Blank, c), anchor);
        PutKeepsOthers(Put(Blank, c), anchor, c);
        assert Holds(row, c) && Holds(row, anchor);
        AppendNewKeepsUnique(rows, row, c, anchor);
      }
    }
  }

  /** A row holding only two values that no row holds can be appended. */
  lemma AppendNewKeepsUnique(rows: seq<Row>, row: Row, c: Cell, d: Cell)
    requires Unique(rows) && ColumnOf(c) != ColumnOf(d)
    requires Find(rows, c).None? && Find(rows, d).None?
    requires row == Put(Put(Blank, c), d)
    ensures Unique(rows + [row])
  {
    assert row.source.Some? ==> Find(rows, Source(row.source.value)).None? by {
      if row.source.Some? { assert Source(row.source.value) == c || Source(row.source.value) == d; }
    }
    assert row.target.Some? ==> Find(rows, Target(row.target.value)).None? by {
      if row.target.Some? { assert Target(row.target.value) == c || Target(row.target.value) == d; }
    }
    assert row.symbol.Some? ==> Find(rows, Symbol(row.symbol.value)).None? by {
      if row.symbol.Some? { assert Symbol(row.symbol.value) == c || Symbol(row.symbol.value) == d; }
    }
    AppendKeepsUnique(rows, row);
  }

  lemma UpdateKeepsUnique(rows: seq<Row>, anchor: Cell, patch: bool, kwargs: Bag)
    requires Unique(rows)
    ensures Unique(Update(rows, anchor, patch, kwargs))
  {
    var i := Find(rows, anchor);
    if i.None? {
      var row := Put(Blank.(kw := Set(map[], SqlParams(kwargs))), anchor);
      assert row.source.Some? ==> Source(row.source.value) == anchor;
      assert row.target.Some? ==> Target(row.target.value) == anchor;
      assert row.symbol.Some? ==> Symbol(row.symbol.value) == anchor;
      AppendKeepsUnique(rows, row);
    } else if kwargs != map[] {
      var kw := if patch then Insert(rows[i.value].kw, SqlParams(kwargs)) else Set(rows[i.value].kw, SqlParams(kwargs));
      StoreKeepsUnique(rows, i.value, kw);
    }
  }

  lemma AnchorWriteKeepsUnique(rows: seq<Row>, anchor: Cell, source: Option<int>, target: Option<int>, symbol: Option<string>,
                               patch: bool, kwargs: Bag)
    requires Unique(rows)
    ensures Unique(AnchorWrite(rows, anchor, source, target, symbol, patch, kwargs).rows)
  {
    var links := Links(anchor, source, target, symbol);
    ConnectKeepsUnique(rows, anchor, links.0);
    var first := Connect(rows, anchor, links.0);
    if first.Ok? {
      ConnectKeepsUnique(first.value, anchor, links.1);
      var second := Connect(first.value, anchor, links.1);
      if second.Ok? {
        UpdateKeepsUnique(second.value, anchor, patch, kwargs);
      }
    }
  }

  /** A unique column, once set, keeps its value through every write, failed or not. */
  lemma AnchorWriteWriteOnce(rows: seq<Row>, anchor: Cell, source: Option<int>, target: Option<int>, symbol: Option<string>,
                             patch: bool, kwargs: Bag)
    ensures Extends(rows, AnchorWrite(rows, anchor, source, target, symbol, patch, kwargs).rows)
  {
    var links := Links(anchor, source, target, symbol);
    var first := Connect(rows, anchor, links.0);
    if first.Ok? {
      ConnectWriteOnce(rows, anchor, links.0);
      var second := Connect(first.value, anchor, links.1);
      if second.Ok? {
        ConnectWriteOnce(first.value, anchor, links.1);
        ExtendsTransitive(rows, first.value, second.value);
        UpdateExtends(second.value, anchor, patch, kwargs);
        ExtendsTransitive(rows, second.value, Update(second.value, anchor, patch, kwargs));
      }
    }
  }

  /** The store update only appends a row or changes the keyword columns of one. */
  lemma UpdateExtends(rows: seq<Row>, anchor: Cell, patch: bool, kwargs: Bag)
    ensures Extends(rows, Update(rows, anchor, patch, kwargs))
  {
    var i := Find(rows, anchor);
    if i.Some? && kwargs != map[] {
      var after := Update(rows, anchor, patch, kwargs);
      assert forall j :: 0 <= j < |rows| ==>
        (after[j].source, after[j].target, after[j].symbol) == (rows[j].source, rows[j].target, rows[j].symbol);
    }
  }

  lemma ConnectWriteOnce(rows: seq<Row>, anchor: Cell, link: Option<Cell>)
    requires link.Some? ==> ColumnOf(link.value) != ColumnOf(anchor)
    requires Connect(rows, anchor, link).Ok?
    ensures Extends(rows, Connect(rows, anchor, link).value)
  {
    if link.Some? {
      var i := Find(rows, anchor);
      if i.Some? && !Filled(rows[i.value], ColumnOf(link.value)) {
        var after := Connect(rows, anchor, link).value;
        assert after == rows[i.value := Put(rows[i.value], link.value)];
      }
    }
  }

  // ---- what a write does to the anchor's row ----

  /**
   * After a connect that succeeds, the anchor has a row, and its column for
   * the link holds the link unless it held a value already.
   */
  lemma ConnectLinks(rows: seq<Row>, anchor: Cell, link: Cell)
    requires Unique(rows) && ColumnOf(link) != ColumnOf(anchor)
    requires Connect(rows, anchor, Some(link)).Ok?
    ensures Get(Connect(rows, anchor, Some(link)).value, anchor).Some?
    ensures Filled(Get(Connect(rows, anchor, Some(link)).value, anchor).value, ColumnOf(link))
    ensures Get(rows, anchor).None? || !Filled(Get(rows, anchor).value, ColumnOf(link)) ==>
      Holds(Get(Connect(rows, anchor, Some(link)).value, anchor).value, link)
    ensures Get(rows, anchor).Some? && Filled(Get(rows, anchor).value, ColumnOf(link)) ==>
      Connect(rows, anchor, Some(link)).value == rows
  {
    var after := Connect(rows, anchor, Some(link)).value;
    ConnectKeepsUnique(rows, anchor, Some(link));
    var i := Find(rows, anchor);
    if i.Some? {
      if !Filled(rows[i.value], ColumnOf(link)) {
        PutKeepsOthers(rows[i.value], link, anchor);
        FindIsOnly(after, anchor, i.value);
      }
    } else {
      var row := Put(Put(Blank, link), anchor);
      PutKeepsOthers(Put(Blank, link), anchor, link);
      FindIsOnly(after, anchor, |rows|);
      assert after[|rows|] == row;
    }
  }

  /** After `do_update_query` the anchor has a row, whatever the keywords. */
  lemma UpdateCreatesAnchor(rows: seq<Row>, anchor: Cell, patch: bool, kwargs: Bag)
    requires Unique(rows)
    ensures Get(Update(rows, anchor, patch, kwargs), anchor).Some?
    ensures Get(rows, anchor).Some? && kwargs == map[] ==> Update(rows, anchor, patch, kwargs) == rows
  {
    var after := Update(rows, anchor, patch, kwargs);
    var i := Find(rows, anchor);
    if i.None? {
      assert Holds(after[|rows|], anchor);
    } else {
      assert Holds(after[i.value], anchor);
    }
  }

  /** The store of the anchor's row after `do_update_query` on a row that exists. */
  lemma UpdateStore(rows: seq<Row>, anchor: Cell, patch: bool, kwargs: Bag)
    requires Unique(rows) && Get(rows, anchor).Some?
    ensures Unique(Update(rows, anchor, patch, kwargs))
    ensures Get(Update(rows, anchor, patch, kwargs), anchor).Some?
    ensures Get(Update(rows, anchor, patch, kwargs), anchor).value.kw ==
      if patch then Insert(Get(rows, anchor).value.kw, SqlParams(kwargs)) else Set(Get(rows, anchor).value.kw, SqlParams(kwargs))
  {
    UpdateKeepsUnique(rows, anchor, patch, kwargs);
    var after := Update(rows, anchor, patch, kwargs);
    var i := Find(rows, anchor).value;
    assert Holds(after[i], anchor);
    FindIsOnly(after, anchor, i);
    if kwargs == map[] {
      assert SqlParams(kwargs) == map[];
      assert Insert(rows[i].kw, map[]) == rows[i].kw;
    }
  }

  /** On a missing anchor, `do_update_query` inserts a row whose store is the keywords. */
  lemma UpdateNewStore(rows: seq<Row>, anchor: Cell, patch: bool, kwargs: Bag)
    requires Unique(rows) && Get(rows, anchor).None?
    ensures Get(Update(rows, anchor, patch, kwargs), anchor) == Some(Put(Blank.(kw := SqlParams(kwargs)), anchor))
  {
    UpdateKeepsUnique(rows, anchor, patch, kwargs);
    var row := Put(Blank.(kw := Set(map[], SqlParams(kwargs))), anchor);
    assert Set(map[], SqlParams(kwargs)) == SqlParams(kwargs);
    var after := Update(rows, anchor, patch, kwargs);
    assert after == rows + [row];
    assert Holds(after[|rows|], anchor);
    FindIsOnly(after, anchor, |rows|);
  }

  /**
   * A `set` followed by a `patch` of the same key on the same anchor keeps
   * the value `set` wrote; a `patch` followed by a `set` ends with the value
   * `set` wrote.
   */
  lemma SetThenPatchKeeps(rows: seq<Row>, anchor: Cell, first: Bag, second: Bag, key: string)
    requires Unique(rows) && key in first
    ensures Unique(Update(rows, anchor, false, first))
    ensures Get(Update(Update(rows, anchor, false, first), anchor, true, second), anchor).Some?
    ensures GetKey(Get(Update(Update(rows, anchor, false, first), anchor, true, second), anchor).value, key, JNull) ==
      SqlScalar(first[key])
  {
    WrittenKey(rows, anchor, false, first, key);
    var mid := Update(rows, anchor, false, first);
    UpdateCreatesAnchor(rows, anchor, false, first);
    UpdateStore(mid, anchor, true, second);
  }

  lemma PatchThenSetOverwrites(rows: seq<Row>, anchor: Cell, first: Bag, second: Bag, key: string)
    requires Unique(rows) && key in second
    ensures Unique(Update(rows, anchor, true, first))
    ensures Get(Update(Update(rows, anchor, true, first), anchor, false, second), anchor).Some?
    ensures GetKey(Get(Update(Update(rows, anchor, true, first), anchor, false, second), anchor).value, key, JNull) ==
      SqlScalar(second[key])
  {
    UpdateKeepsUnique(rows, anchor, true, first);
    var mid := Update(rows, anchor, true, first);
    UpdateCreatesAnchor(rows, anchor, true, first);
    UpdateStore(mid, anchor, false, second);
  }

  /** A key `set` writes reads back as the value given, from an existing row or a new one. */
  lemma WrittenKey(rows: seq<Row>, anchor: Cell, patch: bool, kwargs: Bag, key: string)
    requires Unique(rows) && key in kwargs
    requires patch ==> Get(rows, anchor).None? || key !in Get(rows, anchor).value.kw
    ensures Unique(Update(rows, anchor, patch, kwargs))
    ensures Get(Update(rows, anchor, patch, kwargs), anchor).Some?
    ensures GetKey(Get(Update(rows, anchor, patch, kwargs), anchor).value, key, JNull) == SqlScalar(kwargs[key])
  {
    UpdateKeepsUnique(rows, anchor, patch, kwargs);
    if Get(rows, anchor).Some? {
      UpdateStore(rows, anchor, patch, kwargs);
    } else {
      UpdateNewStore(rows, anchor, patch, kwargs);
    }
  }

  /** The argument for the anchor's own column is ignored: the anchor's value wins. */
  lemma AnchorParamIgnored(rows: seq<Row>, a: int, s1: Option<int>, s2: Option<int>, target: Option<int>, symbol: Option<string>,
                           patch: bool, kwargs: Bag)
    ensures AnchorWrite(rows, Source(a), s1, target, symbol, patch, kwargs) == AnchorWrite(rows, Source(a), s2, target, symbol, patch, kwargs)
  {}

  /** `at_source(0x1234).set(source=0x5555)` on an empty table leaves 0x5555 unused. */
  lemma AnchorParamOverride()
    ensures AnchorWrite([], Source(0x1234), Some(0x5555), None, None, false, map[]) ==
      Outcome([Blank.(source := Some(0x1234))], None)
  {}

  /**
   * Linking a value another row holds to an anchor that has no row fails with
   * an IntegrityError and the table is as before.
   */
  lemma CollisionChangesNothing(rows: seq<Row>, anchor: Cell, link: Cell)
    requires ColumnOf(link) != ColumnOf(anchor)
    requires Get(rows, anchor).None? && Get(rows, link).Some?
    ensures Connect(rows, anchor, Some(link)) == Err(IntegrityError)
    ensures forall source, target, symbol, patch, kwargs ::
      Links(anchor, source, target, symbol).0 == Some(link) ==>
      AnchorWrite(rows, anchor, source, target, symbol, patch, kwargs) == Outcome(rows, Some(IntegrityError))
  {}

  /**
   * `at_source(0x1234).set(test=100)` then `at_target(0x5555).set(source=0x1234, test=200)`:
   * the second write fails, no target row appears and `test` is still 100.
   */
  lemma Collision()
    ensures var t1 := AnchorWrite([], Source(0x1234), None, None, None, false, map["test" := JInt(100)]);
      && t1.error.None?
      && var t2 := AnchorWrite(t1.rows, Target(0x5555), Some(0x1234), None, None, false, map["test" := JInt(200)]);
      && t2.error == Some(IntegrityError)
      && Get(t2.rows, Target(0x5555)).None?
      && Get(t2.rows, Source(0x1234)).Some?
      && GetKey(Get(t2.rows, Source(0x1234)).value, "test", JNull) == JInt(100)
  {
    var t1 := AnchorWrite([], Source(0x1234), None, None, None, false, map["test" := JInt(100)]);
    assert SqlParams(map["test" := JInt(100)]) == map["test" := JInt(100)];
    assert Set(map[], map["test" := JInt(100)]) == map["test" := JInt(100)];
    assert t1.rows == [Blank.(source := Some(0x1234), kw := map["test" := JInt(100)])];
    assert Holds(t1.rows[0], Source(0x1234));
  }

  // ---- the store ----

  class ReccmpDb {
    var rows: seq<Row>
    /** The keys that have a `kv_idx_` index. */
    var indexed: set<string>

    ghost predicate Valid() reads this { Unique(rows) }

    constructor()
      ensures Valid() && rows == [] && indexed == {}
    {
      rows := [];
      indexed := {};
    }

    /** `at_*(anchor).exists()`. */
    function Exists(anchor: Cell): (r: bool)
      reads this
      ensures r <==> exists i :: 0 <= i < |rows| && Holds(rows[i], anchor)
    {
      Find(rows, anchor).Some?
    }

    /** `get_source`, `get_target`, `get_symbol`: the row with the value, never inserting one. */
    function GetRow(c: Cell): (r: Option<Row>)
      reads this
      ensures r.Some? <==> Exists(c)
      ensures r.Some? ==> r.value in rows && Holds(r.value, c)
    {
      Get(rows, c)
    }

    /** `get_closest_source`, `get_closest_target`. */
    function GetClosestRow(col: Column, q: int): (r: Option<Row>)
      reads this
      ensures r.Some? ==> r.value in rows && AddrOf(r.value, col).Some? && AddrOf(r.value, col).value <= q
      ensures r.Some? ==> forall x :: x in rows && AddrOf(x, col).Some? && AddrOf(x, col).value <= q ==>
        AddrOf(x, col).value <= AddrOf(r.value, col).value
      ensures r.None? <==> forall x :: x in rows ==> AddrOf(x, col).None? || AddrOf(x, col).value > q
    {
      GetClosest(rows, col, q)
    }

    /** `do_connect_query` on this table. */
    method DoConnect(anchor: Cell, link: Option<Cell>) returns (r: Result<()>)
      requires Valid() && (link.Some? ==> ColumnOf(link.value) != ColumnOf(anchor))
      modifies this`rows
      ensures Valid() && Extends(old(rows), rows)
      ensures Connect(old(rows), anchor, link).Ok? ==> r.Ok? && rows == Connect(old(rows), anchor, link).value
      ensures Connect(old(rows), anchor, link).Err? ==> r == Err(IntegrityError) && rows == old(rows)
    {
      if link.None? {
        return Ok(());
      }
      var i := Find(rows, anchor);
      if i.Some? && Filled(rows[i.value], ColumnOf(link.value)) {
        // coalesce keeps the value the column has
        return Ok(());
      }
      if Find(rows, link.value).Some? {
        return Err(IntegrityError);
      }
      ConnectKeepsUnique(rows, anchor, link);
      ConnectWriteOnce(rows, anchor, link);
      if i.Some? {
        rows := rows[i.value := Put(rows[i.value], link.value)];
      } else {
        rows := rows + [Put(Put(Blank, link.value), anchor)];
      }
      r := Ok(());
    }

    /** `do_update_query` on this table. */
    method DoUpdate(anchor: Cell, patch: bool, kwargs: Bag)
      requires Valid()
      modifies this`rows
      ensures Valid() && Extends(old(rows), rows)
      ensures rows == Update(old(rows), anchor, patch, kwargs)
    {
      UpdateKeepsUnique(rows, anchor, patch, kwargs);
      var i := Find(rows, anchor);
      var params := SqlParams(kwargs);
      if i.None? {
        rows := rows + [Put(Blank.(kw := Set(map[], params)), anchor)];
      } else if kwargs != map[] {
        var kw := if patch then Insert(rows[i.value].kw, params) else Set(rows[i.value].kw, params);
        rows := rows[i.value := rows[i.value].(kw := kw)];
      }
    }

    /** `at_*(anchor).set(...)` when `patch` is false, `.patch(...)` when it is true. */
    method Write(anchor: Cell, source: Option<int>, target: Option<int>, symbol: Option<string>, patch: bool, kwargs: Bag)
      returns (r: Result<()>)
      requires Valid()
      modifies this`rows
      ensures Valid() && Extends(old(rows), rows)
      ensures rows == AnchorWrite(old(rows), anchor, source, target, symbol, patch, kwargs).rows
      ensures r.Err? <==> AnchorWrite(old(rows), anchor, source, target, symbol, patch, kwargs).error.Some?
      ensures r.Err? ==> r.error == IntegrityError
    {
      var links := Links(anchor, source, target, symbol);
      r := DoConnect(anchor, links.0);
      if r.Err? {
        return;
      }
      ghost var mid := rows;
      r := DoConnect(anchor, links.1);
      if r.Err? {
        ExtendsTransitive(old(rows), mid, rows);
        return;
      }
      ghost var linked := rows;
      DoUpdate(anchor, patch, kwargs);
      ExtendsTransitive(old(rows), mid, linked);
      ExtendsTransitive(old(rows), linked, rows);
    }

    /**
     * `search(matched, **kwargs)`: InvalidItemKeyError for a bad key;
     * otherwise every key outside the special columns is given an index and
     * the selected rows are returned in table order.
     */
    method Search(matched: Option<bool>, kwargs: Bag) returns (r: Result<seq<Row>>)
      modifies this`indexed
      ensures CheckKwargs(kwargs).Err? ==> r == Err(InvalidKey) && indexed == old(indexed)
      ensures CheckKwargs(kwargs).Ok? ==> r == Ok(Select(rows, matched, kwargs))
      ensures CheckKwargs(kwargs).Ok? ==> indexed == old(indexed) + (kwargs.Keys - SpecialCols)
    {
      var check := CheckKwargs(kwargs);
      if check.Err? {
        return Err(InvalidKey);
      }
      indexed := indexed + (kwargs.Keys - SpecialCols);
      r := Ok(Select(rows, matched, kwargs));
    }
  }

  /** `at_source(a).set(**kwargs)` on a source no row holds appends one row with the keywords. */
  lemma NewSourceRow(rows: seq<Row>, a: int, kwargs: Bag)
    requires Find(rows, Source(a)).None?
    ensures AnchorWrite(rows, Source(a), None, None, None, false, kwargs).rows == rows + [Blank.(source := Some(a), kw := SqlParams(kwargs))]
  {
    assert Set(map[], SqlParams(kwargs)) == SqlParams(kwargs);
  }

  /** `search(name="hello")` after three `set` calls finds the two rows named "hello". */
  lemma BasicSearch()
    ensures var t1 := AnchorWrite([], Source(100), None, None, None, false, map["name" := JStr("hello")]).rows;
      var t2 := AnchorWrite(t1, Source(200), None, None, None, false, map["name" := JStr("hello"), "group" := JInt(1)]).rows;
      var t3 := AnchorWrite(t2, Source(300), None, None, None, false, map["name" := JStr("hey"), "group" := JInt(1)]).rows;
      && |Select(t3, None, map["name" := JStr("hello")])| == 2
      && |Select(t3, None, map["name" := JStr("hello"), "group" := JInt(1)])| == 1
      && |Select(t3, Some(true), map[])| == 0
  {
    var r1 := Blank.(source := Some(100), kw := map["name" := JStr("hello")]);
    var r2 := Blank.(source := Some(200), kw := map["name" := JStr("hello"), "group" := JInt(1)]);
    var r3 := Blank.(source := Some(300), kw := map["name" := JStr("hey"), "group" := JInt(1)]);
    assert SqlParams(r1.kw) == r1.kw && SqlParams(r2.kw) == r2.kw && SqlParams(r3.kw) == r3.kw;
    NewSourceRow([], 100, r1.kw);
    NewSourceRow([r1], 200, r2.kw);
    assert [r1] + [r2] == [r1, r2];
    assert !Holds(r1, Source(300)) && !Holds(r2, Source(300));
    NewSourceRow([r1, r2], 300, r3.kw);
    assert [r1, r2] + [r3] == [r1, r2, r3];
    SearchThree(r1, r2, r3);
  }

  lemma SearchThree(r1: Row, r2: Row, r3: Row)
    requires r1 == Blank.(source := Some(100), kw := map["name" := JStr("hello")])
    requires r2 == Blank.(source := Some(200), kw := map["name" := JStr("hello"), "group" := JInt(1)])
    requires r3 == Blank.(source := Some(300), kw := map["name" := JStr("hey"), "group" := JInt(1)])
    ensures |Select([r1, r2, r3], None, map["name" := JStr("hello")])| == 2
    ensures |Select([r1, r2, r3], None, map["name" := JStr("hello"), "group" := JInt(1)])| == 1
    ensures |Select([r1, r2, r3], Some(true), map[])| == 0
  {
    var name := map["name" := JStr("hello")];
    var both := map["name" := JStr("hello"), "group" := JInt(1)];
    assert "hey" != "hello" by { assert "hey"[2] != "hello"[2]; }
    assert Selected(r1, None, name) && Selected(r2, None, name) by {
      assert forall k :: k in name ==> k == "name";
    }
    assert !KeyEquals(r3.kw, "name", JStr("hello")) && !Selected(r3, None, name);
    SelectOfThree(r1, r2, r3, None, name);
    assert "group" in both && both["group"] == JInt(1);
    assert !KeyEquals(r1.kw, "group", JInt(1)) && !Selected(r1, None, both);
    assert Selected(r2, None, both) by {
      assert forall k :: k in both ==> k == "name" || k == "group";
    }
    assert !Selected(r3, None, both);
    SelectOfThree(r1, r2, r3, None, both);
    SelectOfThree(r1, r2, r3, Some(true), map[]);
  }

  lemma SelectOfThree(a: Row, b: Row, c: Row, matched: Option<bool>, kwargs: Bag)
    ensures Select([a, b, c], matched, kwargs) ==
      (if Selected(a, matched, kwargs) then [a] else []) +
      (if Selected(b, matched, kwargs) then [b] else []) +
      (if Selected(c, matched, kwargs) then [c] else [])
  {
    assert [a, b, c][..2] == [a, b] && [a, b][..1] == [a] && [a][..0] == [];
    assert Select([a], matched, kwargs) == (if Selected(a, matched, kwargs) then [a] else []);
    assert Select([a, b], matched, kwargs) == Select([a], matched, kwargs) + (if Selected(b, matched, kwargs) then [b] else []);
  }
}
