/**
 * The `reccmp` table shared by the two older key/value stores: each row has
 * three unique columns (`source`, `target`, `symbol`, each possibly NULL) and
 * a JSON key/value store. The table is a sequence of rows in rowid order;
 * the SQL lookups, the `coalesce` writes and the `search` filter become
 * functions on it.
 */
module AnchorRows {
  import opened Wrappers
  import opened JsonBag
  import CompareDb

  datatype Row = Row(source: Option<int>, target: Option<int>, symbol: Option<string>, kw: Bag)

  /** A row with every column NULL and an empty store. */
  const Blank := Row(None, None, None, map[])

  /** One of the unique columns together with a value for it: an anchor, or a link to write. */
  datatype Cell = Source(addr: int) | Target(addr: int) | Symbol(name: string)

  datatype Column = SourceCol | TargetCol | SymbolCol

  function ColumnOf(c: Cell): Column
  {
    match c
    case Source(_) => SourceCol
    case Target(_) => TargetCol
    case Symbol(_) => SymbolCol
  }

  /** `WHERE col = ?`: the row holds the cell's value in the cell's column. */
  predicate Holds(row: Row, c: Cell)
  {
    match c
    case Source(a) => row.source == Some(a)
    case Target(a) => row.target == Some(a)
    case Symbol(n) => row.symbol == Some(n)
  }

  /** The column is not NULL. */
  predicate Filled(row: Row, col: Column)
  {
    match col
    case SourceCol => row.source.Some?
    case TargetCol => row.target.Some?
    case SymbolCol => row.symbol.Some?
  }

  /** The row with the cell's column set to the cell's value. */
  function Put(row: Row, c: Cell): (r: Row)
    ensures Holds(r, c) && r.kw == row.kw
  {
    match c
    case Source(a) => row.(source := Some(a))
    case Target(a) => row.(target := Some(a))
    case Symbol(n) => row.(symbol := Some(n))
  }

  function PutOpt(row: Row, c: Option<Cell>): Row
  {
    if c.Some? then Put(row, c.value) else row
  }

  /** `col = coalesce(col, ?)`: a column that is already set keeps its value. */
  function Coalesce(row: Row, c: Option<Cell>): (r: Row)
    ensures r.kw == row.kw
    ensures c.Some? && !Filled(row, ColumnOf(c.value)) ==> r == Put(row, c.value)
    ensures c.None? || Filled(row, ColumnOf(c.value)) ==> r == row
  {
    if c.Some? && !Filled(row, ColumnOf(c.value)) then Put(row, c.value) else row
  }

  /** The columns of the row after `Put` that the cell does not name are unchanged. */
  lemma PutKeepsOthers(row: Row, c: Cell, d: Cell)
    requires ColumnOf(d) != ColumnOf(c)
    ensures Holds(Put(row, c), d) <==> Holds(row, d)
    ensures Filled(Put(row, c), ColumnOf(d)) <==> Filled(row, ColumnOf(d))
  {}

  function SourceCell(x: Option<int>): Option<Cell> { if x.Some? then Some(Source(x.value)) else None }
  function TargetCell(x: Option<int>): Option<Cell> { if x.Some? then Some(Target(x.value)) else None }
  function SymbolCell(x: Option<string>): Option<Cell> { if x.Some? then Some(Symbol(x.value)) else None }

  /**
   * The two unique-column arguments of an anchor's `set`/`patch` other than
   * the anchor's own column, in the order the source writes them; the
   * argument for the anchor's own column is dropped.
   */
  function Links(anchor: Cell, source: Option<int>, target: Option<int>, symbol: Option<string>): (r: (Option<Cell>, Option<Cell>))
    ensures r.0.Some? ==> ColumnOf(r.0.value) != ColumnOf(anchor)
    ensures r.1.Some? ==> ColumnOf(r.1.value) != ColumnOf(anchor) && (r.0.Some? ==> ColumnOf(r.1.value) != ColumnOf(r.0.value))
  {
    match anchor
    case Source(_) => (TargetCell(target), SymbolCell(symbol))
    case Target(_) => (SourceCell(source), SymbolCell(symbol))
    case Symbol(_) => (SourceCell(source), TargetCell(target))
  }

  /** No two rows share a non-NULL value in a unique column. */
  predicate Apart(a: Row, b: Row)
  {
    && (a.source.Some? ==> a.source != b.source)
    && (a.target.Some? ==> a.target != b.target)
    && (a.symbol.Some? ==> a.symbol != b.symbol)
  }

  ghost predicate Unique(rows: seq<Row>)
  {
    forall i, j :: 0 <= i < |rows| && 0 <= j < |rows| && i != j ==> Apart(rows[i], rows[j])
  }

  /** The first row holding the cell's value: the row `WHERE col = ?` selects. */
  function Find(rows: seq<Row>, c: Cell): (r: Option<nat>)
    ensures r.Some? ==> r.value < |rows| && Holds(rows[r.value], c)
    ensures r.Some? ==> forall i :: 0 <= i < r.value ==> !Holds(rows[i], c)
    ensures r.None? <==> forall i :: 0 <= i < |rows| ==> !Holds(rows[i], c)
  {
    if rows == [] then None
    else
      var prefix := rows[..|rows| - 1];
      var r := Find(prefix, c);
      assert forall i :: 0 <= i < |prefix| ==> prefix[i] == rows[i];
      if r.Some? then r
      else if Holds(rows[|rows| - 1], c) then Some(|rows| - 1)
      else None
  }

  /** In a table with unique columns, the row holding a value is the only one that does. */
  lemma FindIsOnly(rows: seq<Row>, c: Cell, i: nat)
    requires Unique(rows) && i < |rows| && Holds(rows[i], c)
    ensures Find(rows, c) == Some(i)
  {
  }

  /** `SELECT ... WHERE col = ?`, first row: None when no row holds the value. */
  function Get(rows: seq<Row>, c: Cell): (r: Option<Row>)
    ensures r.Some? <==> exists i :: 0 <= i < |rows| && Holds(rows[i], c)
    ensures r.Some? ==> r.value in rows && Holds(r.value, c)
  {
    var i := Find(rows, c);
    if i.Some? then Some(rows[i.value]) else None
  }

  // ---- the closest-row lookups ----

  /** The `source` or `target` column of a row, by column. */
  function AddrOf(row: Row, col: Column): Option<int>
  {
    match col
    case SourceCol => row.source
    case TargetCol => row.target
    case SymbolCol => None
  }

  /**
   * `WHERE col <= ? ORDER BY col DESC LIMIT 1`: the index of a row whose
   * address is the greatest one not above the query.
   */
  function Closest(rows: seq<Row>, col: Column, q: int): (r: Option<nat>)
    ensures r.Some? ==> r.value < |rows| && AddrOf(rows[r.value], col).Some? && AddrOf(rows[r.value], col).value <= q
    ensures r.Some? ==> forall i :: 0 <= i < |rows| && AddrOf(rows[i], col).Some? && AddrOf(rows[i], col).value <= q ==>
      AddrOf(rows[i], col).value <= AddrOf(rows[r.value], col).value
    ensures r.None? <==> forall i :: 0 <= i < |rows| ==> AddrOf(rows[i], col).None? || AddrOf(rows[i], col).value > q
  {
    if rows == [] then None
    else
      var prefix := rows[..|rows| - 1];
      var last := rows[|rows| - 1];
      var best := Closest(prefix, col, q);
      assert forall i :: 0 <= i < |prefix| ==> prefix[i] == rows[i];
      var a := AddrOf(last, col);
      if a.None? || a.value > q then best
      else if best.Some? && a.value <= AddrOf(rows[best.value], col).value then best
      else Some(|rows| - 1)
  }

  function GetClosest(rows: seq<Row>, col: Column, q: int): (r: Option<Row>)
    ensures r.Some? ==> r.value in rows
  {
    var i := Closest(rows, col, q);
    if i.Some? then Some(rows[i.value]) else None
  }

  /** `get_closest_source(q)` on a table holding sources 100 and 200 and a query of 150 is the row at 100. */
  lemma ClosestBelow()
    ensures GetClosest([Blank.(source := Some(100)), Blank.(source := Some(200))], SourceCol, 150) == Some(Blank.(source := Some(100)))
  {
    var rows := [Blank.(source := Some(100)), Blank.(source := Some(200))];
    var r := Closest(rows, SourceCol, 150);
    assert AddrOf(rows[0], SourceCol) == Some(100);
    assert r.Some? && r.value < 2;
  }

  // ---- `ReccmpThing` ----

  /** `matched`: both the source and the target are set. */
  function Matched(row: Row): (r: bool)
    ensures r <==> Filled(row, SourceCol) && Filled(row, TargetCol)
  {
    row.source.Some? && row.target.Some?
  }

  /** `get(key, default)`: the stored value, JSON null included; the default only for a missing key. */
  function GetKey(row: Row, key: string, default: Value): (r: Value)
    ensures key in row.kw ==> r == row.kw[key]
    ensures key !in row.kw ==> r == default
  {
    if key in row.kw then row.kw[key] else default
  }

  /** `test(key)`: Python truthiness of the stored value, false for a missing key. */
  function Test(row: Row, key: string): (r: bool)
    ensures key !in row.kw ==> !r
    ensures key in row.kw && row.kw[key] == JNull ==> !r
  {
    CompareDb.Truthy(GetKey(row, key, JNull))
  }

  // ---- `check_kwargs` and `search` ----

  predicate IsAscii(s: string) { forall i :: 0 <= i < |s| ==> s[i] as int < 128 }

  predicate IdStart(c: char) { 'a' <= c <= 'z' || 'A' <= c <= 'Z' || c == '_' }

  predicate IdContinue(c: char) { IdStart(c) || '0' <= c <= '9' }

  /** `str.isidentifier()` on an ASCII string: a letter or underscore, then letters, digits, underscores. */
  predicate IsIdentifier(s: string)
  {
    |s| > 0 && IdStart(s[0]) && forall i :: 1 <= i < |s| ==> IdContinue(s[i])
  }

  predicate ValidKey(key: string) { IsAscii(key) && IsIdentifier(key) }

  /** `check_kwargs`: InvalidItemKeyError for the first key that is not an ASCII identifier. */
  function CheckKwargs(kwargs: Bag): (r: Result<()>)
    ensures r.Ok? <==> forall k :: k in kwargs ==> ValidKey(k)
    ensures r.Err? ==> r.error == InvalidKey
  {
    if forall k :: k in kwargs ==> ValidKey(k) then Ok(()) else Err(InvalidKey)
  }

  /** A key may not start with a digit, and may not hold quotes, spaces or punctuation. */
  lemma CheckKwargsRejects()
    ensures CheckKwargs(map["0test" := JInt(1)]) == Err(InvalidKey)
    ensures CheckKwargs(map["' drop table program; --" := JNull]) == Err(InvalidKey)
    ensures CheckKwargs(map["name" := JStr("x"), "group_1" := JInt(1)]) == Ok(())
  {
    assert !ValidKey("0test");
    assert !ValidKey("' drop table program; --");
  }

  /** The value SQLite compares: JSON true and false, and Python True and False, read as 1 and 0. */
  function SqlScalar(v: Value): Value
  {
    match v
    case JBool(b) => JInt(if b then 1 else 0)
    case _ => v
  }

  /** `json_extract(kwstore, '$.key') = ?`: a missing key, a JSON null and a None parameter are NULL and never equal. */
  predicate KeyEquals(kw: Bag, key: string, param: Value)
  {
    key in kw && kw[key] != JNull && param != JNull && SqlScalar(kw[key]) == SqlScalar(param)
  }

  /** The WHERE clause of `search`: every keyword equal, and `matched` as requested when given. */
  predicate Selected(row: Row, matched: Option<bool>, kwargs: Bag)
  {
    && (forall k :: k in kwargs ==> KeyEquals(row.kw, k, kwargs[k]))
    && (matched.Some? ==> Matched(row) == matched.value)
  }

  /** The rows `search` yields, in rowid order. */
  function Select(rows: seq<Row>, matched: Option<bool>, kwargs: Bag): (r: seq<Row>)
    ensures |r| <= |rows|
    ensures forall x :: x in r ==> x in rows && Selected(x, matched, kwargs)
    ensures forall i :: 0 <= i < |rows| && Selected(rows[i], matched, kwargs) ==> rows[i] in r
  {
    if rows == [] then []
    else
      var prefix := rows[..|rows| - 1];
      var last := rows[|rows| - 1];
      assert forall i :: 0 <= i < |prefix| ==> prefix[i] == rows[i];
      Select(prefix, matched, kwargs) + (if Selected(last, matched, kwargs) then [last] else [])
  }

  /** A keyword given as None selects nothing, whatever the rows hold. */
  lemma NoneSelectsNothing(rows: seq<Row>, matched: Option<bool>, kwargs: Bag, key: string)
    requires key in kwargs && kwargs[key] == JNull
    ensures Select(rows, matched, kwargs) == []
  {
  }

  /** The column names that are never given an index. */
  const SpecialCols: set<string> := {"rowid", "uid", "source", "target", "matched", "kwstore"}

  // ---- unique columns are written once ----

  /**
   * The table after a write: no row is removed or reordered, and a unique
   * column that was set keeps its value.
   */
  ghost predicate Extends(before: seq<Row>, after: seq<Row>)
  {
    && |before| <= |after|
    && forall i :: 0 <= i < |before| ==>
         && (before[i].source.Some? ==> after[i].source == before[i].source)
         && (before[i].target.Some? ==> after[i].target == before[i].target)
         && (before[i].symbol.Some? ==> after[i].symbol == before[i].symbol)
  }

  lemma ExtendsTransitive(a: seq<Row>, b: seq<Row>, c: seq<Row>)
    requires Extends(a, b) && Extends(b, c)
    ensures Extends(a, c)
  {}

  /** A value no row holds can be placed in a row that has that column NULL without breaking uniqueness. */
  lemma PutKeepsUnique(rows: seq<Row>, i: nat, c: Cell)
    requires Unique(rows) && i < |rows| && !Filled(rows[i], ColumnOf(c))
    requires Find(rows, c).None?
    ensures Unique(rows[i := Put(rows[i], c)])
  {
    var after := rows[i := Put(rows[i], c)];
    forall a, b | 0 <= a < |after| && 0 <= b < |after| && a != b
      ensures Apart(after[a], after[b])
    {
      assert Apart(rows[a], rows[b]);
      if a == i {
        assert !Holds(rows[b], c);
      } else if b == i {
        assert !Holds(rows[a], c);
      }
    }
  }

  /** Appending a row whose set values no row holds keeps uniqueness. */
  lemma AppendKeepsUnique(rows: seq<Row>, row: Row)
    requires Unique(rows)
    requires row.source.Some? ==> Find(rows, Source(row.source.value)).None?
    requires row.target.Some? ==> Find(rows, Target(row.target.value)).None?
    requires row.symbol.Some? ==> Find(rows, Symbol(row.symbol.value)).None?
    ensures Unique(rows + [row])
  {
    var after := rows + [row];
    forall a, b | 0 <= a < |after| && 0 <= b < |after| && a != b
      ensures Apart(after[a], after[b])
    {
      if a < |rows| && b < |rows| {
        assert Apart(rows[a], rows[b]);
      } else if a == |rows| {
        assert row.source.Some? ==> !Holds(rows[b], Source(row.source.value));
        assert row.target.Some? ==> !Holds(rows[b], Target(row.target.value));
        assert row.symbol.Some? ==> !Holds(rows[b], Symbol(row.symbol.value));
      } else {
        assert row.source.Some? ==> !Holds(rows[a], Source(row.source.value));
        assert row.target.Some? ==> !Holds(rows[a], Target(row.target.value));
        assert row.symbol.Some? ==> !Holds(rows[a], Symbol(row.symbol.value));
      }
    }
  }

  /** Changing only the store of a row keeps uniqueness. */
  lemma StoreKeepsUnique(rows: seq<Row>, i: nat, kw: Bag)
    requires Unique(rows) && i < |rows|
    ensures Unique(rows[i := rows[i].(kw := kw)])
  {
    var after := rows[i := rows[i].(kw := kw)];
    forall a, b | 0 <= a < |after| && 0 <= b < |after| && a != b
      ensures Apart(after[a], after[b])
    {
      assert Apart(rows[a], rows[b]);
    }
  }
}
