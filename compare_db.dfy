/**
 * The entity table of the comparison database: one row per entity, keyed by
 * an address in the original binary, an address in the recompiled binary,
 * or both; each address is unique across rows; the attributes are a JSON
 * bag. The table is held as four maps (rows with an orig address, the
 * orig<->recomp links of matched rows in both directions, and rows that
 * only have a recomp address), and the SQL statements and views become
 * functions on that value.
 */
module CompareDb {
  import opened Wrappers
  import opened JsonBag
  import opened Bytes
  import Order

  /**
   * Every entity kind the comparison code uses; the stored value is the
   * lower-case name. PTR is the member whose value is "pointer".
   */
  datatype EntityType = ERRTYPE | UNKNOWN | FUNCTION | DATA | PTR | STRING | VTABLE | FLOAT | LINE | WIDECHAR | IMPORT

  /** The member name, as `EntityTypeLookup` shows it: the value in upper case. */
  function TypeName(t: EntityType): string
  {
    Order.Upper(TypeValue(t))
  }

  /** The `StrEnum` value: `enum.auto()` gives the member name in lower case. */
  function TypeValue(t: EntityType): string
  {
    match t
    case ERRTYPE => "errtype" case UNKNOWN => "unknown" case FUNCTION => "function"
    case DATA => "data" case PTR => "pointer" case STRING => "string"
    case VTABLE => "vtable" case FLOAT => "float" case LINE => "line"
    case WIDECHAR => "widechar" case IMPORT => "import"
  }

  /** `EntityType(value)`, None where Python raises ValueError. */
  function TypeFromValue(v: string): (r: Option<EntityType>)
    ensures r.Some? ==> TypeValue(r.value) == v
  {
    if v == "errtype" then Some(ERRTYPE) else if v == "unknown" then Some(UNKNOWN)
    else if v == "function" then Some(FUNCTION) else if v == "data" then Some(DATA)
    else if v == "pointer" then Some(PTR) else if v == "string" then Some(STRING)
    else if v == "vtable" then Some(VTABLE) else if v == "float" then Some(FLOAT)
    else if v == "line" then Some(LINE) else if v == "widechar" then Some(WIDECHAR)
    else if v == "import" then Some(IMPORT) else None
  }

  lemma TypeValueRoundTrip(t: EntityType)
    ensures TypeFromValue(TypeValue(t)) == Some(t)
    ensures TypeValue(t) == Order.Lower(TypeName(t))
  {
    var v := TypeValue(t);
    assert forall i :: 0 <= i < |v| ==> 'a' <= v[i] <= 'z';
    assert Order.Lower(Order.Upper(v)) == v;
  }

  /** The JSON value a type is stored as. */
  function TypeJson(t: EntityType): Value { JStr(TypeValue(t)) }

  // ---------------------------------------------------------------------
  // ReccmpEntity and its accessors

  datatype Entity = Entity(orig: Option<int>, recomp: Option<int>, kv: Bag)

  /** The constructor's assertion: at least one address. */
  predicate HasAddress(e: Entity) { e.orig.Some? || e.recomp.Some? }

  function Matched(e: Entity): (r: bool)
    ensures r <==> e.orig.Some? && e.recomp.Some?
  { e.orig.Some? && e.recomp.Some? }

  /** `options.get(key, default)`; JSON null reads back as Python None. */
  function Attr(e: Entity, key: string, default: Value): (r: Value)
    ensures key !in e.kv ==> r == default
    ensures key in e.kv ==> r == e.kv[key]
  { if key in e.kv then e.kv[key] else default }

  function EntityTypeOf(e: Entity): Value { Attr(e, "type", JNull) }
  function NameOf(e: Entity): Value { Attr(e, "name", JNull) }

  /** `size` defaults to 0 when the key is absent. */
  function SizeOf(e: Entity): (r: Value)
    ensures "size" !in e.kv ==> r == JInt(0)
  { Attr(e, "size", JInt(0)) }

  /** Python truthiness of a JSON value. */
  predicate Truthy(v: Value)
  {
    match v
    case JNull => false
    case JBool(b) => b
    case JInt(i) => i != 0
    case JStr(s) => s != ""
  }

  function IntString(i: int): string
  {
    if i < 0 then "-" + Order.DecimalString(-i) else Order.DecimalString(i)
  }

  /** `str(value)`. */
  function PyStr(v: Value): string
  {
    match v
    case JNull => "None"
    case JBool(b) => if b then "True" else "False"
    case JInt(i) => IntString(i)
    case JStr(s) => s
  }

  /** The first of `computed_name`, `name` that is set. */
  function BestName(e: Entity): (r: Option<string>)
    ensures Attr(e, "computed_name", JNull) != JNull ==> r == Some(PyStr(e.kv["computed_name"]))
    ensures Attr(e, "computed_name", JNull) == JNull && NameOf(e) != JNull ==> r == Some(PyStr(e.kv["name"]))
    ensures r.None? <==> Attr(e, "computed_name", JNull) == JNull && NameOf(e) == JNull
  {
    var computed := Attr(e, "computed_name", JNull);
    if computed != JNull then Some(PyStr(computed))
    else if NameOf(e) != JNull then Some(PyStr(NameOf(e)))
    else None
  }

  /** `EntityTypeLookup.get(entity_type or -1, "UNK")`. */
  function TypeLabel(v: Value): (r: string)
    ensures !Truthy(v) ==> r == "UNK"
    ensures v.JStr? && TypeFromValue(v.s).Some? ==> r == TypeName(TypeFromValue(v.s).value)
  {
    if !Truthy(v) then "UNK"
    else match v
      case JStr(s) => (match TypeFromValue(s) case Some(t) => TypeName(t) case None => "UNK")
      case _ => "UNK"
  }

  /** `"{best_name} ({ctype})"`, or None without a name. */
  function MatchName(e: Entity): (r: Option<string>)
    ensures r.Some? <==> BestName(e).Some?
    ensures r.Some? ==> r.value == BestName(e).value + " (" + TypeLabel(EntityTypeOf(e)) + ")"
  {
    match BestName(e)
    case None => None
    case Some(best) => Some(best + " (" + TypeLabel(EntityTypeOf(e)) + ")")
  }

  /** `"{name}+{ofs} (OFFSET)"`, or None without a `name` attribute. */
  function OffsetName(e: Entity, ofs: int): (r: Option<string>)
    ensures r.None? <==> NameOf(e) == JNull
    ensures r.Some? ==> r.value == PyStr(NameOf(e)) + "+" + IntString(ofs) + " (OFFSET)"
  {
    if NameOf(e) == JNull then None else Some(PyStr(NameOf(e)) + "+" + IntString(ofs) + " (OFFSET)")
  }

  // ---------------------------------------------------------------------
  // The entities table

  datatype Table = Table(
    origRows: map<int, Bag>,    // every row that has an orig address, by that address
    recompOf: map<int, int>,    // orig -> recomp of the matched rows
    origOf: map<int, int>,      // recomp -> orig of the matched rows
    recompRows: map<int, Bag>)  // rows with a recomp address and no orig address

  const EmptyTable := Table(map[], map[], map[], map[])

  /** The two maps of links are inverse to each other and no recomp address is used twice. */
  ghost predicate WellFormed(t: Table)
  {
    && t.recompOf.Keys <= t.origRows.Keys
    && (forall o :: o in t.recompOf ==> t.recompOf[o] in t.origOf && t.origOf[t.recompOf[o]] == o)
    && (forall r :: r in t.origOf ==> t.origOf[r] in t.recompOf && t.recompOf[t.origOf[r]] == r)
    && t.recompRows.Keys !! t.origOf.Keys
  }

  predicate OrigUsed(t: Table, a: int) { a in t.origRows }
  predicate RecompUsed(t: Table, a: int) { a in t.recompRows || a in t.origOf }

  function EntityAtOrig(t: Table, o: int): (e: Entity)
    requires o in t.origRows
    ensures e.orig == Some(o) && HasAddress(e)
  {
    Entity(Some(o), if o in t.recompOf then Some(t.recompOf[o]) else None, t.origRows[o])
  }

  function EntityAtRecomp(t: Table, r: int): (e: Entity)
    requires WellFormed(t) && RecompUsed(t, r)
    ensures e.recomp == Some(r) && HasAddress(e)
  {
    if r in t.recompRows then Entity(None, Some(r), t.recompRows[r])
    else EntityAtOrig(t, t.origOf[r])
  }

  /** The rows of the table as entities. */
  ghost function Entities(t: Table): set<Entity>
    requires WellFormed(t)
  {
    (set o | o in t.origRows :: EntityAtOrig(t, o)) + (set r | r in t.recompRows :: EntityAtRecomp(t, r))
  }

  /** `orig_addr int unique, recomp_addr int unique`, and every row has an address. */
  lemma UniqueAddresses(t: Table, e1: Entity, e2: Entity)
    requires WellFormed(t) && e1 in Entities(t) && e2 in Entities(t)
    ensures HasAddress(e1)
    ensures e1.orig.Some? && e1.orig == e2.orig ==> e1 == e2
    ensures e1.recomp.Some? && e1.recomp == e2.recomp ==> e1 == e2
  {}

  // ---- single-row statements ----

  /** `INSERT OR IGNORE` (upsert false) or `INSERT ... ON CONFLICT (orig_addr) DO UPDATE SET kvstore = json_patch(kvstore, new)`. */
  function InsertOrig(t: Table, a: int, kv: Bag, upsert: bool): (r: Table)
    requires WellFormed(t)
    ensures WellFormed(r)
    ensures r.recompOf == t.recompOf && r.origOf == t.origOf && r.recompRows == t.recompRows
    ensures r.origRows.Keys == t.origRows.Keys + {a}
    ensures forall o :: o in t.origRows && o != a ==> r.origRows[o] == t.origRows[o]
    ensures a !in t.origRows ==> r.origRows[a] == kv
    ensures a in t.origRows ==> r.origRows[a] == if upsert then Patch(t.origRows[a], kv) else t.origRows[a]
  {
    if a in t.origRows then
      if upsert then t.(origRows := t.origRows[a := Patch(t.origRows[a], kv)]) else t
    else t.(origRows := t.origRows[a := kv])
  }

  /** The same two statements keyed on recomp_addr, which may sit on a matched row. */
  function InsertRecomp(t: Table, a: int, kv: Bag, upsert: bool): (r: Table)
    requires WellFormed(t)
    ensures WellFormed(r)
    ensures r.recompOf == t.recompOf && r.origOf == t.origOf
    ensures RecompUsed(r, a) && forall x :: RecompUsed(r, x) <==> RecompUsed(t, x) || x == a
    ensures !RecompUsed(t, a) ==> r == t.(recompRows := t.recompRows[a := kv])
    ensures RecompUsed(t, a) && !upsert ==> r == t
    ensures RecompUsed(t, a) && upsert ==> EntityAtRecomp(r, a).kv == Patch(EntityAtRecomp(t, a).kv, kv)
    ensures forall o :: o in t.origRows && !(a in t.origOf && o == t.origOf[a]) ==> o in r.origRows && r.origRows[o] == t.origRows[o]
    ensures forall x :: x in t.recompRows && x != a ==> x in r.recompRows && r.recompRows[x] == t.recompRows[x]
  {
    if a in t.recompRows then
      if upsert then t.(recompRows := t.recompRows[a := Patch(t.recompRows[a], kv)]) else t
    else if a in t.origOf then
      var o := t.origOf[a];
      if upsert then t.(origRows := t.origRows[o := Patch(t.origRows[o], kv)]) else t
    else t.(recompRows := t.recompRows[a := kv])
  }

  /**
   * First statement of bulk_match: when `r` has a recomp-only row and `o` an
   * orig-only row, the recomp row's bag becomes the orig bag patched with the
   * recomp bag's non-null members (`json_patch(o.kvstore, json_patch('{}', kvstore))`).
   */
  function MatchMerge(t: Table, o: int, r: int): (t': Table)
    requires WellFormed(t)
    ensures WellFormed(t')
    ensures t'.origRows == t.origRows && t'.recompOf == t.recompOf && t'.origOf == t.origOf
    ensures t'.recompRows.Keys == t.recompRows.Keys
    ensures forall x :: x in t.recompRows && x != r ==> t'.recompRows[x] == t.recompRows[x]
    ensures r in t.recompRows && o in t.origRows && o !in t.recompOf ==>
      t'.recompRows[r] == Patch(t.origRows[o], DropNulls(t.recompRows[r]))
    ensures !(r in t.recompRows && o in t.origRows && o !in t.recompOf) ==> t' == t
  {
    PatchOntoEmpty(if r in t.recompRows then t.recompRows[r] else map[]);
    if r in t.recompRows && o in t.origRows && o !in t.recompOf then
      t.(recompRows := t.recompRows[r := Patch(t.origRows[o], Patch(map[], t.recompRows[r]))])
    else t
  }

  /** Delete the row whose orig address is `o` (the REPLACE conflict resolution). */
  function DeleteOrigRow(t: Table, o: int): (t': Table)
    requires WellFormed(t)
    ensures WellFormed(t') && !OrigUsed(t', o)
    ensures t'.recompRows == t.recompRows
    ensures forall x :: x != o ==> (OrigUsed(t', x) <==> OrigUsed(t, x))
  {
    if o !in t.origRows then t
    else if o in t.recompOf then
      Table(t.origRows - {o}, t.recompOf - {o}, t.origOf - {t.recompOf[o]}, t.recompRows)
    else
      t.(origRows := t.origRows - {o})
  }

  /**
   * Second statement of bulk_match, `UPDATE OR REPLACE ... SET orig_addr = o
   * WHERE recomp_addr = r AND orig_addr is null`: the recomp-only row takes the
   * orig address, and whatever row held that orig address is deleted.
   */
  function MatchLink(t: Table, o: int, r: int): (t': Table)
    requires WellFormed(t)
    ensures WellFormed(t')
    ensures r in t.recompRows ==> o in t'.origRows && EntityAtOrig(t', o) == Entity(Some(o), Some(r), t.recompRows[r])
    ensures r !in t.recompRows ==> t' == t
  {
    if r in t.recompRows then
      var d := DeleteOrigRow(t, o);
      Table(d.origRows[o := t.recompRows[r]], d.recompOf[o := r], d.origOf[r := o], d.recompRows - {r})
    else t
  }

  /** `UPDATE entities SET recomp_addr = r WHERE orig_addr = o and recomp_addr is null`. */
  function SetRecompAddr(t: Table, o: int, r: int): (res: Result<Table>)
    requires WellFormed(t)
    ensures res.Ok? ==> WellFormed(res.value)
    ensures res.Err? <==> o in t.origRows && o !in t.recompOf && RecompUsed(t, r)
    ensures res.Ok? && o in t.origRows && o !in t.recompOf ==>
      o in res.value.origRows && EntityAtOrig(res.value, o) == Entity(Some(o), Some(r), t.origRows[o])
    ensures res.Ok? && !(o in t.origRows && o !in t.recompOf) ==> res.value == t
    ensures res.Ok? ==> res.value.origRows == t.origRows && res.value.recompRows == t.recompRows
    ensures res.Ok? ==> forall x :: x in t.recompOf ==> x in res.value.recompOf && res.value.recompOf[x] == t.recompOf[x]
  {
    if o in t.origRows && o !in t.recompOf then
      if RecompUsed(t, r) then Err(IntegrityError)
      else Ok(t.(recompOf := t.recompOf[o := r], origOf := t.origOf[r := o]))
    else Ok(t)
  }

  /**
   * set_pair: refused (false, nothing changed) when `o` is already used;
   * otherwise the row holding recomp address `r` takes orig address `o` and its
   * `type` member is overwritten with `ty` (json_set, so None is stored as null).
   */
  function SetPair(t: Table, o: int, r: int, ty: Value): (res: (Table, bool))
    requires WellFormed(t)
    ensures WellFormed(res.0)
    ensures OrigUsed(t, o) ==> res == (t, false)
    ensures !OrigUsed(t, o) ==> res.1 == RecompUsed(t, r)
    ensures res.1 ==> o in res.0.origRows && EntityAtOrig(res.0, o) == Entity(Some(o), Some(r), Set(EntityAtRecomp(t, r).kv, map["type" := ty]))
    ensures !res.1 ==> res.0 == t
    ensures res.1 ==> forall x :: x in t.origRows && x != o && !(r in t.origOf && x == t.origOf[r]) ==> x in res.0.origRows && res.0.origRows[x] == t.origRows[x]
    ensures res.1 ==> forall x :: x in t.recompRows && x != r ==> x in res.0.recompRows && res.0.recompRows[x] == t.recompRows[x]
  {
    if o in t.origRows then (t, false)
    else if r in t.recompRows then
      (Table(t.origRows[o := Set(t.recompRows[r], map["type" := ty])], t.recompOf[o := r], t.origOf[r := o], t.recompRows - {r}), true)
    else if r in t.origOf then
      var o2 := t.origOf[r];
      (Table((t.origRows - {o2})[o := Set(t.origRows[o2], map["type" := ty])], (t.recompOf - {o2})[o := r], t.origOf[r := o], t.recompRows), true)
    else (t, false)
  }

  // ---- executemany over a sequence of rows ----

  function InsertOrigAll(t: Table, rows: seq<(int, Bag)>, upsert: bool): (r: Table)
    requires WellFormed(t)
    ensures WellFormed(r)
  {
    if rows == [] then t
    else
      var last := rows[|rows| - 1];
      InsertOrig(InsertOrigAll(t, rows[..|rows| - 1], upsert), last.0, last.1, upsert)
  }

  function InsertRecompAll(t: Table, rows: seq<(int, Bag)>, upsert: bool): (r: Table)
    requires WellFormed(t)
    ensures WellFormed(r)
  {
    if rows == [] then t
    else
      var last := rows[|rows| - 1];
      InsertRecomp(InsertRecompAll(t, rows[..|rows| - 1], upsert), last.0, last.1, upsert)
  }

  function MatchMergeAll(t: Table, pairs: seq<(int, int)>): (r: Table)
    requires WellFormed(t)
    ensures WellFormed(r)
  {
    if pairs == [] then t
    else
      var last := pairs[|pairs| - 1];
      MatchMerge(MatchMergeAll(t, pairs[..|pairs| - 1]), last.0, last.1)
  }

  function MatchLinkAll(t: Table, pairs: seq<(int, int)>): (r: Table)
    requires WellFormed(t)
    ensures WellFormed(r)
  {
    if pairs == [] then t
    else
      var last := pairs[|pairs| - 1];
      MatchLink(MatchLinkAll(t, pairs[..|pairs| - 1]), last.0, last.1)
  }

  /** bulk_match: both statements, each over the whole pair list. */
  function MatchAll(t: Table, pairs: seq<(int, int)>): (r: Table)
    requires WellFormed(t)
    ensures WellFormed(r)
  {
    MatchLinkAll(MatchMergeAll(t, pairs), pairs)
  }

  /**
   * bulk_match of one pair joining an orig-only row and a recomp-only row:
   * one matched row remains, holding the orig bag under the recomp bag's
   * non-null members, and the recomp-only row is gone.
   */
  lemma MatchOneMerges(t: Table, o: int, r: int)
    requires WellFormed(t)
    requires o in t.origRows && o !in t.recompOf && r in t.recompRows
    ensures o in MatchAll(t, [(o, r)]).origRows
    ensures EntityAtOrig(MatchAll(t, [(o, r)]), o) ==
      Entity(Some(o), Some(r), Patch(t.origRows[o], DropNulls(t.recompRows[r])))
    ensures r !in MatchAll(t, [(o, r)]).recompRows
  {
    var pairs := [(o, r)];
    assert pairs[..|pairs| - 1] == [];
    var m := MatchMergeAll(t, pairs);
    assert m == MatchMerge(MatchMergeAll(t, []), o, r);
    assert MatchLinkAll(m, pairs) == MatchLink(MatchLinkAll(m, []), o, r);
  }

  /** One more row extends the executemany of InsertOrig by one statement. */
  lemma InsertOrigAllSnoc(t: Table, rows: seq<(int, Bag)>, i: int, upsert: bool)
    requires WellFormed(t) && 0 <= i < |rows|
    ensures InsertOrigAll(t, rows[..i + 1], upsert) == InsertOrig(InsertOrigAll(t, rows[..i], upsert), rows[i].0, rows[i].1, upsert)
  {
    assert rows[..i + 1][..i] == rows[..i];
  }

  /** One more row extends the executemany of InsertRecomp by one statement. */
  lemma InsertRecompAllSnoc(t: Table, rows: seq<(int, Bag)>, i: int, upsert: bool)
    requires WellFormed(t) && 0 <= i < |rows|
    ensures InsertRecompAll(t, rows[..i + 1], upsert) == InsertRecomp(InsertRecompAll(t, rows[..i], upsert), rows[i].0, rows[i].1, upsert)
  {
    assert rows[..i + 1][..i] == rows[..i];
  }

  function SetRecompAddrAll(t: Table, pairs: seq<(int, int)>): (r: Result<Table>)
    requires WellFormed(t)
    ensures r.Ok? ==> WellFormed(r.value)
  {
    if pairs == [] then Ok(t)
    else
      var last := pairs[|pairs| - 1];
      match SetRecompAddrAll(t, pairs[..|pairs| - 1])
      case Ok(t1) => SetRecompAddr(t1, last.0, last.1)
      case Err(e) => Err(e)
  }

  // ---- queries ----

  /** get_by_orig: the row at `a`, or with exact=False the row with the greatest orig address <= a. */
  function GetByOrig(t: Table, a: int, exact: bool): (r: Option<Entity>)
    ensures exact ==> (r.Some? <==> a in t.origRows)
    ensures !exact ==> (r.Some? <==> exists o :: o in t.origRows && o <= a)
    ensures r.Some? ==> (r.value.orig.Some? && r.value.orig.value in t.origRows
      && r.value == EntityAtOrig(t, r.value.orig.value))
    ensures r.Some? && exact ==> r.value.orig == Some(a)
    ensures r.Some? ==> (r.value.orig.value <= a
      && forall o :: o in t.origRows && o <= a ==> o <= r.value.orig.value)
  {
    if exact then (if a in t.origRows then Some(EntityAtOrig(t, a)) else None)
    else
      var below := set o | o in t.origRows && o <= a;
      assert forall o :: o in t.origRows && o <= a ==> o in below;
      if below == {} then None else Some(EntityAtOrig(t, Order.SetMax(below)))
  }

  /** get_by_recomp: the same over recomp addresses, matched or not. */
  function GetByRecomp(t: Table, a: int, exact: bool): (r: Option<Entity>)
    requires WellFormed(t)
    ensures exact ==> (r.Some? <==> RecompUsed(t, a))
    ensures !exact ==> (r.Some? <==> exists x :: RecompUsed(t, x) && x <= a)
    ensures r.Some? ==> (r.value.recomp.Some? && RecompUsed(t, r.value.recomp.value)
      && r.value == EntityAtRecomp(t, r.value.recomp.value))
    ensures r.Some? && exact ==> r.value.recomp == Some(a)
    ensures r.Some? ==> (r.value.recomp.value <= a
      && forall x :: RecompUsed(t, x) && x <= a ==> x <= r.value.recomp.value)
  {
    if exact then (if RecompUsed(t, a) then Some(EntityAtRecomp(t, a)) else None)
    else
      var below := set x | x in t.recompRows.Keys + t.origOf.Keys && x <= a;
      assert forall x :: RecompUsed(t, x) && x <= a ==> x in below;
      if below == {} then None else Some(EntityAtRecomp(t, Order.SetMax(below)))
  }

  /** `json_extract(kvstore,'$.type') != 'line'`: SQL NULL (absent or null type) fails the test. */
  predicate TypedNotLine(kv: Bag)
  {
    "type" in kv && kv["type"] != JNull && kv["type"] != TypeJson(LINE)
  }

  /** get_next_orig_addr: the least orig address above `a` whose type is set and is not LINE. */
  function NextOrigAddr(t: Table, a: int): (r: Option<int>)
    ensures r.Some? ==> r.value > a && r.value in t.origRows && TypedNotLine(t.origRows[r.value])
    ensures r.Some? ==> forall o :: o in t.origRows && o > a && TypedNotLine(t.origRows[o]) ==> r.value <= o
    ensures r.None? <==> forall o :: o in t.origRows && o > a ==> !TypedNotLine(t.origRows[o])
  {
    var after := set o | o in t.origRows && o > a && TypedNotLine(t.origRows[o]);
    assert forall o :: o in t.origRows && o > a && TypedNotLine(t.origRows[o]) ==> o in after;
    if after == {} then None else Some(Order.SetMin(after))
  }

  /** View orig_unmatched: orig-only rows in ascending orig address. */
  function OrigUnmatched(t: Table): (s: seq<Entity>)
    ensures forall i :: 0 <= i < |s| ==> (s[i].orig.Some? && s[i].recomp.None?
      && s[i].orig.value in t.origRows && s[i] == EntityAtOrig(t, s[i].orig.value))
    ensures AscendingOrig(s)
    ensures forall o :: o in t.origRows && o !in t.recompOf ==> exists i :: 0 <= i < |s| && s[i].orig == Some(o)
  {
    var unmatched := set o | o in t.origRows && o !in t.recompOf;
    var keys := Order.SortedKeys(unmatched);
    assert forall i :: 0 <= i < |keys| ==> keys[i] in unmatched;
    var s := RowsAtOrig(t, keys);
    OrigRowsListed(t, keys, s);
    s
  }

  /** The rows of `OrigUnmatched`, built from the sorted orig-only addresses, list every orig-only row once, in order. */
  lemma OrigRowsListed(t: Table, keys: seq<int>, s: seq<Entity>)
    requires Order.StrictlySorted(keys) && forall x :: x in keys <==> x in t.origRows && x !in t.recompOf
    requires |s| == |keys| && forall i :: 0 <= i < |keys| ==> keys[i] in t.origRows && s[i] == EntityAtOrig(t, keys[i])
    ensures forall i :: 0 <= i < |s| ==> (s[i].orig.Some? && s[i].recomp.None?
      && s[i].orig.value in t.origRows && s[i] == EntityAtOrig(t, s[i].orig.value))
    ensures AscendingOrig(s)
    ensures forall o :: o in t.origRows && o !in t.recompOf ==> exists i :: 0 <= i < |s| && s[i].orig == Some(o)
  {
    forall o | o in t.origRows && o !in t.recompOf ensures exists i :: 0 <= i < |s| && s[i].orig == Some(o) {
      var i :| 0 <= i < |keys| && keys[i] == o;
      assert s[i].orig == Some(o);
    }
  }

  /** View recomp_unmatched: recomp-only rows in ascending recomp address. */
  function RecompUnmatched(t: Table): (s: seq<Entity>)
    ensures forall i :: 0 <= i < |s| ==> (s[i].recomp.Some? && s[i].orig.None?
      && s[i].recomp.value in t.recompRows && s[i].kv == t.recompRows[s[i].recomp.value])
    ensures forall i, j :: 0 <= i < j < |s| ==> s[i].recomp.value < s[j].recomp.value
    ensures forall r :: r in t.recompRows ==> exists i :: 0 <= i < |s| && s[i].recomp == Some(r)
  {
    var unmatched := set r | r in t.recompRows;
    var keys := Order.SortedKeys(unmatched);
    assert forall i :: 0 <= i < |keys| ==> keys[i] in unmatched;
    var s := seq(|keys|, i requires 0 <= i < |keys| => Entity(None, Some(keys[i]), t.recompRows[keys[i]]));
    RecompRowsListed(t, keys, s);
    s
  }

  /** The rows of `RecompUnmatched`, built from the sorted recomp addresses, list every recomp-only row once, in order. */
  lemma RecompRowsListed(t: Table, keys: seq<int>, s: seq<Entity>)
    requires Order.StrictlySorted(keys) && forall x :: x in keys <==> x in t.recompRows
    requires |s| == |keys| && forall i :: 0 <= i < |keys| ==> keys[i] in t.recompRows && s[i] == Entity(None, Some(keys[i]), t.recompRows[keys[i]])
    ensures forall i :: 0 <= i < |s| ==> (s[i].recomp.Some? && s[i].orig.None?
      && s[i].recomp.value in t.recompRows && s[i].kv == t.recompRows[s[i].recomp.value])
    ensures forall i, j :: 0 <= i < j < |s| ==> s[i].recomp.value < s[j].recomp.value
    ensures forall r :: r in t.recompRows ==> exists i :: 0 <= i < |s| && s[i].recomp == Some(r)
  {
    forall r | r in t.recompRows ensures exists i :: 0 <= i < |s| && s[i].recomp == Some(r) {
      var i :| 0 <= i < |keys| && keys[i] == r;
      assert s[i].recomp == Some(r);
    }
  }

  /** `json_extract(kvstore, '$.type') = ty`. */
  predicate OfType(kv: Bag, ty: EntityType)
  {
    "type" in kv && kv["type"] == TypeJson(ty)
  }

  /** get_matches_by_type: matched rows of one type, in ascending orig address. */
  function MatchesByType(t: Table, ty: EntityType): (s: seq<Entity>)
    ensures forall i :: 0 <= i < |s| ==> (Matched(s[i]) && s[i].orig.value in t.origRows
      && s[i] == EntityAtOrig(t, s[i].orig.value) && OfType(s[i].kv, ty))
    ensures AscendingOrig(s)
    ensures forall o :: o in t.recompOf && o in t.origRows && OfType(t.origRows[o], ty) ==>
      exists i :: 0 <= i < |s| && s[i].orig == Some(o)
  {
    var typed := set o | o in t.recompOf && o in t.origRows && OfType(t.origRows[o], ty);
    var keys := Order.SortedKeys(typed);
    assert forall i :: 0 <= i < |keys| ==> keys[i] in typed;
    var s := RowsAtOrig(t, keys);
    assert forall i :: 0 <= i < |s| ==> (Matched(s[i]) && s[i].orig.value in t.origRows
      && s[i] == EntityAtOrig(t, s[i].orig.value) && OfType(s[i].kv, ty)) by {
      forall i | 0 <= i < |s|
        ensures Matched(s[i]) && s[i].orig.value in t.origRows
          && s[i] == EntityAtOrig(t, s[i].orig.value) && OfType(s[i].kv, ty) {
        assert keys[i] in typed;
      }
    }
    assert forall o :: o in t.recompOf && o in t.origRows && OfType(t.origRows[o], ty) ==>
      exists i :: 0 <= i < |s| && s[i].orig == Some(o) by {
      forall o | o in t.recompOf && o in t.origRows && OfType(t.origRows[o], ty)
        ensures exists i :: 0 <= i < |s| && s[i].orig == Some(o) {
        assert o in typed;
        assert o in keys;
        var i :| 0 <= i < |keys| && keys[i] == o;
        assert s[i].orig == Some(o);
      }
    }
    s
  }

  /** `ORDER BY orig_addr` over rows that all have an orig address. */
  predicate AscendingOrig(s: seq<Entity>)
  {
    && (forall i :: 0 <= i < |s| ==> s[i].orig.Some?)
    && (forall i, j :: 0 <= i < j < |s| ==> s[i].orig.value < s[j].orig.value)
  }

  /** The rows at a list of orig addresses, in that order. */
  function RowsAtOrig(t: Table, keys: seq<int>): (s: seq<Entity>)
    requires forall i :: 0 <= i < |keys| ==> keys[i] in t.origRows
    ensures |s| == |keys|
    ensures forall i :: 0 <= i < |s| ==> s[i].orig == Some(keys[i]) && s[i] == EntityAtOrig(t, keys[i])
    ensures Order.StrictlySorted(keys) ==> AscendingOrig(s)
  {
    seq(|keys|, i requires 0 <= i < |keys| => EntityAtOrig(t, keys[i]))
  }

  // ---------------------------------------------------------------------
  // EntityDb: the connection, holding the tables

  class EntityDb {
    var table: Table
    var types: map<(int, int), EntityType>   // (img, addr) -> type
    var labels: map<(int, int), Value>       // (img, addr) -> label
    var raw: map<(int, int), byteseq>        // (img, addr) -> bytes read from the image

    ghost predicate Valid() reads this { WellFormed(table) }

    constructor()
      ensures Valid() && table == EmptyTable && types == map[] && labels == map[] && raw == map[]
    {
      table := EmptyTable;
      types := map[];
      labels := map[];
      raw := map[];
    }

    /** bulk_orig_insert. */
    method BulkOrigInsert(rows: seq<(int, Bag)>, upsert: bool)
      requires Valid()
      modifies this`table
      ensures Valid() && table == InsertOrigAll(old(table), rows, upsert)
    {
      var i := 0;
      while i < |rows|
        invariant 0 <= i <= |rows|
        invariant WellFormed(table) && table == InsertOrigAll(old(table), rows[..i], upsert)
      {
        InsertOrigAllSnoc(old(table), rows, i, upsert);
        table := InsertOrig(table, rows[i].0, rows[i].1, upsert);
        i := i + 1;
      }
      assert rows[..|rows|] == rows;
    }

    /** bulk_recomp_insert. */
    method BulkRecompInsert(rows: seq<(int, Bag)>, upsert: bool)
      requires Valid()
      modifies this`table
      ensures Valid() && table == InsertRecompAll(old(table), rows, upsert)
    {
      var i := 0;
      while i < |rows|
        invariant 0 <= i <= |rows|
        invariant WellFormed(table) && table == InsertRecompAll(old(table), rows[..i], upsert)
      {
        InsertRecompAllSnoc(old(table), rows, i, upsert);
        table := InsertRecomp(table, rows[i].0, rows[i].1, upsert);
        i := i + 1;
      }
      assert rows[..|rows|] == rows;
    }

    /** set_orig_symbol: insert-or-ignore of one row. */
    method SetOrigSymbol(addr: int, kv: Bag)
      requires Valid()
      modifies this`table
      ensures Valid() && table == InsertOrig(old(table), addr, kv, false)
    {
      BulkOrigInsert([(addr, kv)], false);
      assert [(addr, kv)][..0] == [];
    }

    /** set_recomp_symbol: insert-or-ignore of one row. */
    method SetRecompSymbol(addr: int, kv: Bag)
      requires Valid()
      modifies this`table
      ensures Valid() && table == InsertRecomp(old(table), addr, kv, false)
    {
      BulkRecompInsert([(addr, kv)], false);
      assert [(addr, kv)][..0] == [];
    }

    /** bulk_match: the merge statement over all pairs, then the link statement over all pairs. */
    method BulkMatch(pairs: seq<(int, int)>)
      requires Valid()
      modifies this`table
      ensures Valid() && table == MatchAll(old(table), pairs)
    {
      var i := 0;
      while i < |pairs|
        invariant 0 <= i <= |pairs|
        invariant WellFormed(table) && table == MatchMergeAll(old(table), pairs[..i])
      {
        assert pairs[..i + 1][..i] == pairs[..i];
        table := MatchMerge(table, pairs[i].0, pairs[i].1);
        i := i + 1;
      }
      assert pairs[..|pairs|] == pairs;
      ghost var merged := table;
      i := 0;
      while i < |pairs|
        invariant 0 <= i <= |pairs|
        invariant WellFormed(table) && table == MatchLinkAll(merged, pairs[..i])
      {
        assert pairs[..i + 1][..i] == pairs[..i];
        table := MatchLink(table, pairs[i].0, pairs[i].1);
        i := i + 1;
      }
      assert pairs[..|pairs|] == pairs;
    }

    /**
     * bulk_set_recomp_addr. A UNIQUE violation raises IntegrityError; the
     * transaction in EntityBatch.commit then rolls the statement back, which is
     * modelled here by leaving the table as it was.
     */
    method BulkSetRecompAddr(pairs: seq<(int, int)>) returns (ok: bool)
      requires Valid()
      modifies this`table
      ensures Valid()
      ensures ok <==> SetRecompAddrAll(old(table), pairs).Ok?
      ensures ok ==> table == SetRecompAddrAll(old(table), pairs).value
      ensures !ok ==> table == old(table)
    {
      var t := table;
      var i := 0;
      while i < |pairs|
        invariant 0 <= i <= |pairs|
        invariant SetRecompAddrAll(old(table), pairs[..i]) == Ok(t)
      {
        assert pairs[..i + 1][..i] == pairs[..i];
        var step := SetRecompAddr(t, pairs[i].0, pairs[i].1);
        if step.Err? {
          assert SetRecompAddrAll(old(table), pairs[..i + 1]).Err?;
          SetRecompAddrErrSticks(old(table), pairs, i + 1);
          return false;
        }
        t := step.value;
        i := i + 1;
      }
      assert pairs[..|pairs|] == pairs;
      table := t;
      return true;
    }

    /** set_pair. */
    method SetPairOf(o: int, r: int, ty: Option<EntityType>) returns (ok: bool)
      requires Valid()
      modifies this`table
      ensures Valid()
      ensures (table, ok) == SetPair(old(table), o, r, if ty.Some? then TypeJson(ty.value) else JNull)
    {
      var res := SetPair(table, o, r, if ty.Some? then TypeJson(ty.value) else JNull);
      table := res.0;
      ok := res.1;
    }
  }

  /** Once a statement of the list has failed, the whole list fails. */
  lemma {:induction false} SetRecompAddrErrSticks(t: Table, pairs: seq<(int, int)>, k: nat)
    requires WellFormed(t) && k <= |pairs| && SetRecompAddrAll(t, pairs[..k]).Err?
    ensures SetRecompAddrAll(t, pairs).Err?
    decreases |pairs| - k
  {
    if k < |pairs| {
      assert pairs[..k + 1][..k] == pairs[..k];
      SetRecompAddrErrSticks(t, pairs, k + 1);
    } else {
      assert pairs[..k] == pairs;
    }
  }
}
