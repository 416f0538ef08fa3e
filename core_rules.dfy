/**
 * The rules of the comparison core that sit around the matching passes:
 * pointer equivalence, the routing of a match to its comparison, and the
 * passes that discover strings and pair imports, exports, thunks and array
 * elements by staging changes in a batch.
 *
 * The binaries' contents reach these rules as already-extracted lists
 * (strings with their addresses, relocation sites, import and export tables,
 * thunks, array layouts) passed as parameters.
 */
module CoreRules {
  import opened Wrappers
  import opened JsonBag
  import opened PyDict
  import opened CompareDb
  import opened EntityBatches
  import Order

  // ---------------------------------------------------------------------
  // is_pointer_match

  /** Two pointers match when both are null, or the orig target is matched to the recomp target. */
  function IsPointerMatch(t: Table, orig: int, recomp: int): bool
  {
    if orig == 0 && recomp == 0 then true
    else
      match GetByOrig(t, orig, true)
      case None => false
      case Some(e) => e.recomp == Some(recomp)
  }

  lemma PointerMatchIff(t: Table, orig: int, recomp: int)
    ensures IsPointerMatch(t, orig, recomp) <==>
      (orig == 0 && recomp == 0) || (orig in t.origRows && orig in t.recompOf && t.recompOf[orig] == recomp)
  {}

  // ---------------------------------------------------------------------
  // _compare_match

  /** Where a match is sent: nowhere, a stub report, or one of the two comparators. */
  datatype Route = NoReport | StubReport(ty: EntityType) | CompareFunction | CompareVtable

  /** `size is None or size == 0`; False compares equal to 0. */
  predicate NoSize(v: Value)
  {
    v == JNull || v == JInt(0) || v == JBool(false)
  }

  function CompareRoute(e: Entity): Result<Route>
  {
    if NoSize(SizeOf(e)) then Ok(NoReport)
    else if Truthy(Attr(e, "skip", JBool(false))) then Ok(NoReport)
    else if EntityTypeOf(e) == JNull || NameOf(e) == JNull then Err(AssertionError)
    else if Truthy(Attr(e, "stub", JBool(false))) then
      match EntityTypeOf(e)
      case JStr(s) => (match TypeFromValue(s) case Some(ty) => Ok(StubReport(ty)) case None => Err(ValueError))
      case _ => Err(ValueError)
    else if EntityTypeOf(e) == TypeJson(FUNCTION) then Ok(CompareFunction)
    else if EntityTypeOf(e) == TypeJson(VTABLE) then Ok(CompareVtable)
    else Ok(NoReport)
  }

  /**
   * No size or a skip flag gives no report; a stub gives a stub report of its
   * own type; otherwise only FUNCTION and VTABLE entities are compared.
   */
  lemma CompareRouteRules(e: Entity)
    ensures NoSize(SizeOf(e)) || Truthy(Attr(e, "skip", JBool(false))) ==> CompareRoute(e) == Ok(NoReport)
    ensures CompareRoute(e).Ok? && CompareRoute(e).value.StubReport? ==>
      Truthy(Attr(e, "stub", JBool(false))) && EntityTypeOf(e) == TypeJson(CompareRoute(e).value.ty)
    ensures CompareRoute(e) == Ok(CompareFunction) <==>
      !NoSize(SizeOf(e)) && !Truthy(Attr(e, "skip", JBool(false))) && NameOf(e) != JNull
      && !Truthy(Attr(e, "stub", JBool(false))) && EntityTypeOf(e) == TypeJson(FUNCTION)
    ensures CompareRoute(e) == Ok(CompareVtable) <==>
      !NoSize(SizeOf(e)) && !Truthy(Attr(e, "skip", JBool(false))) && NameOf(e) != JNull
      && !Truthy(Attr(e, "stub", JBool(false))) && EntityTypeOf(e) == TypeJson(VTABLE)
  {
    if CompareRoute(e).Ok? && CompareRoute(e).value.StubReport? {
      var s := EntityTypeOf(e).s;
      assert TypeValue(TypeFromValue(s).value) == s;
    }
  }

  // ---------------------------------------------------------------------
  // Insert-only staging never overwrites

  /** Committing only insert-if-absent stagings always succeeds and runs just the two inserts. */
  lemma InsertOnlyCommit(t: Table, p: Pending)
    requires WellFormed(t) && PendingValid(p)
    requires p.origSet == [] && p.recompSet == [] && p.origToRecomp == [] && p.recompAddr == []
    ensures CommitPending(t, p) == (InsertRecompAll(InsertOrigAll(t, p.origInsert, false), p.recompInsert, false), true)
  {
    var s := InsertRecompAll(InsertOrigAll(t, p.origInsert, false), p.recompInsert, false);
    assert InsertRecompAll(InsertOrigAll(s, [], true), [], true) == s;
    assert MatchAll(s, []) == s;
  }

  /** INSERT OR IGNORE on orig addresses adds rows and changes no existing one. */
  lemma {:induction false} InsertOrigAllKeeps(t: Table, rows: seq<(int, Bag)>)
    requires WellFormed(t)
    ensures InsertOrigAll(t, rows, false).recompOf == t.recompOf
    ensures InsertOrigAll(t, rows, false).origOf == t.origOf
    ensures InsertOrigAll(t, rows, false).recompRows == t.recompRows
    ensures forall o :: o in t.origRows ==>
      o in InsertOrigAll(t, rows, false).origRows && InsertOrigAll(t, rows, false).origRows[o] == t.origRows[o]
    ensures forall o :: o in InsertOrigAll(t, rows, false).origRows <==>
      o in t.origRows || exists i :: 0 <= i < |rows| && rows[i].0 == o
  {
    if rows != [] {
      var pre := rows[..|rows| - 1];
      InsertOrigAllKeeps(t, pre);
      forall o ensures o in InsertOrigAll(t, rows, false).origRows <==>
        o in t.origRows || exists i :: 0 <= i < |rows| && rows[i].0 == o
      {
        if exists i :: 0 <= i < |pre| && pre[i].0 == o {
          var i :| 0 <= i < |pre| && pre[i].0 == o;
          assert rows[i].0 == o;
        }
        if exists i :: 0 <= i < |rows| && rows[i].0 == o {
          var i :| 0 <= i < |rows| && rows[i].0 == o;
          if i < |pre| { assert pre[i].0 == o; }
        }
      }
    }
  }

  /** INSERT OR IGNORE on recomp addresses adds recomp-only rows and changes no existing row. */
  lemma {:induction false} InsertRecompAllKeeps(t: Table, rows: seq<(int, Bag)>)
    requires WellFormed(t)
    ensures InsertRecompAll(t, rows, false).origRows == t.origRows
    ensures InsertRecompAll(t, rows, false).recompOf == t.recompOf
    ensures InsertRecompAll(t, rows, false).origOf == t.origOf
    ensures forall r :: r in t.recompRows ==>
      r in InsertRecompAll(t, rows, false).recompRows && InsertRecompAll(t, rows, false).recompRows[r] == t.recompRows[r]
    ensures forall r :: RecompUsed(InsertRecompAll(t, rows, false), r) <==>
      RecompUsed(t, r) || exists i :: 0 <= i < |rows| && rows[i].0 == r
  {
    if rows != [] {
      var pre := rows[..|rows| - 1];
      InsertRecompAllKeeps(t, pre);
      forall r ensures RecompUsed(InsertRecompAll(t, rows, false), r) <==>
        RecompUsed(t, r) || exists i :: 0 <= i < |rows| && rows[i].0 == r
      {
        if exists i :: 0 <= i < |pre| && pre[i].0 == r {
          var i :| 0 <= i < |pre| && pre[i].0 == r;
          assert rows[i].0 == r;
        }
        if exists i :: 0 <= i < |rows| && rows[i].0 == r {
          var i :| 0 <= i < |rows| && rows[i].0 == r;
          if i < |pre| { assert pre[i].0 == r; }
        }
      }
    }
  }

  // ---------------------------------------------------------------------
  // _find_strings

  /** A string found in a binary: its address and its latin1 text. */
  datatype FoundString = FoundString(addr: int, text: string)

  /** `type=STRING, name=string, size=len(string) + 1`. */
  function StringKwargs(text: string): Bag
  {
    map["type" := TypeJson(STRING), "name" := JStr(text), "size" := JInt(|text| + 1)]
  }

  /** The strings of one binary that are staged: not a relocation site, and likely text. */
  function StringRows(strs: seq<FoundString>, relocs: set<int>, likely: string -> bool): (rows: seq<(int, Bag)>)
    ensures TypesValid(rows)
  {
    if strs == [] then []
    else
      var s := strs[|strs| - 1];
      StringRows(strs[..|strs| - 1], relocs, likely)
        + (if s.addr !in relocs && likely(s.text) then [(s.addr, StringKwargs(s.text))] else [])
  }

  ghost predicate StringQualifies(strs: seq<FoundString>, relocs: set<int>, likely: string -> bool, a: int, bag: Bag)
  {
    exists i :: 0 <= i < |strs| && strs[i].addr == a && a !in relocs && likely(strs[i].text) && bag == StringKwargs(strs[i].text)
  }

  /**
   * A string is staged exactly when it is not at a relocation site and is
   * likely text, with its size counting the terminating NUL.
   */
  lemma {:induction false} StringRowsExact(strs: seq<FoundString>, relocs: set<int>, likely: string -> bool)
    ensures forall a, bag :: (a, bag) in StringRows(strs, relocs, likely) <==> StringQualifies(strs, relocs, likely, a, bag)
  {
    if strs != [] {
      var pre, s := strs[..|strs| - 1], strs[|strs| - 1];
      StringRowsExact(pre, relocs, likely);
      forall a, bag ensures (a, bag) in StringRows(strs, relocs, likely) <==> StringQualifies(strs, relocs, likely, a, bag) {
        if StringQualifies(pre, relocs, likely, a, bag) {
          var i :| 0 <= i < |pre| && pre[i].addr == a && a !in relocs && likely(pre[i].text) && bag == StringKwargs(pre[i].text);
          assert strs[i] == pre[i];
        }
        if StringQualifies(strs, relocs, likely, a, bag) {
          var i :| 0 <= i < |strs| && strs[i].addr == a && a !in relocs && likely(strs[i].text) && bag == StringKwargs(strs[i].text);
          if i < |pre| {
            assert pre[i] == strs[i];
            assert StringQualifies(pre, relocs, likely, a, bag);
          }
        }
      }
    }
  }

  /** The batch of _find_strings: insert-only stagings on both sides. */
  function StringsPending(origStrs: seq<FoundString>, origRelocs: set<int>,
                          recompStrs: seq<FoundString>, recompRelocs: set<int>, likely: string -> bool): (p: Pending)
    ensures PendingValid(p)
  {
    NoPendingValid();
    var p1 := PStageAll(NoPending, InsertOrigKind, StringRows(origStrs, origRelocs, likely));
    PStageAll(p1, InsertRecompKind, StringRows(recompStrs, recompRelocs, likely))
  }

  /**
   * Committing the strings batch always succeeds and leaves every row that
   * existed before exactly as it was: strings never overwrite an entity.
   */
  lemma StringsNeverOverwrite(t: Table, origStrs: seq<FoundString>, origRelocs: set<int>,
                              recompStrs: seq<FoundString>, recompRelocs: set<int>, likely: string -> bool)
    requires WellFormed(t)
    ensures var res := CommitPending(t, StringsPending(origStrs, origRelocs, recompStrs, recompRelocs, likely));
      && res.1
      && res.0.recompOf == t.recompOf && res.0.origOf == t.origOf
      && (forall o :: o in t.origRows ==> o in res.0.origRows && res.0.origRows[o] == t.origRows[o])
      && (forall r :: r in t.recompRows ==> r in res.0.recompRows && res.0.recompRows[r] == t.recompRows[r])
  {
    NoPendingValid();
    var rowsO := StringRows(origStrs, origRelocs, likely);
    var rowsR := StringRows(recompStrs, recompRelocs, likely);
    var p1 := PStageAll(NoPending, InsertOrigKind, rowsO);
    var p := PStageAll(p1, InsertRecompKind, rowsR);
    PStageAllFrame(NoPending, InsertOrigKind, rowsO);
    PStageAllFrame(p1, InsertRecompKind, rowsR);
    InsertOnlyCommit(t, p);
    var t1 := InsertOrigAll(t, p.origInsert, false);
    InsertOrigAllKeeps(t, p.origInsert);
    InsertRecompAllKeeps(t1, p.recompInsert);
  }

  /** _find_strings: one batch, orig strings then recomp strings. */
  method FindStrings(db: EntityDb, origStrs: seq<FoundString>, origRelocs: set<int>,
                     recompStrs: seq<FoundString>, recompRelocs: set<int>, likely: string -> bool)
    returns (ok: bool)
    requires db.Valid()
    modifies db`table, db`types, db`labels
    ensures db.Valid()
    ensures (db.table, ok) == CommitPending(old(db.table), StringsPending(origStrs, origRelocs, recompStrs, recompRelocs, likely))
  {
    var batch := new EntityBatch(db);
    NoPendingValid();
    StageAllOn(batch, InsertOrigKind, StringRows(origStrs, origRelocs, likely));
    StageAllOn(batch, InsertRecompKind, StringRows(recompStrs, recompRelocs, likely));
    ok := CommitOn(batch);
  }

  // ---------------------------------------------------------------------
  // _match_imports

  /** One entry of an import table: DLL name, function name, address of its slot. */
  datatype Import = Import(dll: string, name: string, addr: int)

  /** `(dll.upper(), name)`. */
  function ImportKey(imp: Import): (string, string) { (Order.Upper(imp.dll), imp.name) }

  /** `name="dll::name", size=4, type=IMPORT`. */
  function ImportKwargs(imp: Import): Bag
  {
    map["name" := JStr(imp.dll + "::" + imp.name), "size" := JInt(4), "type" := TypeJson(IMPORT)]
  }

  function ImportRows(imps: seq<Import>): (rows: seq<(int, Bag)>)
    ensures |rows| == |imps| && TypesValid(rows)
    ensures forall i :: 0 <= i < |imps| ==> rows[i] == (imps[i].addr, ImportKwargs(imps[i]))
  {
    seq(|imps|, i requires 0 <= i < |imps| => (imps[i].addr, ImportKwargs(imps[i])))
  }

  /** The (address, key) pairs of an import table, in table order. */
  function AddrKeys(imps: seq<Import>): (pairs: seq<(int, (string, string))>)
    ensures |pairs| == |imps| && forall i :: 0 <= i < |imps| ==> pairs[i] == (imps[i].addr, ImportKey(imps[i]))
  {
    seq(|imps|, i requires 0 <= i < |imps| => (imps[i].addr, ImportKey(imps[i])))
  }

  /** The (key, address) pairs of an import table, in table order. */
  function KeyAddrs(imps: seq<Import>): (pairs: seq<((string, string), int)>)
    ensures |pairs| == |imps| && forall i :: 0 <= i < |imps| ==> pairs[i] == (ImportKey(imps[i]), imps[i].addr)
  {
    seq(|imps|, i requires 0 <= i < |imps| => (ImportKey(imps[i]), imps[i].addr))
  }

  /** The pairs of the combining loop, in orig_byaddr order. */
  function ImportPairsOf(byAddr: Dict<int, (string, string)>, byName: map<(string, string), int>): seq<(int, int)>
  {
    if byAddr == [] then []
    else
      var last := byAddr[|byAddr| - 1];
      ImportPairsOf(byAddr[..|byAddr| - 1], byName) + (if last.1 in byName then [(last.0, byName[last.1])] else [])
  }

  /** `orig_byaddr` and `recomp_byname` combined. */
  function ImportPairs(origImps: seq<Import>, recompImps: seq<Import>): seq<(int, int)>
  {
    ImportPairsOf(FromPairs(AddrKeys(origImps)), DictOf(KeyAddrs(recompImps)))
  }

  lemma {:induction false} ImportPairsOfExact(d: Dict<int, (string, string)>, byName: map<(string, string), int>)
    requires DistinctKeys(d)
    ensures forall o, r :: (o, r) in ImportPairsOf(d, byName) <==>
      Get(d, o).Some? && Get(d, o).value in byName && byName[Get(d, o).value] == r
  {
    if d != [] {
      var pre, last := d[..|d| - 1], d[|d| - 1];
      ImportPairsOfExact(pre, byName);
      forall o, r ensures (o, r) in ImportPairsOf(d, byName) <==>
        Get(d, o).Some? && Get(d, o).value in byName && byName[Get(d, o).value] == r
      {
        DictSnoc(d, o);
      }
    }
  }

  /** Looking a key up in a dictionary with distinct keys, split at its last entry. */
  lemma DictSnoc<K(!new), V>(d: Dict<K, V>, k: K)
    requires DistinctKeys(d) && d != []
    ensures DistinctKeys(d[..|d| - 1])
    ensures d[|d| - 1].0 == k ==> Get(d, k) == Some(d[|d| - 1].1) && Get(d[..|d| - 1], k).None?
    ensures d[|d| - 1].0 != k ==> Get(d, k) == Get(d[..|d| - 1], k)
  {
    var pre, last := d[..|d| - 1], d[|d| - 1];
    assert !HasKey(pre, last.0) by {
      forall i | 0 <= i < |pre| ensures pre[i].0 != last.0 {
        assert pre[i] == d[i];
      }
    }
    assert d == pre + [last];
    assert Put(pre, last.0, last.1) == d;
  }

  /**
   * The import matches pair an orig slot address with the recomp slot
   * address of the same (upper-cased DLL, name): the key of the last orig
   * entry at that address, and the last recomp entry with that key. So a
   * recomp import whose key no orig import has is never paired.
   */
  lemma ImportPairsExact(origImps: seq<Import>, recompImps: seq<Import>)
    ensures forall o, r :: (o, r) in ImportPairs(origImps, recompImps) <==>
      exists k :: LastPair(AddrKeys(origImps), o, k) && LastPair(KeyAddrs(recompImps), k, r)
    ensures forall o, r :: (o, r) in ImportPairs(origImps, recompImps) ==>
      exists i, j ::
        (&& 0 <= i < |origImps| && 0 <= j < |recompImps|
         && origImps[i].addr == o && recompImps[j].addr == r && ImportKey(origImps[i]) == ImportKey(recompImps[j]))
  {
    var ak, ka := AddrKeys(origImps), KeyAddrs(recompImps);
    var d, m := FromPairs(ak), DictOf(ka);
    ImportPairsOfExact(d, m);
    forall o, r ensures (o, r) in ImportPairs(origImps, recompImps) <==>
      exists k :: LastPair(ak, o, k) && LastPair(ka, k, r)
    {
      if (o, r) in ImportPairs(origImps, recompImps) {
        var k := Get(d, o).value;
        DictOfIff(ak, o, k);
        DictOfIff(ka, k, r);
      }
      if exists k :: LastPair(ak, o, k) && LastPair(ka, k, r) {
        var k :| LastPair(ak, o, k) && LastPair(ka, k, r);
        DictOfIff(ak, o, k);
        DictOfIff(ka, k, r);
      }
    }
    forall o, r | (o, r) in ImportPairs(origImps, recompImps)
      ensures exists i, j ::
        (&& 0 <= i < |origImps| && 0 <= j < |recompImps|
         && origImps[i].addr == o && recompImps[j].addr == r && ImportKey(origImps[i]) == ImportKey(recompImps[j]))
    {
      var k := Get(d, o).value;
      DictOfIff(ak, o, k);
      DictOfIff(ka, k, r);
      var i :| 0 <= i < |ak| && ak[i] == (o, k) && forall j :: i < j < |ak| ==> ak[j].0 != o;
      var j :| 0 <= j < |ka| && ka[j] == (k, r) && forall j' :: j < j' < |ka| ==> ka[j'].0 != k;
      assert origImps[i].addr == o && recompImps[j].addr == r;
    }
  }

  /** A recomp import is paired only with an orig import of the same key. */
  lemma RecompOnlyImportUnmatched(origImps: seq<Import>, recompImps: seq<Import>, j: int)
    requires 0 <= j < |recompImps|
    requires forall i :: 0 <= i < |origImps| ==> ImportKey(origImps[i]) != ImportKey(recompImps[j])
    requires forall j' :: 0 <= j' < |recompImps| && recompImps[j'].addr == recompImps[j].addr ==>
      ImportKey(recompImps[j']) == ImportKey(recompImps[j])
    ensures forall o :: (o, recompImps[j].addr) !in ImportPairs(origImps, recompImps)
  {
    ImportPairsExact(origImps, recompImps);
  }

  /** The first batch of _match_imports: both import tables upserted, then the matches. */
  function ImportsPending(origImps: seq<Import>, recompImps: seq<Import>): (p: Pending)
    ensures PendingValid(p)
  {
    NoPendingValid();
    var p1 := PStageAll(NoPending, SetOrigKind, ImportRows(origImps));
    var p2 := PStageAll(p1, SetRecompKind, ImportRows(recompImps));
    PMatchAll(p2, ImportPairs(origImps, recompImps))
  }

  /** An import thunk: a `jmp [slot]` stub, with its size and the slot it jumps through. */
  datatype ImportThunk = ImportThunk(addr: int, dll: string, func: string, size: int, importAddr: int)

  /** `name, type=FUNCTION, skip=True, size, ref_orig` (or `ref_recomp`). */
  function ImportThunkKwargs(th: ImportThunk, refKey: string): Bag
  {
    map["name" := JStr(th.dll + "::" + th.func), "type" := TypeJson(FUNCTION), "skip" := JBool(true),
        "size" := JInt(th.size), refKey := JInt(th.importAddr)]
  }

  function ImportThunkRows(ths: seq<ImportThunk>, refKey: string): (rows: seq<(int, Bag)>)
    requires refKey !in {"name", "type", "skip", "size"}
    ensures |rows| == |ths| && TypesValid(rows)
    ensures forall i :: 0 <= i < |ths| ==> rows[i] == (ths[i].addr, ImportThunkKwargs(ths[i], refKey))
  {
    seq(|ths|, i requires 0 <= i < |ths| => (ths[i].addr, ImportThunkKwargs(ths[i], refKey)))
  }

  /** The second batch: each import thunk is a skipped FUNCTION referring to its slot. */
  function ImportThunksPending(origThs: seq<ImportThunk>, recompThs: seq<ImportThunk>): (p: Pending)
    ensures PendingValid(p)
  {
    NoPendingValid();
    var p1 := PStageAll(NoPending, SetOrigKind, ImportThunkRows(origThs, "ref_orig"));
    PStageAll(p1, SetRecompKind, ImportThunkRows(recompThs, "ref_recomp"))
  }

  /** Every import thunk is staged as a skipped function that points at its slot on its own side. */
  lemma ImportThunkMarkedSkip(th: ImportThunk)
    ensures var kw := ImportThunkKwargs(th, "ref_orig");
      TypeTag(kw) == Ok(Some(FUNCTION)) && kw["skip"] == JBool(true) && kw["ref_orig"] == JInt(th.importAddr)
      && "ref_recomp" !in kw
  {
    assert TypeFromValue("function") == Some(FUNCTION);
  }

  /** The first `with` block of _match_imports. */
  method ImportBatch(db: EntityDb, origImps: seq<Import>, recompImps: seq<Import>) returns (ok: bool)
    requires db.Valid()
    modifies db`table, db`types, db`labels
    ensures db.Valid()
    ensures (db.table, ok) == CommitPending(old(db.table), ImportsPending(origImps, recompImps))
  {
    NoPendingValid();
    var batch := new EntityBatch(db);
    StageAllOn(batch, SetOrigKind, ImportRows(origImps));
    StageAllOn(batch, SetRecompKind, ImportRows(recompImps));
    MatchAllOn(batch, ImportPairs(origImps, recompImps));
    ok := CommitOn(batch);
  }

  /** The second `with` block of _match_imports. */
  method ImportThunkBatch(db: EntityDb, origThs: seq<ImportThunk>, recompThs: seq<ImportThunk>) returns (ok: bool)
    requires db.Valid()
    modifies db`table, db`types, db`labels
    ensures db.Valid()
    ensures (db.table, ok) == CommitPending(old(db.table), ImportThunksPending(origThs, recompThs))
  {
    NoPendingValid();
    var batch := new EntityBatch(db);
    StageAllOn(batch, SetOrigKind, ImportThunkRows(origThs, "ref_orig"));
    StageAllOn(batch, SetRecompKind, ImportThunkRows(recompThs, "ref_recomp"));
    ok := CommitOn(batch);
  }

  /** _match_imports: the two batches, one after the other. */
  method MatchImports(db: EntityDb, origImps: seq<Import>, recompImps: seq<Import>,
                      origThs: seq<ImportThunk>, recompThs: seq<ImportThunk>)
    returns (ok1: bool, ok2: bool)
    requires db.Valid()
    modifies db`table, db`types, db`labels
    ensures db.Valid()
    ensures var first := CommitPending(old(db.table), ImportsPending(origImps, recompImps));
      ok1 == first.1 && (db.table, ok2) == CommitPending(first.0, ImportThunksPending(origThs, recompThs))
  {
    ok1 := ImportBatch(db, origImps, recompImps);
    ok2 := ImportThunkBatch(db, origThs, recompThs);
  }
}
